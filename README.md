# Resetting mock beans around a test method

This project models `ResetMocksTestExecutionListener` from spring-boot-test in Dafny. The
listener runs before and after each test method. It takes the test's application context,
walks the bean definitions of that context's bean factory in enumeration order, and calls
`Mockito.reset` on every bean that meets two conditions:

- its definition has exactly the default scope, which is the empty scope name;
- the bean's `MockReset` is the phase being run (`BEFORE` for the before hook, `AFTER`
  for the after hook).

It then does the same for the parent context. The parent goes back through the check for a
`ConfigurableApplicationContext`, so the first ancestor that is not configurable ends the
walk.

Files:

- `bean_registry.dfy` (module `BeanRegistry`) stands in for the container and Mockito.
  - An `ApplicationContext` is a value: a configurable flag, the registrations of its bean
    factory in enumeration order, and an optional parent. Each registration is a name, a
    `BeanDefinition` with its scope string, and a bean.
  - `BeanDefinitionNames` is `getBeanDefinitionNames`: the registered names in enumeration
    order. `FactoryBeans` and `Beans` are the bean objects of one context and of a context
    with its ancestors. `Ancestry` is the parent chain.
  - A bean is a `MockBean` object. Its mock settings are fixed (`NotAMock`, or `Mock` of
    `BEFORE`/`AFTER`/`NONE`). It has one mutable field, the interactions Mockito has
    recorded on it. `MockBean.Reset` is `Mockito.reset`.
- `reset_mocks.dfy` (module `ResetMocksTestExecutionListener`) holds the hooks and the two
  `resetMocks` overloads as methods. It also holds the specification functions they are
  proved against:
  - `Walk`: the contexts visited;
  - `Calls`: the calls made into the bean factory and into Mockito, in order;
  - `ResetBeans`: the beans whose interactions are cleared.

  Every method returns its calls as a ghost value. The hooks, `ResetMocks` and
  `ResetConfigurableMocks` state the new interaction state of every bean of the context and
  its ancestors: cleared if the bean is in `ResetBeans`, unchanged otherwise.
  `ResetBeanFactoryMocks`, the loop over one bean factory, states it for the beans of that
  factory only (`FactoryBeans`): cleared if the bean is in `SelectedBeans` of the context's
  registrations, unchanged otherwise.
- `reset_mocks_properties.dfy` (module `ResetMocksProperties`) proves what those
  functions mean, without reference to how the loop computes them. It covers the ascent,
  the lookup order, the order and number of resets, which names are fetched, which beans
  are reset, the no-op case and the exact scope comparison.
- `reset_mocks_client.dfy` (module `ResetMocksClient`): three small callers of the hooks
  that show what the contracts let a client conclude.

The registry cannot be modified by the listener. Contexts, definitions and registrations
are values, and a bean's mock settings are a `const`. The only state that changes is
`MockBean.invocations`.

The loop of `resetMocks(ConfigurableApplicationContext, MockReset)` (lines 58-68) is the
method `ResetBeanFactoryMocks`. The parent ascent of the same Java method (lines 69-71) is
`ResetConfigurableMocks`, which calls it. Keeping them apart keeps each proof small. The
recursion between the two overloads terminates on the structure of the parent chain.

## Model

| member | source | states |
|---|---|---|
| `ResetMocksTestExecutionListener.BeforeTestMethod` | spring-boot-test/src/main/java/org/springframework/boot/test/mock/mockito/ResetMocksTestExecutionListener.java:39-42 | the calls made are those of the walk for BEFORE. Every bean of the context and its ancestors ends with no recorded interactions if it is in `ResetBeans(ctx, BEFORE)`, and keeps its interactions otherwise |
| `ResetMocksTestExecutionListener.AfterTestMethod` | spring-boot-test/src/main/java/org/springframework/boot/test/mock/mockito/ResetMocksTestExecutionListener.java:44-47 | the same as the before hook, for AFTER |
| `ResetMocksTestExecutionListener.ResetMocks` | spring-boot-test/src/main/java/org/springframework/boot/test/mock/mockito/ResetMocksTestExecutionListener.java:49-54 | for any context, configurable or not, the calls equal `Calls(ctx, reset)`. Exactly the beans in `ResetBeans(ctx, reset)` are cleared; every other bean keeps its interactions |
| `ResetMocksTestExecutionListener.ResetConfigurableMocks` | spring-boot-test/src/main/java/org/springframework/boot/test/mock/mockito/ResetMocksTestExecutionListener.java:56-72 | for a configurable context: the bean factory's loop, then the parent through `ResetMocks`, with the same calls and bean state as `ResetMocks` |
| `ResetMocksTestExecutionListener.ResetBeanFactoryMocks` | spring-boot-test/src/main/java/org/springframework/boot/test/mock/mockito/ResetMocksTestExecutionListener.java:58-68 | the loop makes the lookup, fetch and reset calls for each registration in order. It clears exactly the beans of the selected registrations and leaves every other bean of the factory unchanged. The invariant says the same of the registrations processed so far |
| `ResetMocksTestExecutionListener.LoopStep` | spring-boot-test/src/main/java/org/springframework/boot/test/mock/mockito/ResetMocksTestExecutionListener.java:60-68 | one more turn of the loop appends that registration's calls. It adds the registration's bean to the reset set exactly when the registration is selected |
| `ResetMocksTestExecutionListener.AscentStep` | spring-boot-test/src/main/java/org/springframework/boot/test/mock/mockito/ResetMocksTestExecutionListener.java:49-71 | a non-configurable context makes no calls and resets nothing. A configurable one makes its own loop's calls and resets, followed by those of its parent if it has one |
| `ResetMocksTestExecutionListener.ResetOnlyRegisteredBeans` | spring-boot-test/src/main/java/org/springframework/boot/test/mock/mockito/ResetMocksTestExecutionListener.java:58-71 | every bean that is reset is registered in the context or one of its ancestors |
| `ResetMocksTestExecutionListener.SelectedBeansRegistered` | spring-boot-test/src/main/java/org/springframework/boot/test/mock/mockito/ResetMocksTestExecutionListener.java:60-66 | every bean the loop resets is the bean of one of the registrations it walked |
| `BeanRegistry.Ancestry` | spring-boot-test/src/main/java/org/springframework/boot/test/mock/mockito/ResetMocksTestExecutionListener.java:69-70 | the chain starts at the context. Each element's parent is the next element, and the last has no parent |
| `BeanRegistry.MockBean.Reset` | spring-boot-test/src/main/java/org/springframework/boot/test/mock/mockito/ResetMocksTestExecutionListener.java:65 | after `Mockito.reset` the bean has no recorded interactions |
| `ResetMocksProperties.WalkIsConfigurablePrefixOfAncestry` | spring-boot-test/src/main/java/org/springframework/boot/test/mock/mockito/ResetMocksTestExecutionListener.java:49-71 | the contexts visited are a prefix of the ancestry, nearest first, and all of them are configurable. The next ancestor, if any, is not configurable. So only ancestors are visited, and the walk stops at the first non-configurable one |
| `ResetMocksProperties.NonConfigurableAncestorEndsWalk` | spring-boot-test/src/main/java/org/springframework/boot/test/mock/mockito/ResetMocksTestExecutionListener.java:49-51 | if the k-th ancestor is not configurable, fewer than k+1 contexts are visited. Every visited context lies strictly below it |
| `ResetMocksProperties.NonConfigurableIsNoOp` | spring-boot-test/src/main/java/org/springframework/boot/test/mock/mockito/ResetMocksTestExecutionListener.java:49-53 | a context that is not configurable is not walked. There are no calls, no bean is reset and no parent is visited |
| `ResetMocksProperties.DefinitionLookupsFollowEnumeration` | spring-boot-test/src/main/java/org/springframework/boot/test/mock/mockito/ResetMocksTestExecutionListener.java:58-71 | the names passed to `getBeanDefinition` are, in this order, the enumerated names of each visited context, the context's own before its parent's. Each name is looked up once per registration |
| `ResetMocksProperties.DefinitionLookupsAppend` | spring-boot-test/src/main/java/org/springframework/boot/test/mock/mockito/ResetMocksTestExecutionListener.java:60-61 | the lookups of two consecutive call sequences are the lookups of the first followed by those of the second |
| `ResetMocksProperties.LoopLooksUpEveryName` | spring-boot-test/src/main/java/org/springframework/boot/test/mock/mockito/ResetMocksTestExecutionListener.java:59-61 | after k turns of the loop, the names looked up are the first k enumerated names, in order |
| `ResetMocksProperties.GetBeanOnlyForDefaultScope` | spring-boot-test/src/main/java/org/springframework/boot/test/mock/mockito/ResetMocksTestExecutionListener.java:61-63 | `getBean(n)` is called if and only if a visited context registers `n` with a definition whose scope equals the default scope exactly |
| `ResetMocksProperties.MockitoResetOnlyForSelected` | spring-boot-test/src/main/java/org/springframework/boot/test/mock/mockito/ResetMocksTestExecutionListener.java:62-66 | `Mockito.reset` is called for `n` if and only if a visited context registers `n` with the default scope and a bean marked with the requested reset |
| `ResetMocksProperties.NonDefaultScopeNeverFetched` | spring-boot-test/src/main/java/org/springframework/boot/test/mock/mockito/ResetMocksTestExecutionListener.java:61-63 | a name registered in the visited contexts only under non-default scopes is never fetched and never reset, whatever its marker |
| `ResetMocksProperties.ResetBeansAreSelected` | spring-boot-test/src/main/java/org/springframework/boot/test/mock/mockito/ResetMocksTestExecutionListener.java:60-66 | a bean is cleared if and only if it is a mock marked with the requested reset and some visited context registers it with the default scope. For the before hook these are the BEFORE mocks; for the after hook, the AFTER mocks |
| `ResetMocksProperties.OtherMarkerNeverReset` | spring-boot-test/src/main/java/org/springframework/boot/test/mock/mockito/ResetMocksTestExecutionListener.java:64 | a bean whose marker is not the requested reset keeps its interactions. This covers a NONE mock, a mock of the other phase and an object that is not a mock |
| `ResetMocksProperties.NonDefaultScopeNeverReset` | spring-boot-test/src/main/java/org/springframework/boot/test/mock/mockito/ResetMocksTestExecutionListener.java:62-63 | a bean registered in the visited contexts only under non-default scopes keeps its interactions |
| `ResetMocksProperties.ExplicitSingletonScopeIsSkipped` | spring-boot-test/src/main/java/org/springframework/boot/test/mock/mockito/ResetMocksTestExecutionListener.java:59-63 | in any context: a name that a visited context registers, and that the visited contexts register only with a definition spelling out `"singleton"`, has its definition looked up. It is then neither fetched nor reset, whatever its bean's marker, because the comparison is with the empty default scope name |
| `ResetMocksProperties.MockitoResetFollowsEnumeration` | spring-boot-test/src/main/java/org/springframework/boot/test/mock/mockito/ResetMocksTestExecutionListener.java:58-71 | the names passed to `Mockito.reset`, as a sequence, are the names of the selected registrations of the visited contexts, in enumeration order, the context's own before its parent's. So each selected registration is reset exactly once per call, and nothing else is reset |
| `ResetMocksProperties.LoopResetsSelected` | spring-boot-test/src/main/java/org/springframework/boot/test/mock/mockito/ResetMocksTestExecutionListener.java:60-66 | one bean factory's loop resets the names of its selected registrations, in enumeration order, once each |
| `ResetMocksProperties.RegistrationResets` | spring-boot-test/src/main/java/org/springframework/boot/test/mock/mockito/ResetMocksTestExecutionListener.java:62-66 | one turn of the loop resets its registration's name once if the registration is selected, and resets nothing otherwise |
| `ResetMocksProperties.ResetNamesAppend` | spring-boot-test/src/main/java/org/springframework/boot/test/mock/mockito/ResetMocksTestExecutionListener.java:65 | the resets of two consecutive call sequences are the resets of the first followed by those of the second |

## Left out

- Bean creation: `getBean` is a lookup of the registered instance. Lazy instantiation, factory beans and scope resolution by the container are not modelled.
- Missing definitions: each registration carries its name, its definition and its bean, so `getBeanDefinition` on an enumerated name always succeeds. Bean names are unique within a bean factory, so a name and its registration's position identify each other.
- Exceptions: the listener catches nothing. A failure in `getBeanDefinition`, `getBean` or `Mockito.reset` would abort the rest of the walk and go to the test framework. The model has no failing calls.
- `MockReset.get` is not part of this model. The model gives each bean a fixed setting in its place: a mock carries its `MockReset`, and an object that is not a mock carries no `MockReset` at all (`GetMockReset` returns `None`). The library call returns `MockReset.NONE` for such an object instead. The consequence is that a non-mock is never reset, even when the phase `NONE` is requested. The hooks only ever request `BEFORE` and `AFTER`, so this does not change what they do.
- `Mockito.reset` clears only the recorded interactions. Stubbing and the rest of Mockito's state are not modelled. Because the clearing is idempotent, a bean registered more than once is cleared once or several times with the same result.
- `TestContext` is reduced to the application context it returns. Listener ordering and the other callbacks of the test framework are not modelled.
- ResetMocksTestExecutionListener.BeforeTestMethod: the bean-state postcondition covers beans allocated before the call. That is every bean a caller can hold, but Dafny cannot see it for objects stored inside a context value.
- ResetMocksTestExecutionListener.AfterTestMethod: the bean-state postcondition covers beans allocated before the call, as for the before hook.
- ResetMocksTestExecutionListener.ResetMocks: the bean-state postcondition covers beans allocated before the call, as for the before hook.
- ResetMocksTestExecutionListener.ResetConfigurableMocks: the bean-state postcondition covers beans allocated before the call, as for the before hook.
- ResetMocksTestExecutionListener.ResetBeanFactoryMocks: the bean-state postcondition covers beans allocated before the call, as for the before hook.
