/**
 * The test execution listener that resets mock beans before and after each
 * test method. The two hook methods hand the test's application context to
 * ResetMocks; ResetMocks only proceeds for a configurable context, walks the
 * bean definitions of its bean factory in enumeration order, resets every
 * default-scope bean whose MockReset is the requested one, and then does the
 * same for the parent context through the configurable check again.
 *
 * Every method returns, as a ghost value, the calls it made into the bean
 * factory and into Mockito, in order, so that what was looked up, what was
 * fetched and what was reset can be stated.
 */
module ResetMocksTestExecutionListener {
  import opened BeanRegistry

  /** The handle the test framework passes to the hooks; only its application
      context is read. */
  datatype TestContext = TestContext(applicationContext: ApplicationContext)

  /** A call made into the bean factory or into Mockito, by bean name. */
  datatype Call =
    | GetBeanDefinition(name: string)
    | GetBean(name: string)
    | MockitoReset(name: string)

  /** The test in the loop body: the definition has exactly the default scope
      and the bean is a mock marked with `reset`. */
  predicate Selected(reg: Registration, reset: MockReset) {
    reg.definition.scope == SCOPE_DEFAULT && GetMockReset(reg.bean) == Some(reset)
  }

  /** The contexts one ResetMocks call processes, in order: the context and
      then its ancestors, as long as each of them is configurable. */
  function Walk(ctx: ApplicationContext): seq<ApplicationContext>
    decreases ctx
  {
    if !ctx.configurable then []
    else match ctx.parent
      case None => [ctx]
      case Some(p) => [ctx] + Walk(p)
  }

  /** The calls one turn of the loop makes for one registration. */
  function RegistrationCalls(reg: Registration, reset: MockReset): seq<Call> {
    [GetBeanDefinition(reg.name)] +
    if reg.definition.scope == SCOPE_DEFAULT then
      [GetBean(reg.name)] + (if GetMockReset(reg.bean) == Some(reset) then [MockitoReset(reg.name)] else [])
    else []
  }

  /** The calls the loop makes over a sequence of registrations. */
  function LoopCalls(regs: seq<Registration>, reset: MockReset): seq<Call> {
    if regs == [] then []
    else LoopCalls(regs[..|regs| - 1], reset) + RegistrationCalls(regs[|regs| - 1], reset)
  }

  /** The calls made over a sequence of contexts, one loop per context. */
  function WalkCalls(levels: seq<ApplicationContext>, reset: MockReset): seq<Call> {
    if levels == [] then []
    else LoopCalls(levels[0].registrations, reset) + WalkCalls(levels[1..], reset)
  }

  /** The calls one ResetMocks call makes. */
  function Calls(ctx: ApplicationContext, reset: MockReset): seq<Call> {
    WalkCalls(Walk(ctx), reset)
  }

  /** The beans the loop resets when it runs over `regs`. */
  function SelectedBeans(regs: seq<Registration>, reset: MockReset): set<MockBean> {
    if regs == [] then {}
    else SelectedBeans(regs[..|regs| - 1], reset) +
         (if Selected(regs[|regs| - 1], reset) then {regs[|regs| - 1].bean} else {})
  }

  /** The beans reset over a sequence of contexts. */
  function WalkSelectedBeans(levels: seq<ApplicationContext>, reset: MockReset): set<MockBean> {
    if levels == [] then {}
    else SelectedBeans(levels[0].registrations, reset) + WalkSelectedBeans(levels[1..], reset)
  }

  /** The beans one ResetMocks call resets. */
  function ResetBeans(ctx: ApplicationContext, reset: MockReset): set<MockBean> {
    WalkSelectedBeans(Walk(ctx), reset)
  }

  /** One more turn of the loop appends that registration's calls and
      resets its bean if it is selected. */
  lemma LoopStep(regs: seq<Registration>, i: nat, reset: MockReset)
    requires i < |regs|
    ensures LoopCalls(regs[..i + 1], reset) == LoopCalls(regs[..i], reset) + RegistrationCalls(regs[i], reset)
    ensures forall b :: b in SelectedBeans(regs[..i + 1], reset) <==>
              b in SelectedBeans(regs[..i], reset) || (b == regs[i].bean && Selected(regs[i], reset))
  {
    assert regs[..i + 1][..i] == regs[..i];
  }

  /** Only beans registered in the context or an ancestor are ever reset. */
  lemma {:induction false} ResetOnlyRegisteredBeans(ctx: ApplicationContext, reset: MockReset)
    ensures ResetBeans(ctx, reset) <= Beans(ctx)
    decreases ctx
  {
    SelectedBeansRegistered(ctx.registrations, reset);
    AscentStep(ctx, reset);
    if ctx.configurable && ctx.parent.Some? {
      ResetOnlyRegisteredBeans(ctx.parent.value, reset);
    }
  }

  lemma {:induction false} SelectedBeansRegistered(regs: seq<Registration>, reset: MockReset)
    ensures forall b :: b in SelectedBeans(regs, reset) ==> exists r :: r in regs && r.bean == b
    ensures forall b :: b in SelectedBeans(regs, reset) ==> b in (set r | r in regs :: r.bean)
  {
    if regs != [] {
      SelectedBeansRegistered(regs[..|regs| - 1], reset);
      forall b | b in SelectedBeans(regs, reset) ensures exists r :: r in regs && r.bean == b {
        if b in SelectedBeans(regs[..|regs| - 1], reset) {
          var r :| r in regs[..|regs| - 1] && r.bean == b;
          assert r in regs;
        } else {
          assert regs[|regs| - 1] in regs;
        }
      }
    }
  }

  /** What a configurable context contributes before its parent is
      processed: its own loop, then the parent's walk. */
  lemma AscentStep(ctx: ApplicationContext, reset: MockReset)
    ensures !ctx.configurable ==> Calls(ctx, reset) == [] && ResetBeans(ctx, reset) == {}
    ensures ctx.configurable && ctx.parent.None? ==>
              Calls(ctx, reset) == LoopCalls(ctx.registrations, reset) &&
              ResetBeans(ctx, reset) == SelectedBeans(ctx.registrations, reset)
    ensures ctx.configurable && ctx.parent.Some? ==>
              Calls(ctx, reset) == LoopCalls(ctx.registrations, reset) + Calls(ctx.parent.value, reset) &&
              ResetBeans(ctx, reset) == SelectedBeans(ctx.registrations, reset) + ResetBeans(ctx.parent.value, reset)
  {
    if ctx.configurable {
      match ctx.parent
      case None =>
        assert Walk(ctx) == [ctx];
        assert [ctx][1..] == [];
        assert WalkCalls([ctx], reset) == LoopCalls(ctx.registrations, reset) + WalkCalls([], reset);
        assert WalkSelectedBeans([ctx], reset) == SelectedBeans(ctx.registrations, reset) + WalkSelectedBeans([], reset);
      case Some(p) =>
        assert Walk(ctx) == [ctx] + Walk(p);
        assert ([ctx] + Walk(p))[1..] == Walk(p);
    }
  }

  /** beforeTestMethod: reset the mocks marked BEFORE. */
  method BeforeTestMethod(testContext: TestContext) returns (ghost calls: seq<Call>)
    modifies Beans(testContext.applicationContext)
    ensures calls == Calls(testContext.applicationContext, BEFORE)
    ensures forall b :: b in Beans(testContext.applicationContext) && old(allocated(b)) ==>
              b.invocations == if b in ResetBeans(testContext.applicationContext, BEFORE) then [] else old(b.invocations)
  {
    calls := ResetMocks(testContext.applicationContext, BEFORE);
  }

  /** afterTestMethod: reset the mocks marked AFTER. */
  method AfterTestMethod(testContext: TestContext) returns (ghost calls: seq<Call>)
    modifies Beans(testContext.applicationContext)
    ensures calls == Calls(testContext.applicationContext, AFTER)
    ensures forall b :: b in Beans(testContext.applicationContext) && old(allocated(b)) ==>
              b.invocations == if b in ResetBeans(testContext.applicationContext, AFTER) then [] else old(b.invocations)
  {
    calls := ResetMocks(testContext.applicationContext, AFTER);
  }

  /** resetMocks(ApplicationContext, MockReset): a context that is not
      configurable is left alone. */
  method ResetMocks(ctx: ApplicationContext, reset: MockReset) returns (ghost calls: seq<Call>)
    modifies Beans(ctx)
    ensures calls == Calls(ctx, reset)
    ensures forall b :: b in Beans(ctx) && old(allocated(b)) ==>
              b.invocations == if b in ResetBeans(ctx, reset) then [] else old(b.invocations)
    decreases ctx, 1
  {
    calls := [];
    if ctx.configurable {
      calls := ResetConfigurableMocks(ctx, reset);
    }
  }

  /** resetMocks(ConfigurableApplicationContext, MockReset): the beans of the
      context's own bean factory, then the parent through the configurable
      check. */
  method ResetConfigurableMocks(ctx: ApplicationContext, reset: MockReset) returns (ghost calls: seq<Call>)
    requires ctx.configurable
    modifies Beans(ctx)
    ensures calls == Calls(ctx, reset)
    ensures forall b :: b in Beans(ctx) && old(allocated(b)) ==>
              b.invocations == if b in ResetBeans(ctx, reset) then [] else old(b.invocations)
    decreases ctx, 0
  {
    calls := ResetBeanFactoryMocks(ctx, reset);
    SelectedBeansRegistered(ctx.registrations, reset);
    AscentStep(ctx, reset);
    label AfterLoop:
    match ctx.parent {
      case None =>
      case Some(p) =>
        var parentCalls := ResetMocks(p, reset);
        calls := calls + parentCalls;
        ResetOnlyRegisteredBeans(p, reset);
        forall b | b in Beans(ctx) && old(allocated(b))
          ensures b.invocations == if b in ResetBeans(ctx, reset) then [] else old(b.invocations)
        {
          if b !in Beans(p) {
            assert b.invocations == old@AfterLoop(b.invocations);
          }
        }
    }
  }

  /** The loop of resetMocks(ConfigurableApplicationContext, MockReset) over
      the bean definition names of the context's own bean factory. */
  method ResetBeanFactoryMocks(ctx: ApplicationContext, reset: MockReset) returns (ghost calls: seq<Call>)
    modifies FactoryBeans(ctx)
    ensures calls == LoopCalls(ctx.registrations, reset)
    ensures forall b :: b in FactoryBeans(ctx) && old(allocated(b)) ==>
              b.invocations == if b in SelectedBeans(ctx.registrations, reset) then [] else old(b.invocations)
  {
    var regs := ctx.registrations;
    var names := BeanDefinitionNames(ctx);
    calls := [];
    for i := 0 to |names|
      invariant calls == LoopCalls(regs[..i], reset)
      invariant forall b :: b in FactoryBeans(ctx) && old(allocated(b)) ==>
                  b.invocations == if b in SelectedBeans(regs[..i], reset) then [] else old(b.invocations)
    {
      LoopStep(regs, i, reset);
      var definition := regs[i].definition;
      ghost var step := [GetBeanDefinition(names[i])];
      if SCOPE_DEFAULT == definition.scope {
        var bean := regs[i].bean;
        step := step + [GetBean(names[i])];
        if Some(reset) == GetMockReset(bean) {
          bean.Reset();
          step := step + [MockitoReset(names[i])];
        }
      }
      assert step == RegistrationCalls(regs[i], reset);
      calls := calls + step;
    }
    assert regs[..|names|] == regs;
  }
}
