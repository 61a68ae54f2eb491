/**
 * An abstract stand-in for the parts of the Spring container and of Mockito
 * that the mock-reset listener talks to: application contexts arranged in a
 * parent chain, the bean registrations of each context's bean factory, the
 * reset marker that MockReset.get reads from a mock, and the interaction
 * history that Mockito.reset clears.
 */
module BeanRegistry {

  datatype Option<T> = None | Some(value: T)

  /** When a mock bean is to be reset: before each test method, after it, or never. */
  datatype MockReset = BEFORE | AFTER | NONE

  /** The mock settings of a bean instance: either it is no mock at all, or it
      is a mock whose settings carry a MockReset. */
  datatype MockSettings = NotAMock | Mock(reset: MockReset)

  /** AbstractBeanDefinition.SCOPE_DEFAULT: the empty scope name. */
  const SCOPE_DEFAULT: string := ""

  /** ConfigurableBeanFactory.SCOPE_SINGLETON, spelled out in a definition. */
  const SCOPE_SINGLETON: string := "singleton"

  /** A recorded call on a mock, by the name of the invoked method. */
  type Invocation = string

  /** A bean instance. Its mock settings are fixed when it is created; the
      interactions Mockito has recorded on it are the only state that
      changes. */
  class MockBean {
    const settings: MockSettings
    var invocations: seq<Invocation>

    constructor (settings: MockSettings, invocations: seq<Invocation>)
      ensures this.settings == settings && this.invocations == invocations
    {
      this.settings := settings;
      this.invocations := invocations;
    }

    /** Mockito.reset(bean): forget every recorded interaction. */
    method Reset()
      modifies this
      ensures invocations == []
    {
      invocations := [];
    }
  }

  /** Stands for MockReset.get(bean): the reset a mock is marked with. An
      object that is not a mock is given no reset at all, so that no phase
      ever selects it. */
  function GetMockReset(bean: MockBean): Option<MockReset> {
    match bean.settings
    case NotAMock => None
    case Mock(reset) => Some(reset)
  }

  /** The part of a bean definition the listener reads. */
  datatype BeanDefinition = BeanDefinition(scope: string)

  /** One entry of a bean factory: a bean name, the definition registered under
      it and the bean instance getBean returns for it. */
  datatype Registration = Registration(name: string, definition: BeanDefinition, bean: MockBean)

  /** An application context. `configurable` says whether it is a
      ConfigurableApplicationContext, whose bean factory can be enumerated;
      `registrations` is that bean factory in enumeration order. */
  datatype ApplicationContext = ApplicationContext(
    configurable: bool,
    registrations: seq<Registration>,
    parent: Option<ApplicationContext>)

  /** getBeanDefinitionNames: the registered names, in enumeration order. */
  function BeanDefinitionNames(ctx: ApplicationContext): (names: seq<string>)
    ensures |names| == |ctx.registrations|
    ensures forall i :: 0 <= i < |names| ==> names[i] == ctx.registrations[i].name
  {
    seq(|ctx.registrations|, i requires 0 <= i < |ctx.registrations| => ctx.registrations[i].name)
  }

  /** The context followed by its ancestors, nearest first, up to the root. */
  function Ancestry(ctx: ApplicationContext): (chain: seq<ApplicationContext>)
    ensures |chain| >= 1 && chain[0] == ctx
    ensures forall i :: 0 <= i < |chain| - 1 ==> chain[i].parent == Some(chain[i + 1])
    ensures chain[|chain| - 1].parent == None
    decreases ctx
  {
    match ctx.parent
    case None => [ctx]
    case Some(p) => [ctx] + Ancestry(p)
  }

  /** The bean objects registered in the context's own bean factory. */
  function FactoryBeans(ctx: ApplicationContext): set<MockBean> {
    set r | r in ctx.registrations :: r.bean
  }

  /** Every bean object registered in the context or one of its ancestors. */
  function Beans(ctx: ApplicationContext): set<MockBean>
    decreases ctx
  {
    FactoryBeans(ctx) +
    match ctx.parent
    case None => {}
    case Some(p) => Beans(p)
  }
}
