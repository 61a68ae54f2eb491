/**
 * Clients of the hooks. In a context holding a BEFORE mock, an AFTER mock and
 * a session-scoped BEFORE mock, the before hook clears only the first. A
 * configurable child under a parent holding a BEFORE mock also reaches the
 * parent's mock; a child that is not configurable reaches nothing.
 */
module ResetMocksClient {
  import opened BeanRegistry
  import opened ResetMocksTestExecutionListener
  import opened ResetMocksProperties

  method BeforeHookOnOneContext() {
    var service := new MockBean(Mock(BEFORE), ["save"]);
    var audit := new MockBean(Mock(AFTER), ["log"]);
    var session := new MockBean(Mock(BEFORE), ["touch"]);
    var ctx := ApplicationContext(true, [
      Registration("service", BeanDefinition(SCOPE_DEFAULT), service),
      Registration("audit", BeanDefinition(SCOPE_DEFAULT), audit),
      Registration("session", BeanDefinition("session"), session)], None);
    assert Beans(ctx) == FactoryBeans(ctx) == {service, audit, session};
    assert Walk(ctx) == [ctx];
    assert ctx.registrations[0] in ctx.registrations;
    ResetBeansAreSelected(ctx, BEFORE, service);
    OtherMarkerNeverReset(ctx, BEFORE, audit);
    NonDefaultScopeNeverReset(ctx, BEFORE, session);
    var calls := BeforeTestMethod(TestContext(ctx));
    assert service.invocations == [];
    assert audit.invocations == ["log"] && session.invocations == ["touch"];
  }

  method BeforeHookReachesParent() {
    var shared := new MockBean(Mock(BEFORE), ["load"]);
    var parent := ApplicationContext(true, [Registration("shared", BeanDefinition(SCOPE_DEFAULT), shared)], None);
    var child := ApplicationContext(true, [], Some(parent));
    assert Beans(child) == {shared};
    assert Walk(child) == [child, parent];
    assert parent.registrations[0] in parent.registrations;
    ResetBeansAreSelected(child, BEFORE, shared);
    var calls := BeforeTestMethod(TestContext(child));
    assert shared.invocations == [];
  }

  method NonConfigurableChildReachesNothing() {
    var shared := new MockBean(Mock(AFTER), ["load"]);
    var parent := ApplicationContext(true, [Registration("shared", BeanDefinition(SCOPE_DEFAULT), shared)], None);
    var child := ApplicationContext(false, [], Some(parent));
    assert Beans(child) == {shared};
    NonConfigurableIsNoOp(child, AFTER);
    var calls := AfterTestMethod(TestContext(child));
    assert calls == [] && shared.invocations == ["load"];
  }
}
