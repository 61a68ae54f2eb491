/**
 * What a ResetMocks call does, stated without reference to how the loop and
 * the ascent compute it: which contexts are visited, which bean names are
 * looked up and in what order, which beans are fetched, and which are reset.
 */
module ResetMocksProperties {
  import opened BeanRegistry
  import opened ResetMocksTestExecutionListener

  /** The names passed to getBeanDefinition, in call order. */
  function DefinitionLookups(calls: seq<Call>): seq<string> {
    if calls == [] then []
    else (if calls[0].GetBeanDefinition? then [calls[0].name] else []) + DefinitionLookups(calls[1..])
  }

  /** The bean definition names of a sequence of contexts, one context after
      the other. */
  function EnumeratedNames(levels: seq<ApplicationContext>): seq<string> {
    if levels == [] then []
    else BeanDefinitionNames(levels[0]) + EnumeratedNames(levels[1..])
  }

  // ---------------------------------------------------------------------
  // The ascent

  /** The walk is the longest prefix of the ancestry (the context, its
      parent, its grandparent, ...) whose contexts are all configurable: it
      visits only ancestors, nearest first, and stops at the first one that
      is not configurable. */
  lemma {:induction false} WalkIsConfigurablePrefixOfAncestry(ctx: ApplicationContext)
    ensures |Walk(ctx)| <= |Ancestry(ctx)|
    ensures Walk(ctx) == Ancestry(ctx)[..|Walk(ctx)|]
    ensures forall i :: 0 <= i < |Walk(ctx)| ==> Walk(ctx)[i].configurable
    ensures |Walk(ctx)| < |Ancestry(ctx)| ==> !Ancestry(ctx)[|Walk(ctx)|].configurable
    decreases ctx
  {
    if ctx.configurable {
      match ctx.parent
      case None =>
        assert Walk(ctx) == [ctx] == Ancestry(ctx);
      case Some(p) =>
        WalkIsConfigurablePrefixOfAncestry(p);
        var w, a := Walk(p), Ancestry(p);
        assert Walk(ctx) == [ctx] + w;
        assert Ancestry(ctx) == [ctx] + a;
        assert ([ctx] + a)[..|w| + 1] == [ctx] + a[..|w|];
        forall i | 0 <= i < |w| + 1 ensures ([ctx] + w)[i].configurable {
          if i > 0 {
            assert ([ctx] + w)[i] == w[i - 1];
          }
        }
        if |w| + 1 < |a| + 1 {
          assert ([ctx] + a)[|w| + 1] == a[|w|];
        }
    }
  }

  /** An ancestor that is not configurable ends the walk: it and everything
      above it is never visited. */
  lemma NonConfigurableAncestorEndsWalk(ctx: ApplicationContext, k: nat)
    requires k < |Ancestry(ctx)| && !Ancestry(ctx)[k].configurable
    ensures |Walk(ctx)| <= k
    ensures forall l :: l in Walk(ctx) ==> l in Ancestry(ctx)[..k]
  {
    WalkIsConfigurablePrefixOfAncestry(ctx);
    assert Walk(ctx) == Ancestry(ctx)[..|Walk(ctx)|];
  }

  /** A context that is not configurable is left alone: no call into the bean
      factory or into Mockito, no bean reset, no parent visited. */
  lemma NonConfigurableIsNoOp(ctx: ApplicationContext, reset: MockReset)
    requires !ctx.configurable
    ensures Walk(ctx) == []
    ensures Calls(ctx, reset) == []
    ensures ResetBeans(ctx, reset) == {}
  {
  }

  // ---------------------------------------------------------------------
  // Enumeration order

  lemma {:induction false} DefinitionLookupsAppend(a: seq<Call>, b: seq<Call>)
    ensures DefinitionLookups(a + b) == DefinitionLookups(a) + DefinitionLookups(b)
    decreases |a|
  {
    if a != [] {
      var head := if a[0].GetBeanDefinition? then [a[0].name] else [];
      assert (a + b)[0] == a[0];
      assert (a + b)[1..] == a[1..] + b;
      DefinitionLookupsAppend(a[1..], b);
      assert DefinitionLookups(a + b) == head + DefinitionLookups(a[1..] + b);
      assert DefinitionLookups(a) == head + DefinitionLookups(a[1..]);
    } else {
      assert a + b == b;
    }
  }

  lemma {:induction false} LoopLooksUpEveryName(ctx: ApplicationContext, k: nat, reset: MockReset)
    requires k <= |ctx.registrations|
    ensures DefinitionLookups(LoopCalls(ctx.registrations[..k], reset)) == BeanDefinitionNames(ctx)[..k]
  {
    var regs := ctx.registrations;
    if k > 0 {
      LoopLooksUpEveryName(ctx, k - 1, reset);
      assert regs[..k][..k - 1] == regs[..k - 1];
      var reg := regs[k - 1];
      assert DefinitionLookups(RegistrationCalls(reg, reset)) == [reg.name] by {
        var rest := RegistrationCalls(reg, reset)[1..];
        assert RegistrationCalls(reg, reset) == [GetBeanDefinition(reg.name)] + rest;
        assert forall c :: c in rest ==> !c.GetBeanDefinition?;
        NoLookupsIn(rest);
      }
      DefinitionLookupsAppend(LoopCalls(regs[..k - 1], reset), RegistrationCalls(reg, reset));
      assert BeanDefinitionNames(ctx)[..k] == BeanDefinitionNames(ctx)[..k - 1] + [reg.name];
    }
  }

  lemma {:induction false} NoLookupsIn(calls: seq<Call>)
    requires forall c :: c in calls ==> !c.GetBeanDefinition?
    ensures DefinitionLookups(calls) == []
    decreases |calls|
  {
    if calls != [] {
      assert calls[0] in calls;
      assert forall c :: c in calls[1..] ==> c in calls;
      NoLookupsIn(calls[1..]);
    }
  }

  lemma {:induction false} WalkLooksUpEveryName(levels: seq<ApplicationContext>, reset: MockReset)
    ensures DefinitionLookups(WalkCalls(levels, reset)) == EnumeratedNames(levels)
    decreases |levels|
  {
    if levels != [] {
      var regs := levels[0].registrations;
      LoopLooksUpEveryName(levels[0], |regs|, reset);
      assert regs[..|regs|] == regs;
      assert BeanDefinitionNames(levels[0])[..|regs|] == BeanDefinitionNames(levels[0]);
      WalkLooksUpEveryName(levels[1..], reset);
      DefinitionLookupsAppend(LoopCalls(regs, reset), WalkCalls(levels[1..], reset));
    }
  }

  /** Every bean definition name of every visited context is looked up
      exactly once, in enumeration order, the context's own names before its
      parent's. */
  lemma DefinitionLookupsFollowEnumeration(ctx: ApplicationContext, reset: MockReset)
    ensures DefinitionLookups(Calls(ctx, reset)) == EnumeratedNames(Walk(ctx))
  {
    WalkLooksUpEveryName(Walk(ctx), reset);
  }

  // ---------------------------------------------------------------------
  // Which beans are fetched and reset

  lemma RegistrationCallsMembership(reg: Registration, reset: MockReset, n: string)
    ensures GetBean(n) in RegistrationCalls(reg, reset) <==>
              reg.name == n && reg.definition.scope == SCOPE_DEFAULT
    ensures MockitoReset(n) in RegistrationCalls(reg, reset) <==>
              reg.name == n && Selected(reg, reset)
  {
  }

  lemma {:induction false} LoopCallsFetched(regs: seq<Registration>, reset: MockReset, n: string)
    ensures GetBean(n) in LoopCalls(regs, reset) <==>
              exists i :: 0 <= i < |regs| && regs[i].name == n && regs[i].definition.scope == SCOPE_DEFAULT
  {
    if regs != [] {
      var k := |regs| - 1;
      LoopCallsFetched(regs[..k], reset, n);
      RegistrationCallsMembership(regs[k], reset, n);
      if GetBean(n) in LoopCalls(regs[..k], reset) {
        var i :| 0 <= i < k && regs[..k][i].name == n && regs[..k][i].definition.scope == SCOPE_DEFAULT;
        assert regs[i] == regs[..k][i];
      }
      if exists i :: 0 <= i < |regs| && regs[i].name == n && regs[i].definition.scope == SCOPE_DEFAULT {
        var i :| 0 <= i < |regs| && regs[i].name == n && regs[i].definition.scope == SCOPE_DEFAULT;
        if i < k {
          assert regs[..k][i] == regs[i];
        }
      }
    }
  }

  lemma {:induction false} LoopCallsReset(regs: seq<Registration>, reset: MockReset, n: string)
    ensures MockitoReset(n) in LoopCalls(regs, reset) <==>
              exists i :: 0 <= i < |regs| && regs[i].name == n && Selected(regs[i], reset)
  {
    if regs != [] {
      var k := |regs| - 1;
      LoopCallsReset(regs[..k], reset, n);
      RegistrationCallsMembership(regs[k], reset, n);
      if MockitoReset(n) in LoopCalls(regs[..k], reset) {
        var i :| 0 <= i < k && regs[..k][i].name == n && Selected(regs[..k][i], reset);
        assert regs[i] == regs[..k][i];
      }
      if exists i :: 0 <= i < |regs| && regs[i].name == n && Selected(regs[i], reset) {
        var i :| 0 <= i < |regs| && regs[i].name == n && Selected(regs[i], reset);
        if i < k {
          assert regs[..k][i] == regs[i];
        }
      }
    }
  }

  lemma {:induction false} WalkCallsMembership(levels: seq<ApplicationContext>, reset: MockReset, n: string)
    ensures GetBean(n) in WalkCalls(levels, reset) <==>
              exists l, i :: l in levels && 0 <= i < |l.registrations| &&
                l.registrations[i].name == n && l.registrations[i].definition.scope == SCOPE_DEFAULT
    ensures MockitoReset(n) in WalkCalls(levels, reset) <==>
              exists l, i :: l in levels && 0 <= i < |l.registrations| &&
                l.registrations[i].name == n && Selected(l.registrations[i], reset)
    decreases |levels|
  {
    if levels != [] {
      LoopCallsFetched(levels[0].registrations, reset, n);
      LoopCallsReset(levels[0].registrations, reset, n);
      WalkCallsMembership(levels[1..], reset, n);
      assert forall l :: l in levels <==> l == levels[0] || l in levels[1..];
    }
  }

  /** getBean is called with a name exactly when a visited context registers
      that name with a definition whose scope is exactly the default one. */
  lemma GetBeanOnlyForDefaultScope(ctx: ApplicationContext, reset: MockReset, n: string)
    ensures GetBean(n) in Calls(ctx, reset) <==>
              exists l, i :: l in Walk(ctx) && 0 <= i < |l.registrations| &&
                l.registrations[i].name == n && l.registrations[i].definition.scope == SCOPE_DEFAULT
  {
    WalkCallsMembership(Walk(ctx), reset, n);
  }

  /** Mockito.reset is called for a name exactly when a visited context
      registers that name with the default scope and a bean marked with the
      requested reset. */
  lemma MockitoResetOnlyForSelected(ctx: ApplicationContext, reset: MockReset, n: string)
    ensures MockitoReset(n) in Calls(ctx, reset) <==>
              exists l, i :: l in Walk(ctx) && 0 <= i < |l.registrations| &&
                l.registrations[i].name == n &&
                l.registrations[i].definition.scope == SCOPE_DEFAULT &&
                l.registrations[i].bean.settings == Mock(reset)
  {
    WalkCallsMembership(Walk(ctx), reset, n);
  }

  /** A name registered only with definitions whose scope is not the default
      one is never fetched and never reset, whatever its bean's marker. */
  lemma NonDefaultScopeNeverFetched(ctx: ApplicationContext, reset: MockReset, n: string)
    requires forall l, i :: l in Walk(ctx) && 0 <= i < |l.registrations| && l.registrations[i].name == n ==>
               l.registrations[i].definition.scope != SCOPE_DEFAULT
    ensures GetBean(n) !in Calls(ctx, reset)
    ensures MockitoReset(n) !in Calls(ctx, reset)
  {
    WalkCallsMembership(Walk(ctx), reset, n);
  }

  lemma {:induction false} SelectedBeansMembership(regs: seq<Registration>, reset: MockReset, b: MockBean)
    ensures b in SelectedBeans(regs, reset) <==>
              exists i :: 0 <= i < |regs| && regs[i].bean == b && Selected(regs[i], reset)
  {
    if regs != [] {
      var k := |regs| - 1;
      SelectedBeansMembership(regs[..k], reset, b);
      assert forall i :: 0 <= i < k ==> regs[..k][i] == regs[i];
      if exists i :: 0 <= i < |regs| && regs[i].bean == b && Selected(regs[i], reset) {
        var i :| 0 <= i < |regs| && regs[i].bean == b && Selected(regs[i], reset);
        if i < k {
          assert regs[..k][i] == regs[i];
        }
      }
    }
  }

  lemma {:induction false} WalkSelectedBeansMembership(levels: seq<ApplicationContext>, reset: MockReset, b: MockBean)
    ensures b in WalkSelectedBeans(levels, reset) <==>
              exists l, i :: l in levels && 0 <= i < |l.registrations| &&
                l.registrations[i].bean == b && Selected(l.registrations[i], reset)
    decreases |levels|
  {
    if levels != [] {
      SelectedBeansMembership(levels[0].registrations, reset, b);
      WalkSelectedBeansMembership(levels[1..], reset, b);
      assert forall l :: l in levels <==> l == levels[0] || l in levels[1..];
    }
  }

  /** A bean is reset exactly when some visited context registers it with a
      definition of exactly the default scope and the bean is a mock marked
      with the requested reset. For the before hook that means the visited
      default-scope beans marked BEFORE, for the after hook those marked
      AFTER. */
  lemma ResetBeansAreSelected(ctx: ApplicationContext, reset: MockReset, b: MockBean)
    ensures b in ResetBeans(ctx, reset) <==>
              b.settings == Mock(reset) &&
              exists l, i :: l in Walk(ctx) && 0 <= i < |l.registrations| &&
                l.registrations[i].bean == b && l.registrations[i].definition.scope == SCOPE_DEFAULT
  {
    WalkSelectedBeansMembership(Walk(ctx), reset, b);
  }

  /** A bean whose marker is not the requested reset (a NONE mock, a mock of
      the other phase, an object that is no mock) keeps its interactions. */
  lemma OtherMarkerNeverReset(ctx: ApplicationContext, reset: MockReset, b: MockBean)
    requires b.settings != Mock(reset)
    ensures b !in ResetBeans(ctx, reset)
  {
    ResetBeansAreSelected(ctx, reset, b);
  }

  /** A bean registered only under definitions whose scope is not the default
      one keeps its interactions. */
  lemma NonDefaultScopeNeverReset(ctx: ApplicationContext, reset: MockReset, b: MockBean)
    requires forall l, i :: l in Walk(ctx) && 0 <= i < |l.registrations| && l.registrations[i].bean == b ==>
               l.registrations[i].definition.scope != SCOPE_DEFAULT
    ensures b !in ResetBeans(ctx, reset)
  {
    ResetBeansAreSelected(ctx, reset, b);
  }

  lemma {:induction false} LookupIsCall(calls: seq<Call>, n: string)
    requires n in DefinitionLookups(calls)
    ensures GetBeanDefinition(n) in calls
    decreases |calls|
  {
    if calls[0].GetBeanDefinition? && calls[0].name == n {
      assert calls[0] in calls;
    } else {
      LookupIsCall(calls[1..], n);
      var c :| c in calls[1..] && c == GetBeanDefinition(n);
      assert c in calls;
    }
  }

  lemma {:induction false} RegisteredNameIsEnumerated(levels: seq<ApplicationContext>, l: ApplicationContext, i: nat)
    requires l in levels && i < |l.registrations|
    ensures l.registrations[i].name in EnumeratedNames(levels)
    decreases |levels|
  {
    if levels[0] == l {
      assert BeanDefinitionNames(l)[i] == l.registrations[i].name;
    } else {
      assert l in levels[1..];
      RegisteredNameIsEnumerated(levels[1..], l, i);
    }
  }

  /** The scope comparison is exact: a name that a visited context registers,
      and that every visited context registers only with a definition that
      spells out the singleton scope, is looked up and then skipped. It is
      never fetched and never reset, whatever its bean's marker. */
  lemma ExplicitSingletonScopeIsSkipped(ctx: ApplicationContext, reset: MockReset, n: string)
    requires exists l, i :: l in Walk(ctx) && 0 <= i < |l.registrations| && l.registrations[i].name == n
    requires forall l, i :: l in Walk(ctx) && 0 <= i < |l.registrations| && l.registrations[i].name == n ==>
               l.registrations[i].definition.scope == SCOPE_SINGLETON
    ensures GetBeanDefinition(n) in Calls(ctx, reset)
    ensures GetBean(n) !in Calls(ctx, reset)
    ensures MockitoReset(n) !in Calls(ctx, reset)
  {
    var l, i :| l in Walk(ctx) && 0 <= i < |l.registrations| && l.registrations[i].name == n;
    RegisteredNameIsEnumerated(Walk(ctx), l, i);
    DefinitionLookupsFollowEnumeration(ctx, reset);
    LookupIsCall(Calls(ctx, reset), n);
    NonDefaultScopeNeverFetched(ctx, reset, n);
  }

  // ---------------------------------------------------------------------
  // Order and number of resets

  /** The names passed to Mockito.reset, in call order. */
  function ResetNames(calls: seq<Call>): seq<string> {
    if calls == [] then []
    else (if calls[0].MockitoReset? then [calls[0].name] else []) + ResetNames(calls[1..])
  }

  /** The names of the selected registrations, in enumeration order. */
  function SelectedNames(regs: seq<Registration>, reset: MockReset): seq<string> {
    if regs == [] then []
    else SelectedNames(regs[..|regs| - 1], reset) +
         (if Selected(regs[|regs| - 1], reset) then [regs[|regs| - 1].name] else [])
  }

  /** The names of the selected registrations of a sequence of contexts, one
      context after the other. */
  function WalkSelectedNames(levels: seq<ApplicationContext>, reset: MockReset): seq<string> {
    if levels == [] then []
    else SelectedNames(levels[0].registrations, reset) + WalkSelectedNames(levels[1..], reset)
  }

  lemma {:induction false} ResetNamesAppend(a: seq<Call>, b: seq<Call>)
    ensures ResetNames(a + b) == ResetNames(a) + ResetNames(b)
    decreases |a|
  {
    if a != [] {
      var head := if a[0].MockitoReset? then [a[0].name] else [];
      assert (a + b)[0] == a[0];
      assert (a + b)[1..] == a[1..] + b;
      ResetNamesAppend(a[1..], b);
      assert ResetNames(a + b) == head + ResetNames(a[1..] + b);
      assert ResetNames(a) == head + ResetNames(a[1..]);
    } else {
      assert a + b == b;
    }
  }

  lemma RegistrationResets(reg: Registration, reset: MockReset)
    ensures ResetNames(RegistrationCalls(reg, reset)) == if Selected(reg, reset) then [reg.name] else []
  {
    var c := RegistrationCalls(reg, reset);
    if reg.definition.scope != SCOPE_DEFAULT {
      assert c == [GetBeanDefinition(reg.name)];
      assert c[1..] == [];
    } else if Selected(reg, reset) {
      assert c == [GetBeanDefinition(reg.name), GetBean(reg.name), MockitoReset(reg.name)];
      assert c[1..] == [GetBean(reg.name), MockitoReset(reg.name)];
      assert c[1..][1..] == [MockitoReset(reg.name)];
      assert c[1..][1..][1..] == [];
      assert ResetNames(c[1..][1..]) == [reg.name];
    } else {
      assert c == [GetBeanDefinition(reg.name), GetBean(reg.name)];
      assert c[1..][1..] == [];
    }
  }

  lemma {:induction false} LoopResetsSelected(regs: seq<Registration>, reset: MockReset)
    ensures ResetNames(LoopCalls(regs, reset)) == SelectedNames(regs, reset)
  {
    if regs != [] {
      var k := |regs| - 1;
      LoopResetsSelected(regs[..k], reset);
      RegistrationResets(regs[k], reset);
      ResetNamesAppend(LoopCalls(regs[..k], reset), RegistrationCalls(regs[k], reset));
    }
  }

  lemma {:induction false} WalkResetsSelected(levels: seq<ApplicationContext>, reset: MockReset)
    ensures ResetNames(WalkCalls(levels, reset)) == WalkSelectedNames(levels, reset)
    decreases |levels|
  {
    if levels != [] {
      LoopResetsSelected(levels[0].registrations, reset);
      WalkResetsSelected(levels[1..], reset);
      ResetNamesAppend(LoopCalls(levels[0].registrations, reset), WalkCalls(levels[1..], reset));
    }
  }

  /** Mockito.reset is called once for every selected registration of every
      visited context and for no other, in enumeration order, the context's
      own registrations before its parent's. */
  lemma MockitoResetFollowsEnumeration(ctx: ApplicationContext, reset: MockReset)
    ensures ResetNames(Calls(ctx, reset)) == WalkSelectedNames(Walk(ctx), reset)
  {
    WalkResetsSelected(Walk(ctx), reset);
  }
}
