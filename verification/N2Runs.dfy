/** What every run of the N2 task keeps: the association of a reachable UE is alive, and a release leaves no key. */
module N2Runs {
  import opened Numerals
  import opened Slices
  import Responses
  import opened GnbLifecycle
  import opened UeContexts
  import opened N2Handlers

  // ---------------------------------------------------------------- the gNB part of a run

  function CoreEventsOf(e: N2Event): seq<GnbLifecycle.Event> {
    match e
    case Lifecycle(l) => [l]
    case PartReset(a, _) => [Reset(a)]
    case _ => []
  }

  function CoreEvents(es: seq<N2Event>): seq<GnbLifecycle.Event> {
    if es == [] then [] else CoreEvents(es[..|es| - 1]) + CoreEventsOf(es[|es| - 1])
  }

  lemma RunOneMore(c: Core, ls: seq<GnbLifecycle.Event>, l: GnbLifecycle.Event)
    ensures GnbLifecycle.Run(c, ls + [l]) == GnbLifecycle.Step(GnbLifecycle.Run(c, ls), l)
  {
    assert (ls + [l])[..|ls + [l]| - 1] == ls;
  }

  lemma UeHandlersLeaveCore(s: N2, e: N2Event)
    requires Sane(s) && !e.Lifecycle? && !e.PartReset?
    ensures N2Step(s, e).core == s.core
  {
  }

  lemma CoreOfStep(s: N2, e: N2Event)
    requires Sane(s) && !s.halted
    ensures N2Step(s, e).core
         == if CoreEventsOf(e) == [] then s.core else GnbLifecycle.Step(s.core, CoreEventsOf(e)[0])
  {
    if !e.Lifecycle? && !e.PartReset? {
      UeHandlersLeaveCore(s, e);
    }
  }

  lemma UnhandledStays(s: N2, e: N2Event)
    requires Sane(s) && !Handled(s, e)
    ensures N2Step(s, e) == s
  {
  }

  /** The gNB part of an N2 run that has not halted is a run of the gNB lifecycle. */
  lemma {:induction false} CoreOfRun(cfg: seq<PlmnItem>, es: seq<N2Event>)
    requires !N2Run(Start(cfg), es).halted
    ensures N2Run(Start(cfg), es).core == GnbLifecycle.Run(Init(cfg), CoreEvents(es))
  {
    if es != [] {
      var init, e := es[..|es| - 1], es[|es| - 1];
      var s := N2Run(Start(cfg), init);
      if s.halted {
        UnhandledStays(s, e);
      } else {
        CoreOfRun(cfg, init);
        CoreOfStep(s, e);
        if CoreEventsOf(e) == [] {
          assert CoreEvents(es) == CoreEvents(init);
        } else {
          assert CoreEventsOf(e) == [CoreEventsOf(e)[0]];
          RunOneMore(Init(cfg), CoreEvents(init), CoreEventsOf(e)[0]);
        }
      }
    }
  }

  // ---------------------------------------------------------------- the association of a UE is alive

  /** The handlers that record the association a message came from as the UE's. */
  predicate Serves(e: N2Event) {
    e.InitialUe? || e.Required? || e.Notify?
  }

  ghost predicate FromLive(s: N2, e: N2Event) {
    Serves(e) && e.a in s.core.assocs ==> Live(s.core, e.a)
  }

  /** A UE message comes from no association after its Shutdown, and a gNB event meets its condition. */
  ghost predicate Meets(s: N2, e: N2Event) {
    Handled(s, e) ==>
      FromLive(s, e) && forall i :: 0 <= i < |CoreEventsOf(e)| ==> Harmless(s.core, CoreEventsOf(e)[i])
  }

  ghost predicate Orderly(cfg: seq<PlmnItem>, es: seq<N2Event>) {
    forall n :: 0 <= n < |es| ==> Meets(Before(Start(cfg), es, n), es[n])
  }

  ghost predicate KeyLive(s: N2, k: nat)
    requires Sane(s)
  {
    k in s.t.byRan ==> Live(s.core, s.t.contexts[s.t.byRan[k]].assoc)
  }

  ghost predicate OwnKey(s: N2, k: nat)
    requires Sane(s)
  {
    k in s.t.byRan && s.t.contexts[s.t.byRan[k]].ranId == k
  }

  /** Where a RAN key is its context's own, the context's association is not shut down. */
  ghost predicate OwnKeysLive(s: N2)
    requires Sane(s)
  {
    forall k :: OwnKey(s, k) ==> KeyLive(s, k)
  }

  /** Every RAN key leads to a UE whose association is not shut down. */
  ghost predicate KeysLive(s: N2)
    requires Sane(s)
  {
    forall k :: k in s.t.byRan ==> KeyLive(s, k)
  }

  /** A key of the new state is live, or led to the same context with the same ids before. */
  ghost predicate LiveOrSame(s: N2, s': N2, k: nat)
    requires Sane(s) && Sane(s')
  {
    k in s'.t.byRan ==>
      || KeyLive(s', k)
      || (&& k in s.t.byRan && s'.t.byRan[k] == s.t.byRan[k] && |s.t.contexts| <= |s'.t.contexts|
          && s'.t.contexts[s.t.byRan[k]].assoc == s.t.contexts[s.t.byRan[k]].assoc
          && s'.t.contexts[s.t.byRan[k]].ranId == s.t.contexts[s.t.byRan[k]].ranId)
  }

  lemma LiveOrSameKeeps(s: N2, s': N2)
    requires Sane(s) && Sane(s') && forall k: nat :: LiveOrSame(s, s', k)
    requires forall a :: Live(s.core, a) ==> Live(s'.core, a)
    ensures OwnKeysLive(s) ==> OwnKeysLive(s')
    ensures KeysLive(s) ==> KeysLive(s')
  {
    forall k: nat | k in s'.t.byRan ensures KeyLive(s', k) || (KeyLive(s, k) ==> KeyLive(s', k)) {
      assert LiveOrSame(s, s', k);
    }
    if OwnKeysLive(s) {
      forall k: nat | OwnKey(s', k) ensures KeyLive(s', k) {
        assert LiveOrSame(s, s', k);
        assert !KeyLive(s', k) ==> OwnKey(s, k);
      }
    }
    if KeysLive(s) {
      forall k: nat | k in s'.t.byRan ensures KeyLive(s', k) {
        assert LiveOrSame(s, s', k);
      }
    }
  }

  // ---------------------------------------------------------------- releases

  /** Only a Shutdown that the N2 task takes ends the life of an association. */
  lemma LiveUnlessShut(s: N2, l: GnbLifecycle.Event, a: int)
    requires Live(s.core, a) && !(l.Shutdown? && Releases(s, l) && l.a == a)
    ensures Live(GnbLifecycle.Step(s.core, l), a)
  {
  }

  lemma ReleaseAllShrinks(t: Tables, a: int)
    requires Valid(t)
    ensures Shrinks(t, ReleaseAll(t, a))
  {
    ReleaseEachRemoves(t, Collect(t, a));
  }

  lemma {:induction false} ReleaseConnectionsOnlyRemoves(t: Tables, cs: seq<Connection>, k: nat)
    requires Valid(t) && k in ReleaseConnections(t, cs).byRan
    ensures k in t.byRan && ReleaseConnections(t, cs).byRan[k] == t.byRan[k]
  {
    if cs != [] {
      ReleaseConnectionsOnlyRemoves(t, cs[..|cs| - 1], k);
    }
  }

  lemma LifecycleShrinks(s: N2, l: GnbLifecycle.Event)
    requires Sane(s)
    ensures OnLifecycle(s, l).t.contexts == s.t.contexts
    ensures forall k :: k in OnLifecycle(s, l).t.byRan ==>
              k in s.t.byRan && OnLifecycle(s, l).t.byRan[k] == s.t.byRan[k]
  {
    if Releases(s, l) {
      ReleaseAllShrinks(s.t, l.a);
    }
  }

  lemma LifecycleKeepsOwnKeysLive(s: N2, l: GnbLifecycle.Event)
    requires Sane(s) && OwnKeysLive(s)
    ensures OwnKeysLive(OnLifecycle(s, l))
  {
    var s' := OnLifecycle(s, l);
    LifecycleShrinks(s, l);
    if Releases(s, l) {
      ReleaseAllRemoves(s.t, l.a);
    }
    forall k: nat | OwnKey(s', k) ensures KeyLive(s', k) {
      assert OwnKey(s, k);
      LiveUnlessShut(s, l, s.t.contexts[s.t.byRan[k]].assoc);
    }
  }

  lemma PartResetSame(s: N2, a: int, cs: seq<Connection>, k: nat)
    requires Sane(s)
    ensures LiveOrSame(s, OnPartReset(s, a, cs), k)
    ensures forall b :: Live(s.core, b) ==> Live(OnPartReset(s, a, cs).core, b)
  {
    if a in s.core.assocs && k in ReleaseConnections(s.t, cs).byRan {
      ReleaseConnectionsOnlyRemoves(s.t, cs, k);
    }
  }

  // ---------------------------------------------------------------- handlers of UE messages

  lemma InitialUeSame(s: N2, a: int, ran: nat, k: nat)
    requires Sane(s) && (a in s.core.assocs ==> Live(s.core, a))
    ensures LiveOrSame(s, OnInitialUe(s, a, ran), k)
    ensures KeysAreOwn(s.t) ==> KeysAreOwn(OnInitialUe(s, a, ran).t)
  {
  }

  lemma InitialUeOwn(s: N2, a: int, ran: nat)
    requires Sane(s) && KeysAreOwn(s.t)
    ensures KeysAreOwn(OnInitialUe(s, a, ran).t)
  {
  }

  lemma AssignSame(s: N2, ran: nat, amf: nat, k: nat)
    requires Sane(s)
    ensures LiveOrSame(s, OnAssignAmfId(s, ran, amf), k)
    ensures KeysAreOwn(s.t) ==> KeysAreOwn(OnAssignAmfId(s, ran, amf).t)
  {
  }

  lemma DlNasSame(s: N2, ran: nat, amf: nat, k: nat)
    requires Sane(s)
    ensures LiveOrSame(s, OnDlNas(s, ran, amf), k)
    ensures KeysAreOwn(s.t) ==> KeysAreOwn(OnDlNas(s, ran, amf).t)
  {
  }

  lemma ContextSetupSame(s: N2, ran: nat, k: nat)
    requires Sane(s)
    ensures LiveOrSame(s, OnContextSetup(s, ran), k)
    ensures KeysAreOwn(s.t) ==> KeysAreOwn(OnContextSetup(s, ran).t)
  {
  }

  /** What Handover Required writes of the tables, whatever it goes on to do. */
  lemma RequiredWrites(s: N2, e: N2Event)
    requires Sane(s) && e.Required?
    ensures var s' := OnRequired(s, e.a, e.amf, e.ran, e.intra5gs, e.target, e.items, e.replies).0;
            && s'.core == s.core && s'.t.byRan == s.t.byRan && |s'.t.contexts| == |s.t.contexts|
            && (forall v: nat :: v < |s.t.contexts| ==> s'.t.contexts[v].ranId == s.t.contexts[v].ranId)
            && (forall v: nat :: v < |s.t.contexts| && s'.t.contexts[v].assoc != s.t.contexts[v].assoc ==>
                  s'.t.contexts[v].assoc == e.a && e.a in s.core.assocs)
  {
  }

  lemma RequiredSame(s: N2, e: N2Event, k: nat)
    requires Sane(s) && e.Required? && (e.a in s.core.assocs ==> Live(s.core, e.a))
    ensures LiveOrSame(s, OnRequired(s, e.a, e.amf, e.ran, e.intra5gs, e.target, e.items, e.replies).0, k)
  {
    RequiredWrites(s, e);
  }

  lemma RequiredOwn(s: N2, e: N2Event)
    requires Sane(s) && e.Required? && KeysAreOwn(s.t)
    ensures KeysAreOwn(OnRequired(s, e.a, e.amf, e.ran, e.intra5gs, e.target, e.items, e.replies).0.t)
  {
    RequiredWrites(s, e);
  }

  lemma AckSame(s: N2, e: N2Event, k: nat)
    requires Sane(s) && e.Ack?
    ensures LiveOrSame(s, OnAck(s, e.a, e.amf, e.ran, e.admitted, e.replies).0, k)
    ensures KeysAreOwn(s.t) ==> KeysAreOwn(OnAck(s, e.a, e.amf, e.ran, e.admitted, e.replies).0.t)
  {
  }

  lemma NotifySame(s: N2, e: N2Event, k: nat)
    requires Sane(s) && e.Notify? && (e.a in s.core.assocs ==> Live(s.core, e.a))
    ensures LiveOrSame(s, OnNotify(s, e.a, e.amf, e.ran, e.located).0, k)
  {
  }

  lemma UeStepSame(s: N2, e: N2Event, k: nat)
    requires Sane(s) && FromLive(s, e) && !e.Lifecycle? && !e.PartReset?
    ensures LiveOrSame(s, N2Step(s, e), k)
  {
    if Handled(s, e) {
      match e
      case InitialUe(a, ran) => InitialUeSame(s, a, ran, k);
      case AssignAmfId(ran, amf) => AssignSame(s, ran, amf, k);
      case DlNas(ran, amf) => DlNasSame(s, ran, amf, k);
      case ContextSetup(ran) => ContextSetupSame(s, ran, k);
      case Required(_, _, _, _, _, _, _) => RequiredSame(s, e, k);
      case Ack(_, _, _, _, _) => AckSame(s, e, k);
      case Notify(_, _, _, _) => NotifySame(s, e, k);
      case _ =>
    }
  }

  lemma UeStepKeeps(s: N2, e: N2Event)
    requires Sane(s) && FromLive(s, e) && !e.Lifecycle? && !e.PartReset?
    ensures OwnKeysLive(s) ==> OwnKeysLive(N2Step(s, e))
    ensures KeysLive(s) ==> KeysLive(N2Step(s, e))
  {
    var s' := N2Step(s, e);
    forall k: nat ensures LiveOrSame(s, s', k) {
      UeStepSame(s, e, k);
    }
    UeHandlersLeaveCore(s, e);
    LiveOrSameKeeps(s, s');
  }

  lemma PartResetKeeps(s: N2, a: int, cs: seq<Connection>)
    requires Sane(s)
    ensures OwnKeysLive(s) ==> OwnKeysLive(OnPartReset(s, a, cs))
    ensures KeysLive(s) ==> KeysLive(OnPartReset(s, a, cs))
  {
    forall k: nat ensures LiveOrSame(s, OnPartReset(s, a, cs), k) {
      PartResetSame(s, a, cs, k);
    }
    PartResetSame(s, a, cs, 0);
    LiveOrSameKeeps(s, OnPartReset(s, a, cs));
  }

  lemma StepKeepsOwnKeysLive(s: N2, e: N2Event)
    requires Sane(s) && OwnKeysLive(s) && (Handled(s, e) ==> FromLive(s, e))
    ensures OwnKeysLive(N2Step(s, e))
  {
    if !Handled(s, e) {
      UnhandledStays(s, e);
    } else if e.Lifecycle? {
      LifecycleKeepsOwnKeysLive(s, e.l);
    } else if e.PartReset? {
      PartResetKeeps(s, e.a, e.connections);
    } else {
      UeStepKeeps(s, e);
    }
  }

  // ---------------------------------------------------------------- the slices a UE gets

  lemma StepKeepsSecure(s: N2, e: N2Event)
    requires Sane(s) && Secure(s.core) && Coherent(s.core) && Meets(s, e)
    ensures Secure(N2Step(s, e).core) && Coherent(N2Step(s, e).core)
  {
    if !Handled(s, e) {
      UnhandledStays(s, e);
    } else {
      CoreOfStep(s, e);
      if CoreEventsOf(e) != [] {
        assert Harmless(s.core, CoreEventsOf(e)[0]);
        StepSecureIff(s.core, CoreEventsOf(e)[0]);
        StepCoherent(s.core, CoreEventsOf(e)[0]);
      }
    }
  }

  lemma {:induction false} OrderlyBefore(cfg: seq<PlmnItem>, es: seq<N2Event>, n: nat)
    requires n <= |es| && Orderly(cfg, es)
    ensures var s := Before(Start(cfg), es, n); OwnKeysLive(s) && Secure(s.core) && Coherent(s.core)
  {
    if n == 0 {
      BeforeAll(Start(cfg), es);
      InitIsSecure(cfg);
    } else {
      OrderlyBefore(cfg, es, n - 1);
      BeforeNext(Start(cfg), es, n - 1);
      assert Meets(Before(Start(cfg), es, n - 1), es[n - 1]);
      OrderlyNext(Before(Start(cfg), es, n - 1), es[n - 1]);
    }
  }

  lemma OrderlyNext(s: N2, e: N2Event)
    requires Sane(s) && OwnKeysLive(s) && Secure(s.core) && Coherent(s.core) && Meets(s, e)
    ensures OwnKeysLive(N2Step(s, e)) && Secure(N2Step(s, e).core) && Coherent(N2Step(s, e).core)
  {
    StepKeepsOwnKeysLive(s, e);
    StepKeepsSecure(s, e);
  }

  /** get_common_NSSAI: empty where the UE or its gNB is not found. */
  function CommonNssaiOf(s: N2, ran: nat): seq<NasSlice>
    requires Sane(s)
  {
    if ran !in s.t.byRan || s.t.contexts[s.t.byRan[ran]].assoc !in s.core.assocs then []
    else CommonNssai(s.core.assocs[s.t.contexts[s.t.byRan[ran]].assoc].taList)
  }

  /** A slice of the UE's gNB, offered and configured for one of its PLMNs and TAs. */
  ghost predicate ServedNow(s: N2, ran: nat, x: NasSlice)
    requires Sane(s)
  {
    && ran in s.t.byRan && s.t.contexts[s.t.byRan[ran]].assoc in s.core.assocs
    && NasServed(s.core.plmnList, s.core.assocs[s.t.contexts[s.t.byRan[ran]].assoc].taList, x)
    && NasConfigured(s.core.plmnList, x)
  }

  /** In every orderly run, handovers included: what get_common_NSSAI yields through a UE's own RAN id, or through any
      RAN key that leads to a UE of a live gNB, is configured at that moment for a PLMN and TA of that gNB. */
  lemma CommonNssaiStaysConfigured(cfg: seq<PlmnItem>, es: seq<N2Event>, ran: nat)
    requires Orderly(cfg, es)
    requires OwnKey(N2Run(Start(cfg), es), ran) || KeyLive(N2Run(Start(cfg), es), ran)
    ensures var now := N2Run(Start(cfg), es);
            forall x :: x in CommonNssaiOf(now, ran) ==> ServedNow(now, ran, x)
  {
    var now := N2Run(Start(cfg), es);
    OrderlyBefore(cfg, es, |es|);
    BeforeAll(Start(cfg), es);
    if ran in now.t.byRan {
      assert KeyLive(now, ran);
      CommonNssaiServed(now.core.plmnList, now.core.assocs[now.t.contexts[now.t.byRan[ran]].assoc].taList);
    }
  }

  // ---------------------------------------------------------------- disciplined runs are orderly

  lemma {:induction false} CoreEventsPrefix(es: seq<N2Event>, n: nat)
    requires n <= |es|
    ensures CoreEvents(es[..n]) <= CoreEvents(es)
  {
    if n == |es| {
      assert es[..n] == es;
    } else {
      var init := es[..|es| - 1];
      CoreEventsPrefix(init, n);
      assert init[..n] == es[..n];
    }
  }

  lemma CoreEventInRun(es: seq<N2Event>, n: nat)
    requires n < |es| && CoreEventsOf(es[n]) != []
    ensures var m := |CoreEvents(es[..n])|;
            && m < |CoreEvents(es)| && CoreEvents(es)[..m] == CoreEvents(es[..n])
            && CoreEvents(es)[m] == CoreEventsOf(es[n])[0]
  {
    CoreEventsPrefix(es, n);
    CoreEventsPrefix(es, n + 1);
    assert es[..n + 1][..n] == es[..n] && es[..n + 1][n] == es[n];
  }

  lemma DisciplinedCoreEvent(cfg: seq<PlmnItem>, es: seq<N2Event>, n: nat)
    requires DisciplinedRun(Init(cfg), CoreEvents(es)) && Unraced(Init(cfg), CoreEvents(es))
    requires n < |es| && CoreEventsOf(es[n]) != []
    ensures Harmless(GnbLifecycle.Run(Init(cfg), CoreEvents(es[..n])), CoreEventsOf(es[n])[0])
  {
    CoreEventInRun(es, n);
    DisciplinedRunIsHarmless(cfg, CoreEvents(es), |CoreEvents(es[..n])|);
  }

  lemma MeetsBy(s: N2, e: N2Event, core: Core)
    requires FromLive(s, e) && s.core == core && (CoreEventsOf(e) != [] ==> Harmless(core, CoreEventsOf(e)[0]))
    ensures Meets(s, e)
  {
  }

  lemma DisciplinedMeets(cfg: seq<PlmnItem>, es: seq<N2Event>, n: nat)
    requires DisciplinedRun(Init(cfg), CoreEvents(es)) && Unraced(Init(cfg), CoreEvents(es))
    requires n < |es| && FromLive(N2Run(Start(cfg), es[..n]), es[n])
    ensures Meets(N2Run(Start(cfg), es[..n]), es[n])
  {
    if Handled(N2Run(Start(cfg), es[..n]), es[n]) {
      CoreOfRun(cfg, es[..n]);
      if CoreEventsOf(es[n]) != [] {
        DisciplinedCoreEvent(cfg, es, n);
      }
      MeetsBy(N2Run(Start(cfg), es[..n]), es[n], GnbLifecycle.Run(Init(cfg), CoreEvents(es[..n])));
    }
  }

  /** A run whose gNB part is disciplined and without a race, and in which no UE message comes from a dead association,
      is orderly. */
  lemma DisciplinedIsOrderly(cfg: seq<PlmnItem>, es: seq<N2Event>)
    requires DisciplinedRun(Init(cfg), CoreEvents(es)) && Unraced(Init(cfg), CoreEvents(es))
    requires forall n :: 0 <= n < |es| && Handled(Before(Start(cfg), es, n), es[n]) ==>
               FromLive(Before(Start(cfg), es, n), es[n])
    ensures Orderly(cfg, es)
  {
    forall n | 0 <= n < |es| ensures Meets(Before(Start(cfg), es, n), es[n]) {
      if Handled(Before(Start(cfg), es, n), es[n]) {
        assert FromLive(Before(Start(cfg), es, n), es[n]);
        DisciplinedMeets(cfg, es, n);
      }
    }
  }

  // ---------------------------------------------------------------- runs without Handover Notify

  lemma PartResetOwn(s: N2, a: int, cs: seq<Connection>)
    requires Sane(s) && KeysAreOwn(s.t)
    ensures KeysAreOwn(OnPartReset(s, a, cs).t)
  {
    forall k | k in ReleaseConnections(s.t, cs).byRan
      ensures k in s.t.byRan && ReleaseConnections(s.t, cs).byRan[k] == s.t.byRan[k]
    {
      ReleaseConnectionsOnlyRemoves(s.t, cs, k);
    }
  }

  lemma LifecycleOwn(s: N2, l: GnbLifecycle.Event)
    requires Sane(s) && KeysAreOwn(s.t)
    ensures KeysAreOwn(OnLifecycle(s, l).t)
  {
    LifecycleShrinks(s, l);
  }

  lemma StepKeepsKeysOwn(s: N2, e: N2Event)
    requires Sane(s) && KeysAreOwn(s.t) && !e.Notify?
    ensures KeysAreOwn(N2Step(s, e).t)
  {
    if Handled(s, e) {
      match e
      case Lifecycle(l) => LifecycleOwn(s, l);
      case PartReset(a, cs) => PartResetOwn(s, a, cs);
      case InitialUe(a, ran) => InitialUeOwn(s, a, ran);
      case AssignAmfId(ran, amf) => AssignSame(s, ran, amf, 0);
      case DlNas(ran, amf) => DlNasSame(s, ran, amf, 0);
      case ContextSetup(ran) => ContextSetupSame(s, ran, 0);
      case Required(_, _, _, _, _, _, _) => RequiredOwn(s, e);
      case Ack(_, _, _, _, _) => AckSame(s, e, 0);
      case _ =>
    }
  }

  /** Handover Notify leaves a stale key iff it gives a reachable context a new RAN id. */
  lemma NotifyKeepsKeysOwnIff(s: N2, a: int, amf: nat, ran: nat, located: bool)
    requires Sane(s) && KeysAreOwn(s.t)
    ensures KeysAreOwn(OnNotify(s, a, amf, ran, located).0.t)
       <==> (NotifyHandled(s, a, amf, located) && Reachable(s.t, s.t.byAmf[amf])
             ==> s.t.contexts[s.t.byAmf[amf]].ranId == ran)
  {
    if NotifyHandled(s, a, amf, located) {
      var u := s.t.byAmf[amf];
      var t' := OnNotify(s, a, amf, ran, located).0.t;
      if s.t.contexts[u].ranId != ran && Reachable(s.t, u) {
        var k :| k in s.t.byRan && s.t.byRan[k] == u;
        assert k in t'.byRan && t'.byRan[k] == u;
      }
    }
  }

  lemma {:induction false} KeysOwnBefore(cfg: seq<PlmnItem>, es: seq<N2Event>, n: nat)
    requires n <= |es| && forall m :: 0 <= m < |es| ==> !es[m].Notify?
    ensures KeysAreOwn(Before(Start(cfg), es, n).t)
  {
    if n == 0 {
      BeforeAll(Start(cfg), es);
    } else {
      KeysOwnBefore(cfg, es, n - 1);
      BeforeNext(Start(cfg), es, n - 1);
      StepKeepsKeysOwn(Before(Start(cfg), es, n - 1), es[n - 1]);
    }
  }

  /** What NG Reset of the interface or Shutdown leaves in any state: RAN keys left for the gNB are stale, and no
      AMF-id, NAS or IMSI entry of a collected UE is left. */
  lemma ReleaseLeavesOnlyStaleKeys(s: N2, l: GnbLifecycle.Event)
    requires Sane(s) && Releases(s, l)
    ensures var t' := OnLifecycle(s, l).t;
            && (forall k :: k in t'.byRan && s.t.contexts[t'.byRan[k]].assoc == l.a
                            ==> s.t.contexts[t'.byRan[k]].ranId != k)
            && (forall u: nat :: Reachable(s.t, u) && s.t.contexts[u].assoc == l.a ==>
                  && Gone(t', u)
                  && (s.t.contexts[u].amfId in s.t.nasByAmf ==>
                        ImsiKey(s.t.nasByAmf[s.t.contexts[u].amfId]) !in t'.nasByImsi))
  {
    ReleaseAllRemoves(s.t, l.a);
  }

  /** In a run without Handover Notify no RAN key of the gNB is left after NG Reset of the interface or Shutdown. */
  lemma ReleaseLeavesNothing(cfg: seq<PlmnItem>, es: seq<N2Event>, l: GnbLifecycle.Event)
    requires Releases(N2Run(Start(cfg), es), l) && forall m :: 0 <= m < |es| ==> !es[m].Notify?
    ensures var s := N2Run(Start(cfg), es);
            forall k :: k in OnLifecycle(s, l).t.byRan ==> s.t.contexts[OnLifecycle(s, l).t.byRan[k]].assoc != l.a
  {
    KeysOwnBefore(cfg, es, |es|);
    BeforeAll(Start(cfg), es);
    ReleaseAllLeavesNoKey(N2Run(Start(cfg), es).t, l.a);
  }

  /** Without Handover Notify every UE that can be found is served by a gNB that is not shut down, and gets
      only configured slices. */
  lemma EveryUeGetsConfiguredSlices(cfg: seq<PlmnItem>, es: seq<N2Event>, ran: nat)
    requires Orderly(cfg, es) && forall m :: 0 <= m < |es| ==> !es[m].Notify?
    ensures var now := N2Run(Start(cfg), es);
            KeyLive(now, ran) && (forall x :: x in CommonNssaiOf(now, ran) ==> ServedNow(now, ran, x))
  {
    KeysOwnBefore(cfg, es, |es|);
    OrderlyBefore(cfg, es, |es|);
    BeforeAll(Start(cfg), es);
    var now := N2Run(Start(cfg), es);
    assert ran in now.t.byRan ==> OwnKey(now, ran);
    CommonNssaiStaysConfigured(cfg, es, ran);
  }

  // ---------------------------------------------------------------- exactly when every RAN key is live

  /** Every RAN key of a UE of the association is asked for when it shuts down. */
  ghost predicate AllKeysAsked(s: N2, a: int)
    requires Sane(s)
  {
    forall k :: k in s.t.byRan && s.t.contexts[s.t.byRan[k]].assoc == a ==> AskedInTurn(s.t, Collect(s.t, a), k)
  }

  /** A Shutdown leaves every RAN key leading to a UE of a live gNB iff each key of its own UEs is asked for. */
  lemma ShutdownKeepsKeysLiveIff(s: N2, a: int)
    requires Sane(s) && KeysLive(s) && a in s.core.assocs && !Busy(s.core)
    ensures KeysLive(OnLifecycle(s, Shutdown(a))) <==> AllKeysAsked(s, a)
  {
    var s' := OnLifecycle(s, Shutdown(a));
    LifecycleShrinks(s, Shutdown(a));
    forall k: nat ensures k in s'.t.byRan <==> k in s.t.byRan && !AskedInTurn(s.t, Collect(s.t, a), k) {
      KeySurvivesLoopIff(s.t, a, k);
    }
    forall k: nat | k in s'.t.byRan ensures KeyLive(s', k) <==> s.t.contexts[s.t.byRan[k]].assoc != a {
      assert KeyLive(s, k);
    }
  }

  /** The condition an event has to meet for every RAN key to stay live. */
  ghost predicate KeepsKeysLive(s: N2, e: N2Event)
    requires Sane(s)
  {
    Handled(s, e) && e.Lifecycle? && e.l.Shutdown? && Releases(s, e.l) ==> AllKeysAsked(s, e.l.a)
  }

  lemma OtherLifecycleKeeps(s: N2, l: GnbLifecycle.Event)
    requires Sane(s) && KeysLive(s) && !(l.Shutdown? && Releases(s, l))
    ensures KeysLive(OnLifecycle(s, l))
  {
    var s' := OnLifecycle(s, l);
    LifecycleShrinks(s, l);
    forall k: nat | k in s'.t.byRan ensures KeyLive(s', k) {
      assert KeyLive(s, k);
      LiveUnlessShut(s, l, s.t.contexts[s.t.byRan[k]].assoc);
    }
  }

  lemma StepKeepsKeysLiveIff(s: N2, e: N2Event)
    requires Sane(s) && KeysLive(s) && (Handled(s, e) ==> FromLive(s, e))
    ensures KeysLive(N2Step(s, e)) <==> KeepsKeysLive(s, e)
  {
    if !Handled(s, e) {
      UnhandledStays(s, e);
    } else if e.Lifecycle? {
      if e.l.Shutdown? && Releases(s, e.l) {
        ShutdownKeepsKeysLiveIff(s, e.l.a);
      } else {
        OtherLifecycleKeeps(s, e.l);
      }
    } else if e.PartReset? {
      PartResetKeeps(s, e.a, e.connections);
    } else {
      UeStepKeeps(s, e);
    }
  }

  ghost function KeysLiveBefore(cfg: seq<PlmnItem>, es: seq<N2Event>): (r: seq<bool>)
    ensures |r| == |es| + 1 && forall n :: 0 <= n <= |es| ==> r[n] == KeysLive(Before(Start(cfg), es, n))
  {
    seq(|es| + 1, n requires 0 <= n <= |es| => KeysLive(Before(Start(cfg), es, n)))
  }

  ghost function KeepingAt(cfg: seq<PlmnItem>, es: seq<N2Event>): (r: seq<bool>)
    ensures |r| == |es| && forall n :: 0 <= n < |es| ==> r[n] == KeepsKeysLive(Before(Start(cfg), es, n), es[n])
  {
    seq(|es|, n requires 0 <= n < |es| => KeepsKeysLive(Before(Start(cfg), es, n), es[n]))
  }

  lemma KeysLiveTied(cfg: seq<PlmnItem>, es: seq<N2Event>, n: nat)
    requires Orderly(cfg, es) && n < |es|
    ensures Tied(KeysLiveBefore(cfg, es), KeepingAt(cfg, es), n)
  {
    if KeysLiveBefore(cfg, es)[n] {
      KeysLiveNext(cfg, es, n);
    }
  }

  lemma KeysLiveAtStart(cfg: seq<PlmnItem>, es: seq<N2Event>)
    ensures KeysLiveBefore(cfg, es)[0]
  {
    BeforeAll(Start(cfg), es);
  }

  lemma FlagsKeysLiveIff(cfg: seq<PlmnItem>, es: seq<N2Event>)
    requires Orderly(cfg, es)
    ensures (forall n :: 0 <= n < |KeysLiveBefore(cfg, es)| ==> KeysLiveBefore(cfg, es)[n])
       <==> (forall n :: 0 <= n < |KeepingAt(cfg, es)| ==> KeepingAt(cfg, es)[n])
  {
    forall n | 0 <= n < |es| ensures Tied(KeysLiveBefore(cfg, es), KeepingAt(cfg, es), n) {
      KeysLiveTied(cfg, es, n);
    }
    KeysLiveAtStart(cfg, es);
    AllIff(KeysLiveBefore(cfg, es), KeepingAt(cfg, es));
  }

  /** All along an orderly run every RAN key leads to a UE of a live gNB iff each Shutdown asks for every key of its
      own UEs. */
  lemma RunKeysLiveIff(cfg: seq<PlmnItem>, es: seq<N2Event>)
    requires Orderly(cfg, es)
    ensures (forall n :: 0 <= n <= |es| ==> KeysLive(Before(Start(cfg), es, n)))
       <==> (forall n :: 0 <= n < |es| ==> KeepsKeysLive(Before(Start(cfg), es, n), es[n]))
  {
    FlagsKeysLiveIff(cfg, es);
    var live, keeping := KeysLiveBefore(cfg, es), KeepingAt(cfg, es);
    assert forall n :: 0 <= n <= |es| ==> live[n] == KeysLive(Before(Start(cfg), es, n));
    assert forall n :: 0 <= n < |es| ==> keeping[n] == KeepsKeysLive(Before(Start(cfg), es, n), es[n]);
  }

  lemma KeysLiveNext(cfg: seq<PlmnItem>, es: seq<N2Event>, n: nat)
    requires Orderly(cfg, es) && n < |es| && KeysLive(Before(Start(cfg), es, n))
    ensures KeysLive(Before(Start(cfg), es, n + 1)) <==> KeepsKeysLive(Before(Start(cfg), es, n), es[n])
  {
    BeforeNext(Start(cfg), es, n);
    assert Meets(Before(Start(cfg), es, n), es[n]);
    StepKeepsKeysLiveIff(Before(Start(cfg), es, n), es[n]);
  }

  // ---------------------------------------------------------------- one RAN id, two gNBs

  /** RAN ids are unique only within a gNB, but the map is keyed by RAN id alone: an Initial UE Message changes the
      context of a UE of another association iff its RAN id leads to one. */
  lemma InitialUeTakesOverIff(s: N2, a: int, ran: nat)
    requires Sane(s) && a in s.core.assocs && !s.core.assocs[a].ngState.NgapInit?
    ensures (exists v: nat :: v < |s.t.contexts| && s.t.contexts[v].assoc != a
                              && OnInitialUe(s, a, ran).t.contexts[v] != s.t.contexts[v])
       <==> ran in s.t.byRan && s.t.contexts[s.t.byRan[ran]].assoc != a
  {
    var s' := OnInitialUe(s, a, ran);
    if ran in s.t.byRan {
      var u := s.t.byRan[ran];
      assert s'.t.contexts[u].assoc == a;
      assert forall v: nat :: v < |s.t.contexts| && v != u ==> s'.t.contexts[v] == s.t.contexts[v];
    }
  }
}
