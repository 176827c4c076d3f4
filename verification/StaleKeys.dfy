/** What an old RAN key does after a handover: exactly when it outlives its UE's gNB, and a run in which it then yields
    slices that are not configured. */
module StaleKeys {
  import opened Numerals
  import opened Slices
  import opened GnbLifecycle
  import opened UeContexts
  import opened N2Handlers
  import opened N2Runs

  /** Through a RAN key the slices of a gNB that shuts down can still be read iff no release of its UEs asks for it. */
  lemma StaleKeyYieldsOldSlicesIff(s: N2, k: nat, a: int, x: NasSlice)
    requires Sane(s) && k in s.t.byRan && s.t.contexts[s.t.byRan[k]].assoc == a && x in CommonNssaiOf(s, k)
    requires !Busy(s.core)
    ensures x in CommonNssaiOf(OnLifecycle(s, Shutdown(a)), k) <==> !AskedInTurn(s.t, Collect(s.t, a), k)
  {
    KeySurvivesLoopIff(s.t, a, k);
    LifecycleShrinks(s, Shutdown(a));
  }

  /** An update to the list, with nothing in between. */
  function Updated(s: N2, list: seq<PlmnItem>): (s': N2)
    requires Sane(s)
    ensures Sane(s')
  {
    s.(core := UpdateConfig(s.core, ConfigJson(Some(list), true)))
  }

  /** Some update can make what is read through a RAN key unconfigured iff the gate is open, something is stored at the
      gNB of the key, and that gNB is shut down or inside its NG Setup. */
  lemma UpdateUnconfiguresIff(s: N2, k: nat)
    requires Sane(s) && Secure(s.core) && s.core.update.None?
    requires forall x :: x in CommonNssaiOf(s, k) ==> NasConfigured(s.core.plmnList, x)
    ensures (exists list: seq<PlmnItem>, x: NasSlice ::
               x in CommonNssaiOf(Updated(s, list), k) && !NasConfigured(Updated(s, list).core.plmnList, x))
       <==> && UpdateAllowed(s.core) && CommonNssaiOf(s, k) != []
            && (!KeyLive(s, k) || Opens(s.core, s.t.contexts[s.t.byRan[k]].assoc))
  {
    forall list: seq<PlmnItem> ensures CommonNssaiOf(Updated(s, list), k) == CommonNssaiOf(s, k) {
    }
    if UpdateAllowed(s.core) && CommonNssaiOf(s, k) != [] {
      var a, x := s.t.contexts[s.t.byRan[k]].assoc, CommonNssaiOf(s, k)[0];
      assert x in CommonNssaiOf(Updated(s, []), k) && !NasConfigured(Updated(s, []).core.plmnList, x);
      if Live(s.core, a) && !Opens(s.core, a) {
        NoneServed(s.core, a);
      }
    }
  }

  /** Where nothing is stored nothing is read. */
  lemma NoneServed(c: Core, a: int)
    requires a in c.assocs && Stored(c, a) == []
    ensures CommonNssai(c.assocs[a].taList) == []
  {
    NothingStoredIsBacked([], c.assocs[a].taList);
    CommonNssaiServed([], c.assocs[a].taList);
    FirstIsMember(CommonNssai(c.assocs[a].taList));
  }

  // ---------------------------------------------------------------- a run

  lemma Extend(cfg: seq<PlmnItem>, es: seq<N2Event>, e: N2Event)
    requires Orderly(cfg, es) && Meets(N2Run(Start(cfg), es), e)
    ensures Orderly(cfg, es + [e]) && N2Run(Start(cfg), es + [e]) == N2Step(N2Run(Start(cfg), es), e)
  {
    var all := es + [e];
    assert all[..|all| - 1] == es;
    forall n | 0 <= n < |all| ensures Meets(Before(Start(cfg), all, n), all[n]) {
      if n < |es| {
        assert all[..n] == es[..n] && Meets(Before(Start(cfg), es, n), es[n]);
      } else {
        assert all[..n] == es;
      }
    }
  }

  /** A gNB event that meets its condition extends the run by its step. */
  lemma ExtendCore(cfg: seq<PlmnItem>, es: seq<N2Event>, l: GnbLifecycle.Event)
    requires Orderly(cfg, es) && !N2Run(Start(cfg), es).halted && Harmless(N2Run(Start(cfg), es).core, l)
    ensures Orderly(cfg, es + [Lifecycle(l)])
    ensures N2Run(Start(cfg), es + [Lifecycle(l)]) == OnLifecycle(N2Run(Start(cfg), es), l)
  {
    Extend(cfg, es, Lifecycle(l));
  }

  /** Two gNBs with ids 1 and 2 are attached, no UE is there, and the second one's slices are not none. */
  ghost predicate TwoAttached(c: Core) {
    && c.assocs.Keys == {1, 2} && c.stats.Keys == {1, 2} && c.gnbIds == map[1 := 1, 2 := 2]
    && c.assocs[1].ngState == NgapReady && c.assocs[2].ngState == NgapReady
    && c.assocs[1].globalRanNodeId == 1 && c.assocs[2].globalRanNodeId == 2
    && CommonNssai(c.assocs[2].taList) != [] && c.open.None? && c.update.None?
  }

  function SetupOf(g: uint32, list: seq<TaItem>): SetupRequest {
    SetupRequest(Some(g), true, Some(list))
  }

  lemma EmptyIsBacked(cfg: seq<PlmnItem>)
    ensures Backed(cfg, []) && StoredSlices([]) == []
  {
    NothingStoredIsBacked(cfg, []);
  }

  /** A gNB that shares a slice leaves some slice behind that converts to NAS. */
  lemma SharedIsServed(cfg: seq<PlmnItem>, list: seq<TaItem>, x: SNssai)
    requires Shared(cfg, list, x)
    ensures StoredSlices(CommonItems(cfg, list)) != [] && Backed(cfg, CommonItems(cfg, list))
    ensures CommonNssai([] + CommonItems(cfg, list)) != []
  {
    var items := CommonItems(cfg, list);
    assert [] + items == items;
    StoredIffShared(cfg, list, x);
    CommonItemsAreBacked(cfg, list);
    BackedSlicesAreConfigured(cfg, items);
    CommonNssaiIsStored(cfg, items);
  }

  /** A new association and an NG Setup without interruption meet their conditions. */
  ghost predicate AttachHarmless(c: Core, a: int, g: uint32, list: seq<TaItem>) {
    var c1 := NewAssociation(c, a);
    && c.open.None?
    && Harmless(c, Associate(a)) && Harmless(c1, SetupBegin(a, SetupOf(g, list)))
    && Busy(BeginSetup(c1, a, SetupOf(g, list))) && Harmless(BeginSetup(c1, a, SetupOf(g, list)), SetupEnd)
  }

  lemma Attach(c: Core, a: int, g: uint32, list: seq<TaItem>, x: SNssai) returns (c': Core)
    requires Shared(c.plmnList, list, x) && a !in c.assocs && g !in c.stats && c.open.None? && c.update.None?
    ensures c' == NgSetup(NewAssociation(c, a), a, SetupOf(g, list))
    ensures AttachHarmless(c, a, g, list) && c'.open.None? && c'.update.None?
    ensures c'.plmnList == c.plmnList && c'.gnbIds == c.gnbIds[g := a]
    ensures c'.assocs.Keys == c.assocs.Keys + {a} && c'.stats.Keys == c.stats.Keys + {g}
    ensures c'.assocs[a].ngState == NgapReady && c'.assocs[a].globalRanNodeId == g
    ensures CommonNssai(c'.assocs[a].taList) != []
    ensures forall b :: b in c.assocs ==> c'.assocs[b] == c.assocs[b]
  {
    var req := SetupOf(g, list);
    var c0 := NewAssociation(c, a);
    EmptyIsBacked(c.plmnList);
    SharedIsServed(c.plmnList, list, x);
    assert SetupAccepted(c0, a, req);
    c' := NgSetup(c0, a, req);
    SetupWrites(c0, a, req);
    BeginAccepted(c0, a, req);
  }

  /** A gNB event that releases no UE changes the gNB part alone. */
  lemma CoreStep(s: N2, l: GnbLifecycle.Event)
    requires Sane(s) && !s.halted && !l.Reset? && !l.Shutdown?
    ensures N2Step(s, Lifecycle(l)) == s.(core := GnbLifecycle.Step(s.core, l))
    ensures Harmless(s.core, l) ==> Meets(s, Lifecycle(l))
  {
  }

  lemma AttachStates(s: N2, a: int, g: uint32, list: seq<TaItem>)
    requires Sane(s) && !s.halted && AttachHarmless(s.core, a, g, list)
    ensures var e1, e2, e3 := Lifecycle(Associate(a)), Lifecycle(SetupBegin(a, SetupOf(g, list))), Lifecycle(SetupEnd);
            && Meets(s, e1) && Meets(N2Step(s, e1), e2) && Meets(N2Step(N2Step(s, e1), e2), e3)
            && N2Step(N2Step(N2Step(s, e1), e2), e3)
               == s.(core := NgSetup(NewAssociation(s.core, a), a, SetupOf(g, list)))
  {
    var c1 := NewAssociation(s.core, a);
    var c2 := BeginSetup(c1, a, SetupOf(g, list));
    CoreStep(s, Associate(a));
    CoreStep(s.(core := c1), SetupBegin(a, SetupOf(g, list)));
    CoreStep(s.(core := c2), SetupEnd);
  }

  lemma ExtendAttach(cfg: seq<PlmnItem>, es: seq<N2Event>, s: N2, a: int, g: uint32, list: seq<TaItem>)
    returns (es': seq<N2Event>)
    requires Orderly(cfg, es) && N2Run(Start(cfg), es) == s && !s.halted
    requires AttachHarmless(s.core, a, g, list)
    ensures Orderly(cfg, es')
    ensures N2Run(Start(cfg), es') == s.(core := NgSetup(NewAssociation(s.core, a), a, SetupOf(g, list)))
  {
    var e1, e2, e3 := Lifecycle(Associate(a)), Lifecycle(SetupBegin(a, SetupOf(g, list))), Lifecycle(SetupEnd);
    AttachStates(s, a, g, list);
    ExtendThree(cfg, es, s, e1, e2, e3);
    es' := es + [e1] + [e2] + [e3];
  }

  lemma NoEvents(cfg: seq<PlmnItem>)
    ensures Orderly(cfg, []) && N2Run(Start(cfg), []) == Start(cfg)
  {
  }

  lemma AttachTwo(cfg: seq<PlmnItem>, list: seq<TaItem>, x: SNssai) returns (es: seq<N2Event>, s: N2)
    requires Shared(cfg, list, x)
    ensures Orderly(cfg, es) && N2Run(Start(cfg), es) == s
    ensures s == Start(cfg).(core := s.core) && TwoAttached(s.core)
  {
    var c1 := Attach(Init(cfg), 1, 1, list, x);
    var c2 := Attach(c1, 2, 2, list, x);
    NoEvents(cfg);
    es := ExtendAttach(cfg, [], Start(cfg), 1, 1, list);
    es := ExtendAttach(cfg, es, Start(cfg).(core := c1), 2, 2, list);
    s := Start(cfg).(core := c2);
  }

  function Nas(ran: nat): map<nat, NasContext> {
    map[5 := NasContext("001010000000001", ran, true)]
  }

  /** The UE with RAN id 10 and AMF id 5 at the first gNB. */
  const ATTACHED_UE := NEW_UE_CONTEXT.(ranId := 10, assoc := 1, amfId := 5)

  const UE_ATTACHED := Tables([ATTACHED_UE], map[10 := 0], map[5 := 0], Nas(10), map[])

  lemma ExtendThree(cfg: seq<PlmnItem>, es: seq<N2Event>, s: N2, e1: N2Event, e2: N2Event, e3: N2Event)
    requires Orderly(cfg, es) && N2Run(Start(cfg), es) == s
    requires Meets(s, e1) && Meets(N2Step(s, e1), e2) && Meets(N2Step(N2Step(s, e1), e2), e3)
    ensures Orderly(cfg, es + [e1] + [e2] + [e3])
    ensures N2Run(Start(cfg), es + [e1] + [e2] + [e3]) == N2Step(N2Step(N2Step(s, e1), e2), e3)
  {
    Extend(cfg, es, e1);
    Extend(cfg, es + [e1], e2);
    Extend(cfg, es + [e1] + [e2], e3);
  }

  lemma InitialUeStep(s: N2)
    requires Sane(s) && s.t == EMPTY_TABLES && TwoAttached(s.core)
    ensures OnInitialUe(s, 1, 10)
         == s.(t := EMPTY_TABLES.(contexts := [NEW_UE_CONTEXT.(ranId := 10, assoc := 1)], byRan := map[10 := 0]))
    ensures FromLive(s, InitialUe(1, 10))
  {
    assert [] + [NEW_UE_CONTEXT.(ranId := 10, assoc := 1)] == [NEW_UE_CONTEXT.(ranId := 10, assoc := 1)];
  }

  lemma AssignStep(s: N2)
    requires Sane(s)
    requires s.t == EMPTY_TABLES.(contexts := [NEW_UE_CONTEXT.(ranId := 10, assoc := 1)], byRan := map[10 := 0])
    ensures OnAssignAmfId(s, 10, 5) == s.(t := s.t.(contexts := [ATTACHED_UE], byAmf := map[5 := 0]))
  {
  }

  /** With the N2 task free an event is handled; one that is neither of the gNB lifecycle nor a message that records its
      association meets its condition. */
  lemma FreeMeets(s: N2, e: N2Event)
    requires Sane(s) && !s.halted && s.core.open.None? && CoreEventsOf(e) == [] && FromLive(s, e)
    ensures Handled(s, e) && Meets(s, e) && N2Step(s, e) == StepOut(s, e).0
  {
  }

  lemma RegisterStates(s: N2)
    requires Sane(s) && s.t == EMPTY_TABLES && !s.halted && TwoAttached(s.core)
    ensures var e1, e2, e3 := InitialUe(1, 10), AssignAmfId(10, 5), NasChange(Nas(10), map[]);
            && Meets(s, e1) && Meets(N2Step(s, e1), e2) && Meets(N2Step(N2Step(s, e1), e2), e3)
            && N2Step(N2Step(N2Step(s, e1), e2), e3) == s.(t := UE_ATTACHED)
  {
    InitialUeStep(s);
    FreeMeets(s, InitialUe(1, 10));
    var s1 := OnInitialUe(s, 1, 10);
    AssignStep(s1);
    FreeMeets(s1, AssignAmfId(10, 5));
    FreeMeets(OnAssignAmfId(s1, 10, 5), NasChange(Nas(10), map[]));
  }

  lemma RegisterUe(cfg: seq<PlmnItem>, es0: seq<N2Event>, s: N2) returns (es: seq<N2Event>)
    requires Orderly(cfg, es0) && N2Run(Start(cfg), es0) == s
    requires s.t == EMPTY_TABLES && !s.halted && TwoAttached(s.core)
    ensures Orderly(cfg, es) && N2Run(Start(cfg), es) == s.(t := UE_ATTACHED)
  {
    RegisterStates(s);
    ExtendThree(cfg, es0, s, InitialUe(1, 10), AssignAmfId(10, 5), NasChange(Nas(10), map[]));
    es := es0 + [InitialUe(1, 10)] + [AssignAmfId(10, 5)] + [NasChange(Nas(10), map[])];
  }

  /** The UE after Handover Notify from the second gNB, with RAN id 20. */
  const MOVED_UE := ATTACHED_UE.(ranId := 20, assoc := 2, state := UeConnected)

  const UE_MOVED := Tables([MOVED_UE], map[10 := 0, 20 := 0], map[5 := 0], Nas(20), map[])

  lemma HandOverStates(s: N2)
    requires Sane(s) && s.t == UE_ATTACHED && !s.halted && TwoAttached(s.core)
    ensures var e1, e2 := Notify(2, 5, 20, true), NasChange(Nas(20), map[]);
            && Meets(s, e1) && Meets(N2Step(s, e1), e2) && N2Step(N2Step(s, e1), e2) == s.(t := UE_MOVED)
  {
    NotifySwitches(s);
    FreeMeets(s, Notify(2, 5, 20, true));
    FreeMeets(OnNotify(s, 2, 5, 20, true).0, NasChange(Nas(20), map[]));
  }

  lemma NotifySwitches(s: N2)
    requires Sane(s) && s.t == UE_ATTACHED && TwoAttached(s.core)
    ensures OnNotify(s, 2, 5, 20, true).0
         == s.(t := Tables([MOVED_UE], map[10 := 0, 20 := 0], map[5 := 0], Nas(10), map[]))
    ensures FromLive(s, Notify(2, 5, 20, true))
  {
    assert Switched(s.t, 0, 2, 20).contexts == [MOVED_UE];
    assert Switched(s.t, 0, 2, 20).byRan == map[10 := 0, 20 := 0];
  }

  lemma HandOver(cfg: seq<PlmnItem>, es0: seq<N2Event>, s: N2) returns (es: seq<N2Event>)
    requires Orderly(cfg, es0) && N2Run(Start(cfg), es0) == s
    requires s.t == UE_ATTACHED && !s.halted && TwoAttached(s.core)
    ensures Orderly(cfg, es) && N2Run(Start(cfg), es) == s.(t := UE_MOVED)
  {
    HandOverStates(s);
    Extend(cfg, es0, Notify(2, 5, 20, true));
    Extend(cfg, es0 + [Notify(2, 5, 20, true)], NasChange(Nas(20), map[]));
    es := es0 + [Notify(2, 5, 20, true)] + [NasChange(Nas(20), map[])];
  }

  lemma FirstIsMember<T>(s: seq<T>)
    ensures |s| > 0 ==> s[0] in s
  {
  }

  lemma NothingToRelease(t: Tables, a: int)
    requires Valid(t) && forall u: nat :: u < |t.contexts| ==> t.contexts[u].assoc != a
    ensures ReleaseAll(t, a) == t
  {
    forall u: nat ensures u !in Collect(t, a) {
      CollectExact(t, a, u);
    }
    FirstIsMember(Collect(t, a));
  }

  /** The old key is not asked for by the release of the moved UE. */
  lemma OldKeyUnasked(t: Tables)
    requires t == UE_MOVED
    ensures Valid(t) && OwnKeysLead(t, Collect(t, 2)) && Unasked(t, Collect(t, 2), 10)
    ensures ReleaseAll(t, 1) == t
  {
    NothingToRelease(t, 1);
    forall i | 0 <= i < |Collect(t, 2)| ensures Collect(t, 2)[i] == 0 {
    }
  }

  lemma ShutdownsAreHarmless(c: Core)
    requires TwoAttached(c)
    ensures Harmless(c, Shutdown(1)) && Harmless(NgShutdown(c, 1), Shutdown(2))
    ensures UpdateAllowed(NgShutdown(NgShutdown(c, 1), 2))
  {
    assert 2 in c.stats.Keys - {c.assocs[1].globalRanNodeId};
    var c1 := NgShutdown(c, 1);
    assert forall b :: b != 2 ==> !Live(c1, b);
    assert NgShutdown(c1, 2).stats.Keys == {1, 2} - {1} - {2};
  }

  lemma UpdateKeepsSlices(s: N2, k: nat, x: NasSlice)
    requires Sane(s) && UpdateAllowed(s.core) && s.core.update.None? && x in CommonNssaiOf(s, k)
    ensures var s' := OnLifecycle(OnLifecycle(s, UpdateCheck(EMPTY_CONFIG)), UpdateWrite);
            x in CommonNssaiOf(s', k) && s'.core.plmnList == [] && !NasConfigured(s'.core.plmnList, x)
  {
    var s' := OnLifecycle(OnLifecycle(s, UpdateCheck(EMPTY_CONFIG)), UpdateWrite);
    assert s'.t == s.t && s'.core.assocs == s.core.assocs;
  }

  /** The Shutdown of the first gNB leaves the moved UE and the second gNB as they are. */
  lemma FirstShutDown(s: N2) returns (s1: N2, x: NasSlice)
    requires Sane(s) && TwoAttached(s.core) && s.t == UE_MOVED
    ensures s1 == OnLifecycle(s, Shutdown(1)) && s1.t == UE_MOVED && s1.core == NgShutdown(s.core, 1)
    ensures Sane(s1) && x in CommonNssaiOf(s1, 10)
  {
    OldKeyUnasked(s.t);
    s1 := OnLifecycle(s, Shutdown(1));
    x := CommonNssai(s.core.assocs[2].taList)[0];
    assert s1.core.assocs[2] == s.core.assocs[2];
  }

  /** After both Shutdowns and an empty configuration. */
  lemma ShutDownBoth(s: N2) returns (x: NasSlice)
    requires Sane(s) && TwoAttached(s.core) && s.t == UE_MOVED
    ensures var s2 := OnLifecycle(OnLifecycle(s, Shutdown(1)), Shutdown(2));
            var s3 := OnLifecycle(OnLifecycle(s2, UpdateCheck(EMPTY_CONFIG)), UpdateWrite);
            x in CommonNssaiOf(s3, 10) && s3.core.plmnList == [] && !NasConfigured(s3.core.plmnList, x)
  {
    OldKeyUnasked(s.t);
    ShutdownsAreHarmless(s.core);
    var s1: N2;
    s1, x := FirstShutDown(s);
    KeySurvivesReleaseIff(s1.t, 2, 10);
    KeySurvivesLoopIff(s1.t, 2, 10);
    StaleKeyYieldsOldSlicesIff(s1, 10, 2, x);
    UpdateKeepsSlices(OnLifecycle(s1, Shutdown(2)), 10, x);
  }

  /** For every configuration and gNB that share a slice there is an orderly run after which a RAN key yields a slice
      that is not configured: two gNBs attach, a UE registers at the first, is handed over to the second, its NAS
      context takes the new RAN id, both gNBs shut down, and the configuration is emptied. */
  lemma HandoverThenShutdownsYieldOldSlices(cfg: seq<PlmnItem>, list: seq<TaItem>, y: SNssai)
    returns (es: seq<N2Event>, x: NasSlice)
    requires Shared(cfg, list, y)
    ensures Orderly(cfg, es)
    ensures var now := N2Run(Start(cfg), es);
            x in CommonNssaiOf(now, 10) && now.core.plmnList == [] && !NasConfigured(now.core.plmnList, x)
  {
    var es1, s1 := AttachTwo(cfg, list, y);
    var es2 := RegisterUe(cfg, es1, s1);
    var es3 := HandOver(cfg, es2, s1.(t := UE_ATTACHED));
    var s := s1.(t := UE_MOVED);
    ShutdownsAreHarmless(s.core);
    x := ShutDownBoth(s);
    ExtendCore(cfg, es3, Shutdown(1));
    var es4 := es3 + [Lifecycle(Shutdown(1))];
    ExtendCore(cfg, es4, Shutdown(2));
    var es5 := es4 + [Lifecycle(Shutdown(2))];
    ExtendCore(cfg, es5, UpdateCheck(EMPTY_CONFIG));
    var es6 := es5 + [Lifecycle(UpdateCheck(EMPTY_CONFIG))];
    ExtendCore(cfg, es6, UpdateWrite);
    es := es6 + [Lifecycle(UpdateWrite)];
  }
}
