/** A run in which a second handover reports sessions COMPLETED that only the first one admitted. */
module SecondHandover {
  import opened Numerals
  import opened Responses
  import opened Slices
  import opened GnbLifecycle
  import opened UeContexts
  import opened N2Handlers
  import opened N2Runs
  import opened Handover
  import opened StaleKeys

  const SUPI := ImsiKey(Nas(10)[5])

  /** The UE can be handed over from either gNB: its context is found under the RAN id, and it has one session. */
  ghost predicate HasSession(s: N2, ran: nat) {
    && Sane(s) && !s.halted && TwoAttached(s.core)
    && |s.t.contexts| == 1 && s.t.contexts[0].amfId == 5
    && ran in s.t.byRan && s.t.byRan[ran] == 0 && s.t.byAmf == map[5 := 0] && s.t.nasByAmf == Nas(10)
    && s.sessions == map[(SUPI, 7) := 0] && |s.accepted| == 1
  }

  function RequiredFrom(a: int, ran: nat, b: int): N2Event {
    Required(a, 5, ran, true, b, [], map[])
  }

  function AckFrom(b: int, ran: nat, admitted: seq<nat>): N2Event {
    Ack(b, 5, ran, Some(admitted), map[7 := Ready("reply")])
  }

  lemma RequiredStep(s: N2, a: int, ran: nat, b: int)
    requires HasSession(s, ran) && a in {1, 2} && b in {1, 2}
    ensures Meets(s, RequiredFrom(a, ran, b)) && HasSession(N2Step(s, RequiredFrom(a, ran, b)), ran)
    ensures N2Step(s, RequiredFrom(a, ran, b)).accepted == s.accepted && PreparedBy(s, RequiredFrom(a, ran, b)) == {}
  {
    assert Updates(5, ran, [], Preparing) == [];
  }

  lemma AckStep(s: N2, b: int, ran: nat, ran': nat, admitted: seq<nat>)
    requires HasSession(s, ran) && b in {1, 2}
    ensures Meets(s, AckFrom(b, ran', admitted)) && HasSession(N2Step(s, AckFrom(b, ran', admitted)), ran)
    ensures var k := AckFrom(b, ran', admitted); Raises(s.accepted, PreparedBy(s, k), N2Step(s, k).accepted)
  {
    StepRaises(s, AckFrom(b, ran', admitted));
  }

  lemma NotifyStep(s: N2, b: int, ran: nat, ran': nat)
    requires HasSession(s, ran) && b in {1, 2}
    ensures Meets(s, Notify(b, 5, ran', true)) && HasSession(N2Step(s, Notify(b, 5, ran', true)), ran')
    ensures N2Step(s, Notify(b, 5, ran', true)).accepted == s.accepted
  {
  }

  /** The Ack of the first handover admits the session, and it counts as accepted. */
  lemma FirstAckAccepts(s: N2, b: int, ran: nat, ran': nat)
    requires HasSession(s, ran) && b in {1, 2}
    ensures N2Step(s, AckFrom(b, ran', [7])).accepted == [true]
  {
    var k := AckFrom(b, ran', [7]);
    AckStep(s, b, ran, ran', [7]);
    assert Prepares(s, k, 0, 7);
    assert PreparesContext(s, k, 0);
    assert 0 in PreparedBy(s, k);
  }

  lemma FirstHandover(s: N2, ran: nat) returns (s': N2)
    requires HasSession(s, ran)
    ensures var r, k, f := RequiredFrom(1, ran, 2), AckFrom(2, 20, [7]), Notify(2, 5, 20, true);
            && Meets(s, r) && Meets(N2Step(s, r), k) && Meets(N2Step(N2Step(s, r), k), f)
            && s' == N2Step(N2Step(N2Step(s, r), k), f)
    ensures HasSession(s', 20) && s'.accepted == [true]
  {
    RequiredStep(s, 1, ran, 2);
    var s1 := N2Step(s, RequiredFrom(1, ran, 2));
    AckStep(s1, 2, ran, 20, [7]);
    FirstAckAccepts(s1, 2, ran, 20);
    var s2 := N2Step(s1, AckFrom(2, 20, [7]));
    NotifyStep(s2, 2, ran, 20);
    s' := N2Step(s2, Notify(2, 5, 20, true));
  }

  lemma SecondHandoverMeets(s: N2)
    requires HasSession(s, 20) && s.accepted == [true]
    ensures var r, k, f := RequiredFrom(2, 20, 1), AckFrom(1, 30, []), Notify(1, 5, 30, true);
            && Meets(s, r) && Meets(N2Step(s, r), k) && Meets(N2Step(N2Step(s, r), k), f)
            && PreparedBy(s, r) == {} && PreparedBy(N2Step(s, r), k) == {}
            && SmUpdate(5, 30, 7, Completed) in StepOut(N2Step(N2Step(s, r), k), f).1
  {
    var r, k, f := RequiredFrom(2, 20, 1), AckFrom(1, 30, []), Notify(1, 5, 30, true);
    RequiredStep(s, 2, 20, 1);
    AckStep(N2Step(s, r), 1, 20, 30, []);
    NotifyStep(N2Step(N2Step(s, r), k), 1, 20, 30);
    assert (ImsiKey(s.t.nasByAmf[5]), 7) in s.sessions;
    SecondHandoverReportsFirst(s, r, k, f, 7);
  }

  lemma SessionAdded(s: N2)
    requires Sane(s) && !s.halted && TwoAttached(s.core)
    requires s.t == UE_ATTACHED && s.sessions == map[] && s.accepted == []
    ensures Meets(s, AddSession(SUPI, 7)) && HasSession(N2Step(s, AddSession(SUPI, 7)), 10)
  {
  }

  lemma UeWithSession(cfg: seq<PlmnItem>, list: seq<TaItem>, y: SNssai) returns (es: seq<N2Event>, s: N2)
    requires Shared(cfg, list, y)
    ensures Orderly(cfg, es) && N2Run(Start(cfg), es) == s && HasSession(s, 10)
  {
    var es1, s1 := AttachTwo(cfg, list, y);
    var es2 := RegisterUe(cfg, es1, s1);
    SessionAdded(s1.(t := UE_ATTACHED));
    Extend(cfg, es2, AddSession(SUPI, 7));
    es := es2 + [AddSession(SUPI, 7)];
    s := N2Step(s1.(t := UE_ATTACHED), AddSession(SUPI, 7));
  }

  lemma AfterFirstHandover(cfg: seq<PlmnItem>, list: seq<TaItem>, y: SNssai) returns (es: seq<N2Event>, s: N2)
    requires Shared(cfg, list, y)
    ensures Orderly(cfg, es) && N2Run(Start(cfg), es) == s && HasSession(s, 20) && s.accepted == [true]
  {
    var es1, s1 := UeWithSession(cfg, list, y);
    s := FirstHandover(s1, 10);
    ExtendThree(cfg, es1, s1, RequiredFrom(1, 10, 2), AckFrom(2, 20, [7]), Notify(2, 5, 20, true));
    es := es1 + [RequiredFrom(1, 10, 2)] + [AckFrom(2, 20, [7])] + [Notify(2, 5, 20, true)];
  }

  /** From h on, a whole handover that prepares no session ends the run, and yet a session is reported COMPLETED. */
  ghost predicate CompletesUnprepared(cfg: seq<PlmnItem>, es: seq<N2Event>, h: nat) {
    && Orderly(cfg, es) && |es| == h + 3 && es[h].Required? && es[h + 1].Ack? && es[h + 2].Notify?
    && PreparedAt(cfg, es)[h] == {} && PreparedAt(cfg, es)[h + 1] == {}
    && exists o :: o in StepOut(Before(Start(cfg), es, h + 2), es[h + 2]).1 && o.SmUpdate? && o.ho == Completed
  }

  /** The states before the last three events of a run. */
  lemma LastThree(s0: N2, es: seq<N2Event>, s: N2, r: N2Event, k: N2Event, f: N2Event)
    requires Sane(s0) && N2Run(s0, es) == s
    ensures var all, h := es + [r] + [k] + [f], |es|;
            && |all| == h + 3 && all[h] == r && all[h + 1] == k && all[h + 2] == f
            && Before(s0, all, h) == s && Before(s0, all, h + 1) == N2Step(s, r)
            && Before(s0, all, h + 2) == N2Step(N2Step(s, r), k)
  {
    var all, h := es + [r] + [k] + [f], |es|;
    assert all[..h] == es && all[h] == r && all[h + 1] == k && all[h + 2] == f;
    BeforeNext(s0, all, h);
    BeforeNext(s0, all, h + 1);
  }

  lemma CompletesUnpreparedBy(cfg: seq<PlmnItem>, es: seq<N2Event>, h: nat, o: Output)
    requires Orderly(cfg, es) && |es| == h + 3 && es[h].Required? && es[h + 1].Ack? && es[h + 2].Notify?
    requires PreparedBy(Before(Start(cfg), es, h), es[h]) == {}
    requires PreparedBy(Before(Start(cfg), es, h + 1), es[h + 1]) == {}
    requires o in StepOut(Before(Start(cfg), es, h + 2), es[h + 2]).1 && o.SmUpdate? && o.ho == Completed
    ensures CompletesUnprepared(cfg, es, h)
  {
  }

  /** For every configuration and gNB that share a slice there is such a run. */
  lemma SecondHandoverCompletesUnprepared(cfg: seq<PlmnItem>, list: seq<TaItem>, y: SNssai)
    returns (es: seq<N2Event>, h: nat)
    requires Shared(cfg, list, y)
    ensures CompletesUnprepared(cfg, es, h)
  {
    var es1, s := AfterFirstHandover(cfg, list, y);
    SecondHandoverMeets(s);
    var r, k, f := RequiredFrom(2, 20, 1), AckFrom(1, 30, []), Notify(1, 5, 30, true);
    ExtendThree(cfg, es1, s, r, k, f);
    LastThree(Start(cfg), es1, s, r, k, f);
    es, h := es1 + [r] + [k] + [f], |es1|;
    CompletesUnpreparedBy(cfg, es, h, SmUpdate(5, 30, 7, Completed));
  }
}
