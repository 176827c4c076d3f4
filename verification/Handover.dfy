/** The handover protocol over whole runs: which sessions are reported completed, where commands go, and the next
    hop chaining counter. */
module Handover {
  import opened Numerals
  import opened Responses
  import opened Slices
  import opened UeContexts
  import opened N2Handlers

  // ---------------------------------------------------------------- accepted sessions

  /** The event is a Handover Request Ack that reports session context `p` PREPARED, under id `id`, and gets a
      non-empty reply for it. */
  ghost predicate Prepares(s: N2, e: N2Event, p: nat, id: nat)
    requires Sane(s)
  {
    && Handled(s, e) && e.Ack? && AckHandled(s, e.a, e.amf, e.admitted)
    && id in e.admitted.value && Answered(e.replies, id)
    && (ImsiKey(s.t.nasByAmf[e.amf]), id) in s.sessions && s.sessions[(ImsiKey(s.t.nasByAmf[e.amf]), id)] == p
  }

  lemma {:induction false} AnsweredOfExact(ids: seq<nat>, replies: map<nat, Reply>, id: nat)
    ensures id in AnsweredOf(ids, replies) <==> id in ids && Answered(replies, id)
  {
    if ids != [] {
      AnsweredOfExact(ids[..|ids| - 1], replies, id);
      assert ids == ids[..|ids| - 1] + [ids[|ids| - 1]];
    }
  }

  lemma WaitedExact(ids: seq<nat>, id: nat)
    ensures id in Waited(ids) <==> id in ids
  {
    SortedKeysAreSorted(IdSet(ids));
  }

  lemma {:induction false} MarkAcceptedExact(accepted: seq<bool>, sessions: map<(string, nat), nat>, supi: string,
                                             ids: seq<nat>, p: nat)
    requires forall k :: k in sessions ==> sessions[k] < |accepted|
    requires p < |accepted|
    ensures MarkAccepted(accepted, sessions, supi, ids)[p]
       <==> (accepted[p] || exists id: nat :: id in ids && (supi, id) in sessions && sessions[(supi, id)] == p)
  {
    if ids != [] {
      var n := |ids| - 1;
      MarkAcceptedExact(accepted, sessions, supi, ids[..n], p);
      assert ids == ids[..n] + [ids[n]];
    }
  }

  lemma {:induction false} UpdatesExact(amf: nat, ran: nat, ids: seq<nat>, ho: HoState, o: Output)
    ensures o in Updates(amf, ran, ids, ho) <==> exists id: nat :: id in ids && o == SmUpdate(amf, ran, id, ho)
  {
    if ids != [] {
      var n := |ids| - 1;
      UpdatesExact(amf, ran, ids[..n], ho, o);
      assert ids == ids[..n] + [ids[n]];
    }
  }

  ghost predicate PreparesContext(s: N2, e: N2Event, p: nat)
    requires Sane(s)
  {
    exists id: nat :: Prepares(s, e, p, id)
  }

  /** The session contexts that an event prepares. */
  ghost function PreparedBy(s: N2, e: N2Event): set<nat>
    requires Sane(s)
  {
    set p | 0 <= p < |s.accepted| && PreparesContext(s, e, p)
  }

  /** Flags are never withdrawn; those in `hit` are set; new ones are down. */
  ghost predicate Raises(before: seq<bool>, hit: set<nat>, after: seq<bool>) {
    && |before| <= |after|
    && (forall p :: p in hit ==> p < |before|)
    && (forall p :: 0 <= p < |after| ==> (after[p] <==> (p < |before| && before[p]) || p in hit))
  }

  lemma AckRaises(s: N2, e: N2Event)
    requires Sane(s) && e.Ack? && Handled(s, e)
    ensures Raises(s.accepted, PreparedBy(s, e), N2Step(s, e).accepted)
  {
    if AckHandled(s, e.a, e.amf, e.admitted) {
      var supi := ImsiKey(s.t.nasByAmf[e.amf]);
      var ids := AnsweredOf(Waited(e.admitted.value), e.replies);
      forall id: nat ensures id in ids <==> id in e.admitted.value && Answered(e.replies, id) {
        AnsweredOfExact(Waited(e.admitted.value), e.replies, id);
        WaitedExact(e.admitted.value, id);
      }
      forall p | 0 <= p < |s.accepted|
        ensures N2Step(s, e).accepted[p] <==> s.accepted[p] || p in PreparedBy(s, e)
      {
        MarkAcceptedExact(s.accepted, s.sessions, supi, ids, p);
        if id: nat :| id in ids && (supi, id) in s.sessions && s.sessions[(supi, id)] == p {
          assert Prepares(s, e, p, id);
        }
      }
    }
  }

  lemma StepRaises(s: N2, e: N2Event)
    requires Sane(s)
    ensures Raises(s.accepted, PreparedBy(s, e), N2Step(s, e).accepted)
  {
    if e.Ack? && Handled(s, e) {
      AckRaises(s, e);
    } else {
      assert PreparedBy(s, e) == {};
    }
  }

  lemma {:induction false} RaisedSinceStart(flags: seq<seq<bool>>, hits: seq<set<nat>>, n: nat, p: nat)
    requires |flags| == |hits| + 1 && flags[0] == []
    requires forall m :: 0 <= m < |hits| ==> Raises(flags[m], hits[m], flags[m + 1])
    requires n < |flags| && p < |flags[n]|
    ensures flags[n][p] <==> exists j :: 0 <= j < n && p in hits[j]
  {
    if n > 0 {
      assert Raises(flags[n - 1], hits[n - 1], flags[n]);
      if p < |flags[n - 1]| {
        RaisedSinceStart(flags, hits, n - 1, p);
      } else {
        forall j | 0 <= j < n ensures p !in hits[j] {
          FlagsGrow(flags, hits, j, n - 1);
          assert Raises(flags[j], hits[j], flags[j + 1]);
        }
      }
    }
  }

  lemma {:induction false} FlagsGrow(flags: seq<seq<bool>>, hits: seq<set<nat>>, j: nat, n: nat)
    requires |flags| == |hits| + 1 && j <= n < |flags|
    requires forall m :: 0 <= m < |hits| ==> Raises(flags[m], hits[m], flags[m + 1])
    ensures |flags[j]| <= |flags[n]|
  {
    if j < n {
      FlagsGrow(flags, hits, j, n - 1);
      assert Raises(flags[n - 1], hits[n - 1], flags[n]);
    }
  }

  ghost function FlagsBefore(cfg: seq<PlmnItem>, es: seq<N2Event>): (r: seq<seq<bool>>)
    ensures |r| == |es| + 1 && forall n :: 0 <= n <= |es| ==> r[n] == Before(Start(cfg), es, n).accepted
  {
    seq(|es| + 1, n requires 0 <= n <= |es| => Before(Start(cfg), es, n).accepted)
  }

  ghost function PreparedAt(cfg: seq<PlmnItem>, es: seq<N2Event>): (r: seq<set<nat>>)
    ensures |r| == |es| && forall n :: 0 <= n < |es| ==> r[n] == PreparedBy(Before(Start(cfg), es, n), es[n])
  {
    seq(|es|, n requires 0 <= n < |es| => PreparedBy(Before(Start(cfg), es, n), es[n]))
  }

  lemma RaisesAt(cfg: seq<PlmnItem>, es: seq<N2Event>, n: nat)
    requires n < |es|
    ensures Raises(FlagsBefore(cfg, es)[n], PreparedAt(cfg, es)[n], FlagsBefore(cfg, es)[n + 1])
  {
    BeforeNext(Start(cfg), es, n);
    StepRaises(Before(Start(cfg), es, n), es[n]);
  }

  /** A session context counts as accepted iff an earlier Handover Request Ack prepared it. */
  lemma AcceptedIffPrepared(cfg: seq<PlmnItem>, es: seq<N2Event>, n: nat, p: nat)
    requires n <= |es| && p < |FlagsBefore(cfg, es)[n]|
    ensures FlagsBefore(cfg, es)[n][p] <==> exists j :: 0 <= j < n && p in PreparedAt(cfg, es)[j]
  {
    BeforeAll(Start(cfg), es);
    forall m | 0 <= m < |es|
      ensures Raises(FlagsBefore(cfg, es)[m], PreparedAt(cfg, es)[m], FlagsBefore(cfg, es)[m + 1])
    {
      RaisesAt(cfg, es, m);
    }
    RaisedSinceStart(FlagsBefore(cfg, es), PreparedAt(cfg, es), n, p);
  }

  lemma AcceptedIdsExact(s: N2, supi: string, id: nat)
    requires Sane(s)
    ensures id in AcceptedIds(s, supi) <==> (supi, id) in s.sessions && s.accepted[s.sessions[(supi, id)]]
  {
    if (supi, id) in s.sessions && s.accepted[s.sessions[(supi, id)]] {
      var k := (supi, id);
      assert k in s.sessions.Keys && k.0 == supi && k.1 == id;
    }
  }

  /** What Handover Notify reports completed in one state. */
  lemma CompletedExact(s: N2, e: N2Event, amf: nat, ran: nat, id: nat)
    requires Sane(s)
    ensures SmUpdate(amf, ran, id, Completed) in StepOut(s, e).1
       <==> (&& Handled(s, e) && e.Notify? && NotifyHandled(s, e.a, e.amf, e.located) && e.amf == amf && e.ran == ran
             && (ImsiKey(s.t.nasByAmf[amf]), id) in s.sessions
             && s.accepted[s.sessions[(ImsiKey(s.t.nasByAmf[amf]), id)]])
  {
    var o := SmUpdate(amf, ran, id, Completed);
    if !Handled(s, e) {
    } else if e.Notify? && NotifyHandled(s, e.a, e.amf, e.located) {
      var supi := ImsiKey(s.t.nasByAmf[e.amf]);
      SortedKeysAreSorted(AcceptedIds(s, supi));
      UpdatesExact(e.amf, e.ran, SortedKeys(AcceptedIds(s, supi)), Completed, o);
      AcceptedIdsExact(s, supi, id);
    } else if e.Required? {
      RequiredCompletesNothing(s, e, o);
    } else if e.Ack? {
      AckCompletesNothing(s, e, o);
    }
  }

  lemma RequiredCompletesNothing(s: N2, e: N2Event, o: Output)
    requires Sane(s) && e.Required? && o.SmUpdate? && o.ho == Completed
    ensures o !in StepOut(s, e).1
  {
    if RequiredAccepted(s, e.a, e.amf, e.ran, e.intra5gs) && e.amf in s.t.nasByAmf {
      UpdatesExact(e.amf, e.ran, Existing(s.sessions, ImsiKey(s.t.nasByAmf[e.amf]), e.items), Preparing, o);
    }
  }

  lemma AckCompletesNothing(s: N2, e: N2Event, o: Output)
    requires Sane(s) && e.Ack? && o.SmUpdate? && o.ho == Completed
    ensures o !in StepOut(s, e).1
  {
    if AckHandled(s, e.a, e.amf, e.admitted) {
      UpdatesExact(e.amf, e.ran, e.admitted.value, Prepared, o);
    }
  }

  /** In every run, a handled Handover Notify reports a session of its UE COMPLETED iff an earlier Handover
      Request Ack reported the same session context PREPARED and got a non-empty reply. */
  lemma CompletedIffPrepared(cfg: seq<PlmnItem>, es: seq<N2Event>, n: nat, id: nat)
    requires n < |es| && es[n].Notify?
    requires var s := Before(Start(cfg), es, n);
             && Handled(s, es[n]) && NotifyHandled(s, es[n].a, es[n].amf, es[n].located)
             && (ImsiKey(s.t.nasByAmf[es[n].amf]), id) in s.sessions
    ensures var s, e := Before(Start(cfg), es, n), es[n];
            var p := s.sessions[(ImsiKey(s.t.nasByAmf[e.amf]), id)];
            (SmUpdate(e.amf, e.ran, id, Completed) in StepOut(s, e).1
             <==> exists j :: 0 <= j < n && p in PreparedAt(cfg, es)[j])
  {
    var s, e := Before(Start(cfg), es, n), es[n];
    CompletedExact(s, e, e.amf, e.ran, id);
    AcceptedIffPrepared(cfg, es, n, s.sessions[(ImsiKey(s.t.nasByAmf[e.amf]), id)]);
  }

  /** What is prepared is reported so. */
  lemma PreparedIsReported(s: N2, e: N2Event, p: nat) returns (id: nat)
    requires Sane(s) && p in PreparedBy(s, e)
    ensures Prepares(s, e, p, id) && SmUpdate(e.amf, e.ran, id, Prepared) in StepOut(s, e).1
  {
    id :| Prepares(s, e, p, id);
    UpdatesExact(e.amf, e.ran, e.admitted.value, Prepared, SmUpdate(e.amf, e.ran, id, Prepared));
  }

  /** Whatever is reported COMPLETED belongs to a handled Handover Notify, and its session context was prepared
      by an earlier Handover Request Ack. */
  lemma CompletedOnlyAfterPrepared(cfg: seq<PlmnItem>, es: seq<N2Event>, n: nat, amf: nat, ran: nat, id: nat)
    returns (j: nat)
    requires n < |es| && SmUpdate(amf, ran, id, Completed) in StepOut(Before(Start(cfg), es, n), es[n]).1
    ensures var s := Before(Start(cfg), es, n);
            && es[n].Notify? && amf in s.t.nasByAmf && (ImsiKey(s.t.nasByAmf[amf]), id) in s.sessions
            && j < n && s.sessions[(ImsiKey(s.t.nasByAmf[amf]), id)] in PreparedAt(cfg, es)[j]
  {
    var s := Before(Start(cfg), es, n);
    CompletedExact(s, es[n], amf, ran, id);
    CompletedIffPrepared(cfg, es, n, id);
    var p := s.sessions[(ImsiKey(s.t.nasByAmf[amf]), id)];
    j :| 0 <= j < n && p in PreparedAt(cfg, es)[j];
  }

  // ---------------------------------------------------------------- this handover or an earlier one

  lemma {:induction false} RaisedSince(flags: seq<seq<bool>>, hits: seq<set<nat>>, h: nat, n: nat, p: nat)
    requires |flags| == |hits| + 1 && h <= n < |flags| && p < |flags[n]|
    requires forall m :: 0 <= m < |hits| ==> Raises(flags[m], hits[m], flags[m + 1])
    ensures flags[n][p] <==> (p < |flags[h]| && flags[h][p]) || exists j :: h <= j < n && p in hits[j]
  {
    if h < n {
      assert Raises(flags[n - 1], hits[n - 1], flags[n]);
      if p < |flags[n - 1]| {
        RaisedSince(flags, hits, h, n - 1, p);
      } else {
        FlagsGrow(flags, hits, h, n - 1);
        forall j | h <= j < n ensures p !in hits[j] {
          FlagsGrow(flags, hits, j, n - 1);
          assert Raises(flags[j], hits[j], flags[j + 1]);
        }
      }
    }
  }

  lemma AcceptedSince(cfg: seq<PlmnItem>, es: seq<N2Event>, h: nat, n: nat, p: nat)
    requires h <= n <= |es| && p < |FlagsBefore(cfg, es)[n]|
    ensures FlagsBefore(cfg, es)[n][p]
       <==> (p < |FlagsBefore(cfg, es)[h]| && FlagsBefore(cfg, es)[h][p])
            || exists j :: h <= j < n && p in PreparedAt(cfg, es)[j]
  {
    forall m | 0 <= m < |es|
      ensures Raises(FlagsBefore(cfg, es)[m], PreparedAt(cfg, es)[m], FlagsBefore(cfg, es)[m + 1])
    {
      RaisesAt(cfg, es, m);
    }
    RaisedSince(FlagsBefore(cfg, es), PreparedAt(cfg, es), h, n, p);
  }

  /** is_ho_accepted is never cleared. For a handover that starts at position h, Handover Notify reports a session
      COMPLETED iff it was prepared in this handover or counted as accepted when the handover started; so only what
      was prepared in this handover is reported, whatever happens in it, iff the flag was down at its start. */
  lemma CompletedInHandoverIff(cfg: seq<PlmnItem>, es: seq<N2Event>, h: nat, n: nat, id: nat)
    requires h <= n < |es| && es[n].Notify?
    requires var s := Before(Start(cfg), es, n);
             && Handled(s, es[n]) && NotifyHandled(s, es[n].a, es[n].amf, es[n].located)
             && (ImsiKey(s.t.nasByAmf[es[n].amf]), id) in s.sessions
    ensures var s, e := Before(Start(cfg), es, n), es[n];
            var p := s.sessions[(ImsiKey(s.t.nasByAmf[e.amf]), id)];
            (SmUpdate(e.amf, e.ran, id, Completed) in StepOut(s, e).1
             <==> (p < |FlagsBefore(cfg, es)[h]| && FlagsBefore(cfg, es)[h][p])
                  || exists j :: h <= j < n && p in PreparedAt(cfg, es)[j])
  {
    var s, e := Before(Start(cfg), es, n), es[n];
    CompletedExact(s, e, e.amf, e.ran, id);
    AcceptedSince(cfg, es, h, n, s.sessions[(ImsiKey(s.t.nasByAmf[e.amf]), id)]);
  }

  /** A second handover whose Ack admits no session still reports COMPLETED what an earlier one had accepted. */
  lemma SecondHandoverReportsFirst(s: N2, r: N2Event, k: N2Event, f: N2Event, id: nat)
    requires Sane(s) && Handled(s, r) && r.Required? && k.Ack? && f.Notify? && k.admitted == Some([])
    requires var s2 := N2Step(N2Step(s, r), k);
             Handled(s2, f) && NotifyHandled(s2, f.a, f.amf, f.located) && f.amf in s.t.nasByAmf
    requires (ImsiKey(s.t.nasByAmf[f.amf]), id) in s.sessions
             && s.accepted[s.sessions[(ImsiKey(s.t.nasByAmf[f.amf]), id)]]
    ensures PreparedBy(N2Step(s, r), k) == {}
    ensures SmUpdate(f.amf, f.ran, id, Completed) in StepOut(N2Step(N2Step(s, r), k), f).1
  {
    var s1 := N2Step(s, r);
    var s2 := N2Step(s1, k);
    RequiredLeavesSessions(s, r);
    AckLeavesSessions(s1, k);
    StepRaises(s1, k);
    CompletedExact(s2, f, f.amf, f.ran, id);
  }

  lemma RequiredLeavesSessions(s: N2, r: N2Event)
    requires Sane(s) && r.Required?
    ensures var s' := N2Step(s, r);
            s'.sessions == s.sessions && s'.accepted == s.accepted && s'.t.nasByAmf == s.t.nasByAmf
  {
  }

  lemma AckLeavesSessions(s: N2, k: N2Event)
    requires Sane(s) && k.Ack?
    ensures var s' := N2Step(s, k); s'.sessions == s.sessions && s'.t.nasByAmf == s.t.nasByAmf
  {
  }

  // ---------------------------------------------------------------- what leaves a UE alone

  /** A release by AMF id and then RAN id asks for the entries under the AMF id. */
  ghost predicate Asks(t: Tables, amfId: nat, ranId: nat, amf: nat)
    requires Valid(t)
  {
    amfId == amf || (ranId in t.byRan && t.contexts[t.byRan[ranId]].amfId == amf)
  }

  ghost predicate ConnectionAsks(t: Tables, c: Connection, amf: nat)
    requires Valid(t)
  {
    if c.amf.Some? then c.amf.value == amf
    else c.ran.Some? && c.ran.value in t.byRan && t.contexts[t.byRan[c.ran.value]].amfId == amf
  }

  /** The event writes context u, or the entries under its AMF id. */
  ghost predicate Disturbs(s: N2, e: N2Event, u: nat, amf: nat)
    requires Sane(s)
  {
    match e
    case Lifecycle(l) =>
      (l.Reset? || l.Shutdown?)
      && exists i :: 0 <= i < |Collect(s.t, l.a)| && AsksFor(s.t, Collect(s.t, l.a)[i], amf)
    case PartReset(_, cs) => exists i :: 0 <= i < |cs| && ConnectionAsks(s.t, cs[i], amf)
    case InitialUe(_, ran) => ran in s.t.byRan && s.t.byRan[ran] == u
    case AssignAmfId(ran, m) => m == amf || (ran in s.t.byRan && s.t.byRan[ran] == u)
    case DlNas(ran, m) => m == amf || (ran in s.t.byRan && s.t.byRan[ran] == u)
    case ContextSetup(ran) => ran in s.t.byRan && s.t.byRan[ran] == u
    case Required(_, _, ran, _, _, _, _) => ran in s.t.byRan && s.t.byRan[ran] == u
    case Ack(_, m, _, _, _) => m in s.t.byAmf && s.t.byAmf[m] == u
    case Notify(_, m, _, _) => m in s.t.byAmf && s.t.byAmf[m] == u
    case NasChange(nas, _) => amf !in nas
    case _ => false
  }

  ghost predicate AsksFor(t: Tables, v: nat, amf: nat)
    requires Valid(t) && v < |t.contexts|
  {
    Asks(t, t.contexts[v].amfId, t.contexts[v].ranId, amf)
  }

  /** Context u and the entries under its AMF id are as before. */
  ghost predicate KeptUe(t: Tables, t': Tables, u: nat, amf: nat) {
    && u < |t.contexts| <= |t'.contexts| && t'.contexts[u] == t.contexts[u]
    && (amf in t.byAmf ==> amf in t'.byAmf && t'.byAmf[amf] == t.byAmf[amf])
    && (amf in t.nasByAmf ==> amf in t'.nasByAmf)
  }

  lemma {:induction false} ReleaseEachKeepsUe(t: Tables, us: seq<nat>, u: nat, amf: nat)
    requires Valid(t) && AllRefs(t, us) && u < |t.contexts|
    requires forall i :: 0 <= i < |us| ==> !AsksFor(t, us[i], amf)
    ensures KeptUe(t, ReleaseEach(t, us), u, amf)
  {
    if us != [] {
      var init, last := us[..|us| - 1], us[|us| - 1];
      assert forall i :: 0 <= i < |init| ==> init[i] == us[i];
      ReleaseEachKeepsUe(t, init, u, amf);
      ReleaseEachRemoves(t, init);
      ReleaseOneKeepsUe(t, ReleaseEach(t, init), last, u, amf);
    }
  }

  lemma ReleaseOneKeepsUe(t: Tables, t1: Tables, v: nat, u: nat, amf: nat)
    requires Valid(t) && Valid(t1) && Shrinks(t, t1) && v < |t.contexts| && KeptUe(t, t1, u, amf) && !AsksFor(t, v, amf)
    ensures KeptUe(t, ReleaseOne(t1, v), u, amf)
  {
  }

  lemma {:induction false} ReleaseConnectionsKeepsUe(t: Tables, cs: seq<Connection>, u: nat, amf: nat)
    requires Valid(t) && u < |t.contexts| && forall i :: 0 <= i < |cs| ==> !ConnectionAsks(t, cs[i], amf)
    ensures KeptUe(t, ReleaseConnections(t, cs), u, amf)
    ensures forall k :: k in ReleaseConnections(t, cs).byRan ==>
              k in t.byRan && ReleaseConnections(t, cs).byRan[k] == t.byRan[k]
  {
    if cs != [] {
      var init := cs[..|cs| - 1];
      assert forall i :: 0 <= i < |init| ==> init[i] == cs[i];
      ReleaseConnectionsKeepsUe(t, init, u, amf);
    }
  }

  lemma LifecycleKeepsUe(s: N2, e: N2Event, u: nat, amf: nat)
    requires Sane(s) && e.Lifecycle? && u < |s.t.contexts| && !Disturbs(s, e, u, amf)
    ensures KeptUe(s.t, OnLifecycle(s, e.l).t, u, amf)
  {
    if e.l.Reset? || e.l.Shutdown? {
      ReleaseEachKeepsUe(s.t, Collect(s.t, e.l.a), u, amf);
    }
  }

  lemma PartResetKeepsUe(s: N2, e: N2Event, u: nat, amf: nat)
    requires Sane(s) && e.PartReset? && u < |s.t.contexts| && !Disturbs(s, e, u, amf)
    ensures KeptUe(s.t, OnPartReset(s, e.a, e.connections).t, u, amf)
  {
    ReleaseConnectionsKeepsUe(s.t, e.connections, u, amf);
  }

  lemma RequiredKeepsUe(s: N2, e: N2Event, u: nat, amf: nat)
    requires Sane(s) && e.Required? && u < |s.t.contexts| && !Disturbs(s, e, u, amf)
    ensures KeptUe(s.t, OnRequired(s, e.a, e.amf, e.ran, e.intra5gs, e.target, e.items, e.replies).0.t, u, amf)
  {
  }

  lemma AckNotifyKeepsUe(s: N2, e: N2Event, u: nat, amf: nat)
    requires Sane(s) && (e.Ack? || e.Notify?) && u < |s.t.contexts| && !Disturbs(s, e, u, amf)
    ensures KeptUe(s.t, N2Step(s, e).t, u, amf)
  {
  }

  lemma OthersKeepUe(s: N2, e: N2Event, u: nat, amf: nat)
    requires Sane(s) && u < |s.t.contexts| && !Disturbs(s, e, u, amf)
    requires !e.Lifecycle? && !e.PartReset? && !e.Required? && !e.Ack? && !e.Notify?
    ensures KeptUe(s.t, N2Step(s, e).t, u, amf)
  {
  }

  lemma StepKeepsUe(s: N2, e: N2Event, u: nat, amf: nat)
    requires Sane(s) && u < |s.t.contexts| && !Disturbs(s, e, u, amf)
    ensures KeptUe(s.t, N2Step(s, e).t, u, amf)
  {
    if Handled(s, e) {
      match e
      case Lifecycle(_) => LifecycleKeepsUe(s, e, u, amf);
      case PartReset(_, _) => PartResetKeepsUe(s, e, u, amf);
      case Required(_, _, _, _, _, _, _) => RequiredKeepsUe(s, e, u, amf);
      case Ack(_, _, _, _, _) => AckNotifyKeepsUe(s, e, u, amf);
      case Notify(_, _, _, _) => AckNotifyKeepsUe(s, e, u, amf);
      case _ => OthersKeepUe(s, e, u, amf);
    }
  }

  /** None of the events from position i up to n disturbs the UE. */
  ghost predicate Undisturbed(cfg: seq<PlmnItem>, es: seq<N2Event>, i: nat, n: nat, u: nat, amf: nat)
    requires i <= n <= |es|
  {
    forall m :: i <= m < n ==> !Disturbs(Before(Start(cfg), es, m), es[m], u, amf)
  }

  /** Over any undisturbing stretch of a run the UE's context and entries stay. */
  lemma {:induction false} RunKeepsUe(cfg: seq<PlmnItem>, es: seq<N2Event>, i: nat, n: nat, u: nat, amf: nat)
    requires i <= n <= |es| && u < |Before(Start(cfg), es, i).t.contexts| && Undisturbed(cfg, es, i, n, u, amf)
    ensures KeptUe(Before(Start(cfg), es, i).t, Before(Start(cfg), es, n).t, u, amf)
    decreases n
  {
    if i < n {
      RunKeepsUe(cfg, es, i, n - 1, u, amf);
      assert !Disturbs(Before(Start(cfg), es, n - 1), es[n - 1], u, amf);
      KeepsOneMore(cfg, es, i, n - 1, u, amf);
    }
  }

  lemma KeepsOneMore(cfg: seq<PlmnItem>, es: seq<N2Event>, i: nat, n: nat, u: nat, amf: nat)
    requires i <= n < |es| && KeptUe(Before(Start(cfg), es, i).t, Before(Start(cfg), es, n).t, u, amf)
    requires !Disturbs(Before(Start(cfg), es, n), es[n], u, amf)
    ensures KeptUe(Before(Start(cfg), es, i).t, Before(Start(cfg), es, n + 1).t, u, amf)
  {
    BeforeNext(Start(cfg), es, n);
    StepKeepsUe(Before(Start(cfg), es, n), es[n], u, amf);
  }

  // ---------------------------------------------------------------- where the commands go

  /** The three messages of a handover of context u. */
  ghost predicate IsHandover(s0: N2, r: N2Event, s2: N2, k: N2Event, s4: N2, f: N2Event, u: nat)
    requires Sane(s0) && Sane(s2) && Sane(s4)
  {
    && r.Required? && RequiredAccepted(s0, r.a, r.amf, r.ran, r.intra5gs) && s0.t.byRan[r.ran] == u
    && r.target in s0.core.gnbIds && r.amf in s0.t.nasByAmf && s0.t.nasByAmf[r.amf].hasSecurity
    && r.amf in s0.t.byAmf && s0.t.byAmf[r.amf] == u
    && k.Ack? && k.amf == r.amf && k.a in s2.core.assocs && k.admitted.Some?
    && f.Notify? && f.amf == r.amf && f.a in s4.core.assocs && f.located
    && Handled(s0, r) && Handled(s2, k) && Handled(s4, f)
  }

  /** What the three messages make the AMF send, and where the UE ends. */
  ghost predicate MovesUe(s0: N2, r: N2Event, s2: N2, k: N2Event, s4: N2, f: N2Event, u: nat)
    requires Sane(s0) && Sane(s2) && Sane(s4) && r.Required? && k.Ack? && k.admitted.Some? && f.Notify?
    requires u < |s0.t.contexts| && r.target in s0.core.gnbIds && r.amf in s0.t.nasByAmf
  {
    var out1, out2, out3 := StepOut(s0, r).1, StepOut(s2, k).1, StepOut(s4, f).1;
    var c0, t5 := s0.t.contexts[u], N2Step(s4, f).t;
    && out1 != [] && out2 != [] && out3 != [] && u < |t5.contexts|
    && var last1, last2, last3 := out1[|out1| - 1], out2[|out2| - 1], out3[|out3| - 1];
       && last1.HandoverRequest? && last1.assoc == s0.core.gnbIds[r.target] && last1.ncc == (c0.ncc + 1) % 0x100
       && last1.amf == r.amf && Increasing(last1.ids)
       && (forall id: nat :: id in last1.ids <==>
             && id in r.items && ("imsi-" + s0.t.nasByAmf[r.amf].imsi, id) in s0.sessions
             && id in r.replies && r.replies[id].Ready? && r.replies[id].body != "")
       && last2.HandoverCommand? && last2.assoc == r.a && last2.ran == c0.ranId
       && last2.amf == r.amf && Increasing(last2.ids)
       && (forall id: nat :: id in last2.ids <==>
             id in k.admitted.value && id in k.replies && k.replies[id].Ready? && k.replies[id].body != "")
       && last3 == ReleaseCommand(r.a, r.amf, c0.ranId)
       && t5.contexts[u].assoc == f.a && t5.contexts[u].ranId == f.ran && t5.contexts[u].state == UeConnected
       && t5.contexts[u].ncc == (c0.ncc + 1) % 0x100
       && f.ran in t5.byRan && t5.byRan[f.ran] == u
       && (var started := N2Step(s0, r).t.contexts;
           u < |started| && started[u].targetAssoc == s0.core.gnbIds[r.target] && started[u].state == UeHandover)
       && (forall key :: key in s4.t.byRan && key != f.ran ==> key in t5.byRan && t5.byRan[key] == s4.t.byRan[key])
  }

  lemma HandoverOfStates(s0: N2, r: N2Event, s2: N2, k: N2Event, s4: N2, f: N2Event, u: nat)
    requires Sane(s0) && Sane(s2) && Sane(s4) && IsHandover(s0, r, s2, k, s4, f, u)
    requires KeptUe(N2Step(s0, r).t, s2.t, u, r.amf) && KeptUe(N2Step(s2, k).t, s4.t, u, r.amf)
    ensures MovesUe(s0, r, s2, k, s4, f, u)
  {
    RequiredPart(s0, r);
    AckPart(s2, k);
    NotifyPart(s4, f);
  }

  /** In every run, with any events in between that do not write the UE's context or its AMF-id and NAS entries: the
      request goes to the target gNB; the command goes to the association and RAN id the UE had when Handover Required
      came, with exactly the admitted sessions the SMF answered for; so does the release command; and the UE ends at
      the association that notified. */
  lemma HandoverMovesUe(cfg: seq<PlmnItem>, es: seq<N2Event>, i: nat, j: nat, n: nat, u: nat)
    requires i < j < n < |es|
    requires IsHandover(Before(Start(cfg), es, i), es[i], Before(Start(cfg), es, j), es[j],
                        Before(Start(cfg), es, n), es[n], u)
    requires Undisturbed(cfg, es, i + 1, j, u, es[i].amf) && Undisturbed(cfg, es, j + 1, n, u, es[i].amf)
    ensures MovesUe(Before(Start(cfg), es, i), es[i], Before(Start(cfg), es, j), es[j],
                    Before(Start(cfg), es, n), es[n], u)
  {
    var s0, s2, s4 := Before(Start(cfg), es, i), Before(Start(cfg), es, j), Before(Start(cfg), es, n);
    StepThenKept(cfg, es, i, j, u, es[i].amf);
    AckKeepsLength(s0, es[i], s2, es[j], u);
    StepThenKept(cfg, es, j, n, u, es[i].amf);
    HandoverOfStates(s0, es[i], s2, es[j], s4, es[n], u);
  }

  lemma AckKeepsLength(s0: N2, r: N2Event, s2: N2, k: N2Event, u: nat)
    requires Sane(s0) && Sane(s2) && k.Ack? && r.Required? && KeptUe(N2Step(s0, r).t, s2.t, u, r.amf)
    ensures u < |N2Step(s2, k).t.contexts|
  {
  }

  /** The state after an event, and that before a later one, when nothing in between disturbs the UE. */
  lemma StepThenKept(cfg: seq<PlmnItem>, es: seq<N2Event>, i: nat, n: nat, u: nat, amf: nat)
    requires i < n <= |es| && Undisturbed(cfg, es, i + 1, n, u, amf)
    requires u < |N2Step(Before(Start(cfg), es, i), es[i]).t.contexts|
    ensures KeptUe(N2Step(Before(Start(cfg), es, i), es[i]).t, Before(Start(cfg), es, n).t, u, amf)
  {
    BeforeNext(Start(cfg), es, i);
    RunKeepsUe(cfg, es, i + 1, n, u, amf);
  }

  lemma RequiredPart(s: N2, r: N2Event)
    requires Sane(s) && Handled(s, r) && r.Required? && RequiredAccepted(s, r.a, r.amf, r.ran, r.intra5gs)
    requires r.target in s.core.gnbIds && r.amf in s.t.nasByAmf && s.t.nasByAmf[r.amf].hasSecurity
    ensures var u, s', out := s.t.byRan[r.ran], N2Step(s, r), StepOut(s, r).1;
            && s'.t.byAmf == s.t.byAmf && s'.t.nasByAmf == s.t.nasByAmf
            && |s'.t.contexts| == |s.t.contexts|
            && s'.t.contexts[u].assoc == r.a && s'.t.contexts[u].ranId == s.t.contexts[u].ranId
            && s'.t.contexts[u].ncc == (s.t.contexts[u].ncc + 1) % 0x100
            && s'.t.contexts[u].targetAssoc == s.core.gnbIds[r.target] && s'.t.contexts[u].state == UeHandover
            && out != [] && out[|out| - 1].HandoverRequest?
            && out[|out| - 1].assoc == s.core.gnbIds[r.target] && out[|out| - 1].ncc == s'.t.contexts[u].ncc
            && out[|out| - 1].amf == r.amf && Increasing(out[|out| - 1].ids)
            && (forall id: nat :: id in out[|out| - 1].ids <==>
                  && id in r.items && ("imsi-" + s.t.nasByAmf[r.amf].imsi, id) in s.sessions
                  && id in r.replies && r.replies[id].Ready? && r.replies[id].body != "")
  {
    var ids := Existing(s.sessions, ImsiKey(s.t.nasByAmf[r.amf]), r.items);
    AnsweredWaited(ids, r.replies);
    forall id: nat ensures id in ids <==> id in r.items && (ImsiKey(s.t.nasByAmf[r.amf]), id) in s.sessions {
      ExistingExact(s.sessions, ImsiKey(s.t.nasByAmf[r.amf]), r.items, id);
    }
  }

  lemma AckPart(s: N2, k: N2Event)
    requires Sane(s) && Handled(s, k) && k.Ack? && AckHandled(s, k.a, k.amf, k.admitted)
    ensures var u, s', out := s.t.byAmf[k.amf], N2Step(s, k), StepOut(s, k).1;
            && s'.t.byAmf == s.t.byAmf && s'.t.nasByAmf == s.t.nasByAmf
            && |s'.t.contexts| == |s.t.contexts|
            && s'.t.contexts[u] == s.t.contexts[u].(targetRanId := k.ran)
            && out != [] && out[|out| - 1].HandoverCommand?
            && out[|out| - 1].assoc == s.t.contexts[u].assoc && out[|out| - 1].ran == s.t.contexts[u].ranId
            && out[|out| - 1].amf == k.amf && Increasing(out[|out| - 1].ids)
            && (forall id: nat :: id in out[|out| - 1].ids <==>
                  id in k.admitted.value && id in k.replies && k.replies[id].Ready? && k.replies[id].body != "")
  {
    AnsweredWaited(k.admitted.value, k.replies);
  }

  /** Each once, in the order of the ids. */
  ghost predicate Increasing(ids: seq<nat>) {
    forall i, j :: 0 <= i < j < |ids| ==> ids[i] < ids[j]
  }

  lemma {:induction false} AnsweredIncrease(ids: seq<nat>, replies: map<nat, Reply>)
    requires Increasing(ids)
    ensures Increasing(AnsweredOf(ids, replies))
  {
    if ids != [] {
      var init, last := ids[..|ids| - 1], ids[|ids| - 1];
      AnsweredIncrease(init, replies);
      forall i | 0 <= i < |AnsweredOf(init, replies)| ensures AnsweredOf(init, replies)[i] < last {
        var id := AnsweredOf(init, replies)[i];
        assert id in AnsweredOf(init, replies);
        AnsweredOfExact(init, replies, id);
      }
    }
  }

  /** What is answered of the listed ids. */
  lemma AnsweredWaited(listed: seq<nat>, replies: map<nat, Reply>)
    ensures Increasing(AnsweredOf(Waited(listed), replies))
    ensures forall id: nat :: id in AnsweredOf(Waited(listed), replies) <==>
              id in listed && id in replies && replies[id].Ready? && replies[id].body != ""
  {
    SortedKeysAreSorted(IdSet(listed));
    AnsweredIncrease(Waited(listed), replies);
    forall id: nat
      ensures id in AnsweredOf(Waited(listed), replies)
         <==> id in listed && id in replies && replies[id].Ready? && replies[id].body != ""
    {
      AnsweredOfExact(Waited(listed), replies, id);
      WaitedExact(listed, id);
    }
  }

  lemma {:induction false} ExistingExact(sessions: map<(string, nat), nat>, supi: string, ids: seq<nat>, id: nat)
    ensures id in Existing(sessions, supi, ids) <==> id in ids && (supi, id) in sessions
  {
    if ids != [] {
      var n := |ids| - 1;
      ExistingExact(sessions, supi, ids[..n], id);
      assert ids == ids[..n] + [ids[n]];
    }
  }

  // ---------------------------------------------------------------- all that is sent

  lemma {:induction false} UpdateAt(amf: nat, ran: nat, ids: seq<nat>, ho: HoState, i: nat)
    requires i < |ids|
    ensures |Updates(amf, ran, ids, ho)| == |ids| && Updates(amf, ran, ids, ho)[i] == SmUpdate(amf, ran, ids[i], ho)
  {
    var n := |ids| - 1;
    UpdatesLength(amf, ran, ids, ho);
    UpdatesLength(amf, ran, ids[..n], ho);
    if i < n {
      UpdateAt(amf, ran, ids[..n], ho, i);
    }
  }

  lemma {:induction false} UpdatesLength(amf: nat, ran: nat, ids: seq<nat>, ho: HoState)
    ensures |Updates(amf, ran, ids, ho)| == |ids|
  {
    if ids != [] {
      UpdatesLength(amf, ran, ids[..|ids| - 1], ho);
    }
  }

  /** The outputs are one report per listed id, and then at most one message. */
  ghost predicate Reports(out: seq<Output>, amf: nat, ran: nat, ids: seq<nat>, ho: HoState, extra: nat) {
    |out| == |ids| + extra && forall i :: 0 <= i < |ids| ==> out[i] == SmUpdate(amf, ran, ids[i], ho)
  }

  lemma UpdatesReport(amf: nat, ran: nat, ids: seq<nat>, ho: HoState, more: seq<Output>)
    ensures Reports(Updates(amf, ran, ids, ho) + more, amf, ran, ids, ho, |more|)
  {
    UpdatesLength(amf, ran, ids, ho);
    forall i | 0 <= i < |ids| ensures (Updates(amf, ran, ids, ho) + more)[i] == SmUpdate(amf, ran, ids[i], ho) {
      UpdateAt(amf, ran, ids, ho, i);
    }
  }

  /** A sublist in order. */
  ghost predicate ListedAndExisting(ids: seq<nat>, items: seq<nat>, sessions: map<(string, nat), nat>, supi: string) {
    && (forall id: nat :: id in ids <==> id in items && (supi, id) in sessions)
    && ((forall id: nat :: id in items ==> (supi, id) in sessions) ==> ids == items)
  }

  lemma {:induction false} ExistingIsSublist(items: seq<nat>, sessions: map<(string, nat), nat>, supi: string)
    ensures ListedAndExisting(Existing(sessions, supi, items), items, sessions, supi)
  {
    forall id: nat ensures id in Existing(sessions, supi, items) <==> id in items && (supi, id) in sessions {
      ExistingExact(sessions, supi, items, id);
    }
    if items != [] {
      var init := items[..|items| - 1];
      assert items == init + [items[|items| - 1]];
      ExistingIsSublist(init, sessions, supi);
    }
  }

  /** All that Handover Required sends, and when: PREPARING for the listed sessions that exist, and then, unless the
      target is unknown, the Handover Request. */
  lemma RequiredSends(s: N2, r: N2Event)
    requires Sane(s) && Handled(s, r) && r.Required?
    ensures var out := StepOut(s, r).1;
            if && r.a in s.core.assocs && r.ran in s.t.byRan && s.t.contexts[s.t.byRan[r.ran]].amfId == r.amf
               && r.intra5gs && r.amf in s.t.nasByAmf && s.t.nasByAmf[r.amf].hasSecurity
            then exists ids ::
                   && ListedAndExisting(ids, r.items, s.sessions, "imsi-" + s.t.nasByAmf[r.amf].imsi)
                   && Reports(out, r.amf, r.ran, ids, Preparing, if r.target in s.core.gnbIds then 1 else 0)
                   && (r.target in s.core.gnbIds ==> out[|out| - 1].HandoverRequest?)
            else out == []
  {
    if RequiredAccepted(s, r.a, r.amf, r.ran, r.intra5gs) && r.amf in s.t.nasByAmf && s.t.nasByAmf[r.amf].hasSecurity {
      var supi := ImsiKey(s.t.nasByAmf[r.amf]);
      var ids, out := Existing(s.sessions, supi, r.items), StepOut(s, r).1;
      ExistingIsSublist(r.items, s.sessions, supi);
      var updates := Updates(r.amf, r.ran, ids, Preparing);
      if r.target in s.core.gnbIds {
        assert out == updates + [out[|out| - 1]];
        UpdatesReport(r.amf, r.ran, ids, Preparing, [out[|out| - 1]]);
      } else {
        assert out == updates + [];
        UpdatesReport(r.amf, r.ran, ids, Preparing, []);
      }
    }
  }

  /** All that Handover Request Ack sends, and when: PREPARED for every admitted session, and then the command. */
  lemma AckSends(s: N2, k: N2Event)
    requires Sane(s) && Handled(s, k) && k.Ack?
    ensures var out := StepOut(s, k).1;
            if k.a in s.core.assocs && k.amf in s.t.byAmf && k.admitted.Some? && k.amf in s.t.nasByAmf
            then Reports(out, k.amf, k.ran, k.admitted.value, Prepared, 1) && out[|out| - 1].HandoverCommand?
            else out == []
  {
    if AckHandled(s, k.a, k.amf, k.admitted) {
      var out := StepOut(s, k).1;
      assert out == Updates(k.amf, k.ran, k.admitted.value, Prepared) + [out[|out| - 1]];
      UpdatesReport(k.amf, k.ran, k.admitted.value, Prepared, [out[|out| - 1]]);
    }
  }

  /** All that Handover Notify sends, and when: COMPLETED for the UE's accepted sessions, each once, and then the
      release command. */
  lemma NotifySends(s: N2, f: N2Event)
    requires Sane(s) && Handled(s, f) && f.Notify?
    ensures var out := StepOut(s, f).1;
            if f.a in s.core.assocs && f.amf in s.t.byAmf && f.located && f.amf in s.t.nasByAmf
            then exists ids ::
                   && Increasing(ids) && Reports(out, f.amf, f.ran, ids, Completed, 1)
                   && (forall id: nat :: id in ids <==>
                         var key := ("imsi-" + s.t.nasByAmf[f.amf].imsi, id);
                         key in s.sessions && s.accepted[s.sessions[key]])
                   && var c := s.t.contexts[s.t.byAmf[f.amf]];
                      out[|out| - 1] == ReleaseCommand(c.assoc, f.amf, c.ranId)
            else out == []
  {
    if NotifyHandled(s, f.a, f.amf, f.located) {
      var supi, out := ImsiKey(s.t.nasByAmf[f.amf]), StepOut(s, f).1;
      var ids := SortedKeys(AcceptedIds(s, supi));
      SortedKeysAreSorted(AcceptedIds(s, supi));
      forall id: nat ensures id in ids <==> (supi, id) in s.sessions && s.accepted[s.sessions[(supi, id)]] {
        AcceptedIdsExact(s, supi, id);
      }
      assert out == Updates(f.amf, f.ran, ids, Completed) + [out[|out| - 1]];
      UpdatesReport(f.amf, f.ran, ids, Completed, [out[|out| - 1]]);
    }
  }

  /** Nothing else is sent by the events of the machine. */
  lemma OthersSendNothing(s: N2, e: N2Event)
    requires Sane(s) && (!Handled(s, e) || (!e.Required? && !e.Ack? && !e.Notify?))
    ensures StepOut(s, e).1 == []
  {
  }

  lemma NotifyPart(s: N2, f: N2Event)
    requires Sane(s) && Handled(s, f) && f.Notify? && NotifyHandled(s, f.a, f.amf, f.located)
    ensures var u, s', out := s.t.byAmf[f.amf], N2Step(s, f), StepOut(s, f).1;
            && |s'.t.contexts| == |s.t.contexts|
            && s'.t.contexts[u]
               == s.t.contexts[u].(ranId := f.ran, targetRanId := 0, state := UeConnected, assoc := f.a)
            && s'.t.byRan == s.t.byRan[f.ran := u]
            && out != [] && out[|out| - 1] == ReleaseCommand(s.t.contexts[u].assoc, f.amf, s.t.contexts[u].ranId)
  {
  }

  /** The one event that ends the process, over all states and events: an accepted Handover Required of a UE with a
      security context to a gNB id that no gNB has. */
  lemma ProcessEndsIff(s: N2, e: N2Event)
    requires Sane(s) && Handled(s, e)
    ensures N2Step(s, e).halted
       <==> && e.Required? && RequiredAccepted(s, e.a, e.amf, e.ran, e.intra5gs)
            && e.amf in s.t.nasByAmf && s.t.nasByAmf[e.amf].hasSecurity && e.target !in s.core.gnbIds
  {
  }

  // ---------------------------------------------------------------- next hop chaining counter

  /** The event is an accepted Handover Required for context u. */
  ghost predicate Counts(s: N2, e: N2Event, u: nat)
    requires Sane(s)
  {
    Handled(s, e) && e.Required? && RequiredAccepted(s, e.a, e.amf, e.ran, e.intra5gs) && s.t.byRan[e.ran] == u
  }

  /** The event is an Initial Context Setup for context u. */
  ghost predicate Resets(s: N2, e: N2Event, u: nat)
    requires Sane(s)
  {
    Handled(s, e) && e.ContextSetup? && e.ran in s.t.byRan && s.t.byRan[e.ran] == u
  }

  ghost function Count(flags: seq<bool>): nat {
    if flags == [] then 0 else Count(flags[..|flags| - 1]) + if flags[|flags| - 1] then 1 else 0
  }

  /** For each event whether it counts for context u. */
  ghost function Counted(cfg: seq<PlmnItem>, es: seq<N2Event>, u: nat): (r: seq<bool>)
    ensures |r| == |es| && forall n :: 0 <= n < |es| ==> r[n] == Counts(Before(Start(cfg), es, n), es[n], u)
  {
    seq(|es|, n requires 0 <= n < |es| => Counts(Before(Start(cfg), es, n), es[n], u))
  }

  /** For each event whether it is an Initial Context Setup for context u. */
  ghost function SetUp(cfg: seq<PlmnItem>, es: seq<N2Event>, u: nat): (r: seq<bool>)
    ensures |r| == |es| && forall n :: 0 <= n < |es| ==> r[n] == Resets(Before(Start(cfg), es, n), es[n], u)
  {
    seq(|es|, n requires 0 <= n < |es| => Resets(Before(Start(cfg), es, n), es[n], u))
  }

  /** The counter of a context, zero before it exists. */
  function NccOf(t: Tables, u: nat): uint8 {
    if u < |t.contexts| then t.contexts[u].ncc else 0
  }

  ghost function Nccs(cfg: seq<PlmnItem>, es: seq<N2Event>, u: nat): (r: seq<uint8>)
    ensures |r| == |es| + 1 && forall n :: 0 <= n <= |es| ==> r[n] == NccOf(Before(Start(cfg), es, n).t, u)
  {
    seq(|es| + 1, n requires 0 <= n <= |es| => NccOf(Before(Start(cfg), es, n).t, u))
  }

  function NextNcc(ncc: uint8, counts: bool, resets: bool): uint8 {
    if counts then (ncc + 1) % 0x100 else if resets then 1 else ncc
  }

  lemma RequiredNcc(s: N2, e: N2Event, u: nat)
    requires Sane(s) && e.Required? && Handled(s, e)
    ensures NccOf(OnRequired(s, e.a, e.amf, e.ran, e.intra5gs, e.target, e.items, e.replies).0.t, u)
         == NextNcc(NccOf(s.t, u), Counts(s, e, u), false)
  {
  }

  lemma AckNotifyNcc(s: N2, e: N2Event, u: nat)
    requires Sane(s) && (e.Ack? || e.Notify?)
    ensures NccOf(N2Step(s, e).t, u) == NccOf(s.t, u)
  {
  }

  lemma OtherNcc(s: N2, e: N2Event, u: nat)
    requires Sane(s) && !e.Required? && !e.Ack? && !e.Notify? && Handled(s, e)
    ensures NccOf(N2Step(s, e).t, u) == NextNcc(NccOf(s.t, u), false, Resets(s, e, u))
  {
  }

  lemma NccStep(s: N2, e: N2Event, u: nat)
    requires Sane(s)
    ensures NccOf(N2Step(s, e).t, u) == NextNcc(NccOf(s.t, u), Counts(s, e, u), Resets(s, e, u))
  {
    if !Handled(s, e) {
    } else if e.Required? {
      RequiredNcc(s, e, u);
    } else if e.Ack? || e.Notify? {
      AckNotifyNcc(s, e, u);
    } else {
      OtherNcc(s, e, u);
    }
  }

  lemma NccAt(cfg: seq<PlmnItem>, es: seq<N2Event>, u: nat, n: nat)
    requires n < |es|
    ensures Nccs(cfg, es, u)[n + 1] == NextNcc(Nccs(cfg, es, u)[n], Counted(cfg, es, u)[n], SetUp(cfg, es, u)[n])
  {
    BeforeNext(Start(cfg), es, n);
    NccStep(Before(Start(cfg), es, n), es[n], u);
  }

  lemma CountMore(flags: seq<bool>, p: nat, n: nat)
    requires p <= n < |flags|
    ensures Count(flags[p..n + 1]) == Count(flags[p..n]) + if flags[n] then 1 else 0
  {
    assert flags[p..n + 1][..n - p] == flags[p..n];
  }

  lemma NextModulo(count: nat, ncc: uint8, counts: bool)
    requires ncc == (1 + count) % 0x100
    ensures NextNcc(ncc, counts, false) == (1 + (count + if counts then 1 else 0)) % 0x100
  {
    if counts {
      var q := (1 + count) / 0x100;
      Wraps(2 + count, q, ncc + 1);
    }
  }

  lemma Wraps(n: nat, q: nat, r: nat)
    requires n == 0x100 * q + r && r <= 0x100
    ensures n % 0x100 == r % 0x100
  {
  }

  /** The counter after step m is what step m makes of it. */
  ghost predicate Follows(nccs: seq<uint8>, counted: seq<bool>, resets: seq<bool>, m: nat)
    requires |nccs| == |counted| + 1 == |resets| + 1 && m < |counted|
  {
    nccs[m + 1] == NextNcc(nccs[m], counted[m], resets[m])
  }

  lemma {:induction false} CountedSinceReset(nccs: seq<uint8>, counted: seq<bool>, resets: seq<bool>, p: nat, n: nat)
    requires |nccs| == |counted| + 1 == |resets| + 1 && p < n < |nccs|
    requires forall m :: 0 <= m < |counted| ==> Follows(nccs, counted, resets, m)
    requires resets[p] && !counted[p] && forall m :: p < m < n ==> !resets[m]
    ensures nccs[n] == (1 + Count(counted[p + 1..n])) % 0x100
  {
    if n == p + 1 {
      assert counted[p + 1..n] == [];
    } else {
      CountedSinceReset(nccs, counted, resets, p, n - 1);
      CountMore(counted, p + 1, n - 1);
      NextModulo(Count(counted[p + 1..n - 1]), nccs[n - 1], counted[n - 1]);
    }
    assert Follows(nccs, counted, resets, n - 1);
  }

  lemma NccFollows(cfg: seq<PlmnItem>, es: seq<N2Event>, u: nat)
    ensures forall m :: 0 <= m < |es| ==> Follows(Nccs(cfg, es, u), Counted(cfg, es, u), SetUp(cfg, es, u), m)
  {
    forall m | 0 <= m < |es| ensures Follows(Nccs(cfg, es, u), Counted(cfg, es, u), SetUp(cfg, es, u), m) {
      NccAt(cfg, es, u, m);
    }
  }

  lemma SetupDoesNotCount(s: N2, e: N2Event, u: nat)
    requires Sane(s) && Resets(s, e, u)
    ensures !Counts(s, e, u)
  {
  }

  /** In every run the counter of a context is one plus the Handover Required messages accepted for it since its
      last Initial Context Setup, modulo 256. */
  lemma NccCountsHandovers(cfg: seq<PlmnItem>, es: seq<N2Event>, u: nat, p: nat, n: nat)
    requires p < n <= |es| && SetUp(cfg, es, u)[p] && forall m :: p < m < n ==> !SetUp(cfg, es, u)[m]
    ensures Nccs(cfg, es, u)[n] == (1 + Count(Counted(cfg, es, u)[p + 1..n])) % 0x100
  {
    NccFollows(cfg, es, u);
    SetupDoesNotCount(Before(Start(cfg), es, p), es[p], u);
    CountedSinceReset(Nccs(cfg, es, u), Counted(cfg, es, u), SetUp(cfg, es, u), p, n);
  }
}
