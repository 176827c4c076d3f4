/** What the N2 handlers that release or connect UEs do to the tables, said of the tables alone. */
module N2Effects {
  import opened Numerals
  import opened Responses
  import opened GnbLifecycle
  import opened UeContexts
  import opened N2Handlers

  // ---------------------------------------------------------------- partial NG Reset

  /** The AMF id whose entries a listed connection asks for: the one it names, else that of the context of its RAN
      id. */
  function AsksAmf(t: Tables, c: Connection): set<nat>
    requires Valid(t)
  {
    if c.amf.Some? then {c.amf.value}
    else if c.ran.Some? && c.ran.value in t.byRan then {t.contexts[t.byRan[c.ran.value]].amfId}
    else {}
  }

  /** The RAN key it asks for: that of the NAS context of the AMF id it names, else the one it names. */
  function AsksRan(t: Tables, c: Connection): set<nat> {
    if c.amf.Some? then (if c.amf.value in t.nasByAmf then {t.nasByAmf[c.amf.value].ranId} else {})
    else if c.ran.Some? then {c.ran.value}
    else {}
  }

  /** The IMSI entries it asks for: that of the NAS context of the AMF id. */
  function AsksImsi(t: Tables, c: Connection): set<string>
    requires Valid(t)
  {
    set m | m in AsksAmf(t, c) && m in t.nasByAmf :: "imsi-" + t.nasByAmf[m].imsi
  }

  /** One connection is released: what it asks for is gone from all four maps, and nothing else. */
  lemma ConnectionExact(t: Tables, c: Connection)
    requires Valid(t)
    ensures ReleaseConnection(t, c)
         == Tables(t.contexts, t.byRan - AsksRan(t, c), t.byAmf - AsksAmf(t, c), t.nasByAmf - AsksAmf(t, c),
                   t.nasByImsi - AsksImsi(t, c))
  {
    if c.amf.Some? {
      NamedByAmf(t, c);
    } else if c.ran.Some? {
      NamedByRan(t, c);
    }
  }

  lemma NamedByAmf(t: Tables, c: Connection)
    requires Valid(t) && c.amf.Some?
    ensures RemoveByAmf(t, c.amf.value)
         == Tables(t.contexts, t.byRan - AsksRan(t, c), t.byAmf - AsksAmf(t, c), t.nasByAmf - AsksAmf(t, c),
                   t.nasByImsi - AsksImsi(t, c))
  {
    var m := c.amf.value;
    if m in t.nasByAmf {
      assert AsksImsi(t, c) == {ImsiKey(t.nasByAmf[m])};
    } else {
      assert AsksImsi(t, c) == {} && t.nasByAmf - {m} == t.nasByAmf;
    }
  }

  lemma NamedByRan(t: Tables, c: Connection)
    requires Valid(t) && c.amf.None? && c.ran.Some?
    ensures RemoveByRan(t, c.ran.value)
         == Tables(t.contexts, t.byRan - AsksRan(t, c), t.byAmf - AsksAmf(t, c), t.nasByAmf - AsksAmf(t, c),
                   t.nasByImsi - AsksImsi(t, c))
  {
    if c.ran.value in t.byRan {
      var m := t.contexts[t.byRan[c.ran.value]].amfId;
      if m in t.nasByAmf {
        assert AsksImsi(t, c) == {ImsiKey(t.nasByAmf[m])};
      } else {
        assert AsksImsi(t, c) == {} && t.nasByAmf - {m} == t.nasByAmf;
      }
    } else {
      assert AsksImsi(t, c) == {};
    }
  }

  /** Some listed connection asks for the RAN key in the tables it finds at its turn. */
  ghost predicate RanAsked(t: Tables, cs: seq<Connection>, k: nat)
    requires Valid(t)
  {
    cs != [] &&
    (RanAsked(t, cs[..|cs| - 1], k) || k in AsksRan(ReleaseConnections(t, cs[..|cs| - 1]), cs[|cs| - 1]))
  }

  ghost predicate AmfAsked(t: Tables, cs: seq<Connection>, m: nat)
    requires Valid(t)
  {
    cs != [] &&
    (AmfAsked(t, cs[..|cs| - 1], m) || m in AsksAmf(ReleaseConnections(t, cs[..|cs| - 1]), cs[|cs| - 1]))
  }

  ghost predicate ImsiAsked(t: Tables, cs: seq<Connection>, q: string)
    requires Valid(t)
  {
    cs != [] &&
    (ImsiAsked(t, cs[..|cs| - 1], q) || q in AsksImsi(ReleaseConnections(t, cs[..|cs| - 1]), cs[|cs| - 1]))
  }

  lemma {:induction false} AskedAtItsTurn(t: Tables, cs: seq<Connection>, i: nat, k: nat)
    requires Valid(t) && i < |cs|
    ensures k in AsksRan(ReleaseConnections(t, cs[..i]), cs[i]) ==> RanAsked(t, cs, k)
    ensures k in AsksAmf(ReleaseConnections(t, cs[..i]), cs[i]) ==> AmfAsked(t, cs, k)
    decreases |cs|
  {
    var init := cs[..|cs| - 1];
    if i < |init| {
      assert init[..i] == cs[..i] && init[i] == cs[i];
      AskedAtItsTurn(t, init, i, k);
    }
  }

  /** What is left after a partial NG Reset: in each of the four maps exactly the entries that no listed connection asks
      for in its turn, unchanged. */
  lemma {:induction false} ConnectionsExact(t: Tables, cs: seq<Connection>, k: nat, q: string)
    requires Valid(t)
    ensures var t' := ReleaseConnections(t, cs);
            && (k in t'.byRan <==> k in t.byRan && !RanAsked(t, cs, k))
            && (k in t'.byAmf <==> k in t.byAmf && !AmfAsked(t, cs, k))
            && (k in t'.nasByAmf <==> k in t.nasByAmf && !AmfAsked(t, cs, k))
            && (q in t'.nasByImsi <==> q in t.nasByImsi && !ImsiAsked(t, cs, q))
            && (k in t'.byRan ==> t'.byRan[k] == t.byRan[k]) && (k in t'.byAmf ==> t'.byAmf[k] == t.byAmf[k])
            && (k in t'.nasByAmf ==> t'.nasByAmf[k] == t.nasByAmf[k])
            && (q in t'.nasByImsi ==> t'.nasByImsi[q] == t.nasByImsi[q])
  {
    if cs != [] {
      var init, last := cs[..|cs| - 1], cs[|cs| - 1];
      ConnectionsExact(t, init, k, q);
      ConnectionExact(ReleaseConnections(t, init), last);
    }
  }

  /** The IMSI entry of a NAS context is asked for with it. */
  lemma {:induction false} ImsiGoesWithNas(t: Tables, cs: seq<Connection>, m: nat)
    requires Valid(t) && m in t.nasByAmf && AmfAsked(t, cs, m)
    ensures ImsiAsked(t, cs, "imsi-" + t.nasByAmf[m].imsi)
  {
    var init, last := cs[..|cs| - 1], cs[|cs| - 1];
    var q := "imsi-" + t.nasByAmf[m].imsi;
    if AmfAsked(t, init, m) {
      ImsiGoesWithNas(t, init, m);
    } else {
      ConnectionsExact(t, init, m, q);
      assert m in ReleaseConnections(t, init).nasByAmf;
    }
  }

  /** After a partial NG Reset of a known association every listed AMF id is gone from the AMF-id map and the NAS maps,
      and so is every RAN id listed without one, with the entries of the context it led to at its turn. The RAN key of
      the NAS context of a listed AMF id is gone if the NAS context was still there at its turn. */
  lemma PartResetReleasesListed(s: N2, a: int, cs: seq<Connection>, i: nat)
    requires Sane(s) && a in s.core.assocs && i < |cs|
    ensures var t, t', t0 := s.t, OnPartReset(s, a, cs).t, ReleaseConnections(s.t, cs[..i]);
            && (forall m :: m in AsksAmf(t0, cs[i]) ==>
                  && m !in t'.byAmf && m !in t'.nasByAmf
                  && (m in t.nasByAmf ==> "imsi-" + t.nasByAmf[m].imsi !in t'.nasByImsi))
            && (cs[i].amf.Some? ==> cs[i].amf.value in AsksAmf(t0, cs[i]))
            && (cs[i].amf.Some? && cs[i].amf.value in t0.nasByAmf ==> t0.nasByAmf[cs[i].amf.value].ranId !in t'.byRan)
            && (cs[i].amf.None? && cs[i].ran.Some? ==> cs[i].ran.value !in t'.byRan)
            && (cs[i].amf.None? && cs[i].ran.Some? && cs[i].ran.value in t0.byRan ==>
                  t.contexts[t0.byRan[cs[i].ran.value]].amfId in AsksAmf(t0, cs[i]))
  {
    var t, t0 := s.t, ReleaseConnections(s.t, cs[..i]);
    forall m | m in AsksAmf(t0, cs[i])
      ensures var t' := OnPartReset(s, a, cs).t;
              && m !in t'.byAmf && m !in t'.nasByAmf
              && (m in t.nasByAmf ==> "imsi-" + t.nasByAmf[m].imsi !in t'.nasByImsi)
    {
      AskedAtItsTurn(t, cs, i, m);
      ConnectionsExact(t, cs, m, if m in t.nasByAmf then "imsi-" + t.nasByAmf[m].imsi else "");
      if m in t.nasByAmf {
        ImsiGoesWithNas(t, cs, m);
      }
    }
    forall k | k in AsksRan(t0, cs[i]) ensures k !in OnPartReset(s, a, cs).t.byRan {
      AskedAtItsTurn(t, cs, i, k);
      ConnectionsExact(t, cs, k, "");
    }
  }

  /** Which RAN keys survive a partial NG Reset. */
  lemma KeySurvivesPartResetIff(s: N2, a: int, cs: seq<Connection>, k: nat)
    requires Sane(s) && a in s.core.assocs
    ensures k in OnPartReset(s, a, cs).t.byRan <==> k in s.t.byRan && !RanAsked(s.t, cs, k)
  {
    ConnectionsExact(s.t, cs, k, "");
  }

  // ---------------------------------------------------------------- connecting UEs

  /** Of the contexts only u may have changed, and of the maps only what is said beside. */
  ghost predicate OnlyContext(t: Tables, t': Tables, u: nat) {
    && |t.contexts| <= |t'.contexts| && u < |t'.contexts|
    && (forall v: nat :: v < |t.contexts| && v != u ==> t'.contexts[v] == t.contexts[v])
    && t'.nasByAmf == t.nasByAmf && t'.nasByImsi == t.nasByImsi
  }

  /** Initial UE Message is ignored unless its association is known and past its first NG Setup, Reset or Shutdown. Else
      its RAN id leads to a context that has this RAN id and association: the one it led to, or a new one. */
  lemma InitialUeServes(s: N2, a: int, ran: nat)
    requires Sane(s)
    ensures var s' := OnInitialUe(s, a, ran);
            if a in s.core.assocs && s.core.assocs[a].ngState != NgapInit then
              && ran in s'.t.byRan && s'.t.byRan == s.t.byRan[ran := s'.t.byRan[ran]] && s'.t.byAmf == s.t.byAmf
              && var u := s'.t.byRan[ran];
                 && OnlyContext(s.t, s'.t, u) && s'.core == s.core && s'.sessions == s.sessions
                 && s'.t.contexts[u].ranId == ran && s'.t.contexts[u].assoc == a
                 && (if ran in s.t.byRan then u == s.t.byRan[ran] && s'.t.contexts[u].amfId == s.t.contexts[u].amfId
                     else u == |s.t.contexts| && |s'.t.contexts| == u + 1)
            else s' == s
  {
  }

  /** After Downlink NAS Transport for a UE whose gNB is known, and after the assignment of an AMF id, RAN id and AMF id
      lead to one context that has this AMF id. */
  ghost predicate Connects(s: N2, s': N2, ran: nat, amf: nat) {
    && ran in s.t.byRan && s'.t.byRan == s.t.byRan && s'.t.byAmf == s.t.byAmf[amf := s.t.byRan[ran]]
    && OnlyContext(s.t, s'.t, s.t.byRan[ran]) && |s'.t.contexts| == |s.t.contexts|
    && s'.t.contexts[s.t.byRan[ran]].amfId == amf && s'.core == s.core
  }

  lemma DlNasConnects(s: N2, ran: nat, amf: nat)
    requires Sane(s)
    ensures var s' := OnDlNas(s, ran, amf);
            if ran in s.t.byRan && s.t.contexts[s.t.byRan[ran]].assoc in s.core.assocs
            then Connects(s, s', ran, amf) && s'.t.contexts[s.t.byRan[ran]].state == UeConnected
            else s' == s
  {
  }

  lemma AssignConnects(s: N2, ran: nat, amf: nat)
    requires Sane(s)
    ensures var s' := OnAssignAmfId(s, ran, amf);
            if ran in s.t.byRan then Connects(s, s', ran, amf) else s' == s
  {
  }

  /** A connected UE can be handed over under both of its ids, to the context the RAN id leads to. */
  lemma ConnectedCanBeHandedOver(s: N2, s': N2, ran: nat, amf: nat, a: int)
    requires Sane(s) && Sane(s') && Connects(s, s', ran, amf) && a in s.core.assocs
    ensures RequiredAccepted(s', a, amf, ran, true) && s'.t.byRan[ran] == s'.t.byAmf[amf] == s.t.byRan[ran]
  {
  }

  // ---------------------------------------------------------------- sessions

  /** A shared session leads to the context of the other, and a removed one leads nowhere; no other session changes. */
  lemma SessionsSharedAndRemoved(s: N2, supi: string, id: nat, from: (string, nat))
    requires Sane(s) && !s.halted
    ensures var s' := N2Step(s, ShareSession(supi, id, from));
            && s'.accepted == s.accepted && s'.t == s.t
            && (from in s.sessions ==>
                  s'.sessions.Keys == s.sessions.Keys + {(supi, id)} && s'.sessions[(supi, id)] == s.sessions[from])
            && (from !in s.sessions ==> s' == s)
            && forall k :: k in s.sessions && k != (supi, id) ==> s'.sessions[k] == s.sessions[k]
    ensures var s' := N2Step(s, RemoveSession(supi, id));
            && s'.sessions.Keys == s.sessions.Keys - {(supi, id)} && s'.accepted == s.accepted && s'.t == s.t
            && forall k :: k in s'.sessions ==> s'.sessions[k] == s.sessions[k]
  {
  }

  /** A new session has a context of its own, and the flag of that is down. */
  lemma AddedSessionIsNew(s: N2, supi: string, id: nat)
    requires Sane(s)
    ensures var s' := OnAddSession(s, supi, id);
            if (supi, id) in s.sessions then s' == s
            else && s'.sessions.Keys == s.sessions.Keys + {(supi, id)}
                 && (forall k :: k in s.sessions ==>
                       s'.sessions[k] == s.sessions[k] && s'.sessions[k] != s'.sessions[(supi, id)])
                 && !s'.accepted[s'.sessions[(supi, id)]] && s'.t == s.t && s'.core == s.core
  {
  }
}
