/** The N2 task as an object: handlers that update shared UE contexts and the maps leading to them, each tied to its
    step of the state machine. */
module AmfN2 {
  import opened Numerals
  import opened Responses
  import opened Slices
  import opened GnbLifecycle
  import opened UeContexts
  import opened N2Handlers
  import Handover
  import N2Runs

  class UeNgapContext {
    var ranId: nat
    var amfId: nat
    var targetRanId: nat
    var assoc: int
    var targetAssoc: int
    var state: UeState
    var ncc: uint8
    /** Which context this is, in order of creation. */
    ghost const index: nat

    constructor (ghost index: nat)
      ensures Value() == NEW_UE_CONTEXT && this.index == index
    {
      this.index := index;
      ranId, amfId, targetRanId := 0, 0, 0;
      assoc, targetAssoc := 0, 0;
      state, ncc := UeInvalid, 0;
    }

    ghost function Value(): UeContext
      reads this
    {
      UeContext(ranId, amfId, targetRanId, assoc, targetAssoc, state, ncc)
    }
  }

  function ReplyFor(replies: map<nat, Reply>, id: nat): Reply {
    if id in replies then replies[id] else TimedOut
  }

  // ---------------------------------------------------------------- waiting

  lemma AnsweredStep(ids: seq<nat>, replies: map<nat, Reply>, id: nat)
    ensures AnsweredOf(ids + [id], replies)
         == if Answered(replies, id) then AnsweredOf(ids, replies) + [id] else AnsweredOf(ids, replies)
  {
    assert (ids + [id])[..|ids + [id]| - 1] == ids;
  }

  lemma NextKey(visited: seq<nat>, keys: set<nat>)
    requires keys != {}
    ensures visited + SortedKeys(keys) == visited + [Least(keys)] + SortedKeys(keys - {Least(keys)})
  {
    Numerals.Associate(visited, [Least(keys)], SortedKeys(keys - {Least(keys)}));
  }

  /** Each response is the reply to its id. */
  ghost predicate RepliesTo(responses: map<nat, Reply>, replies: map<nat, Reply>) {
    forall id :: id in responses ==> responses[id] == ReplyFor(replies, id)
  }

  /** The waiting loop of Handover Required: the sessions the SMF answered for, in key order. */
  method WaitForAnswers(responses0: map<nat, Reply>, ghost replies: map<nat, Reply>) returns (answered: seq<nat>)
    requires RepliesTo(responses0, replies)
    ensures answered == AnsweredOf(SortedKeys(responses0.Keys), replies)
  {
    var responses := responses0;
    ghost var visited: seq<nat> := [];
    answered := [];
    while responses.Keys != {}
      invariant SortedKeys(responses0.Keys) == visited + SortedKeys(responses.Keys)
      invariant RepliesTo(responses, replies)
      invariant answered == AnsweredOf(visited, replies)
      decreases |responses.Keys|
    {
      var first := Least(responses.Keys);
      NextKey(visited, responses.Keys);
      AnsweredStep(visited, replies, first);
      FirstResponse(responses);
      match responses[first] {
        case Ready(body) =>
          if |body| > 0 {
            answered := answered + [first];
          }
        case TimedOut =>
      }
      assert (responses - {first}).Keys == responses.Keys - {first};
      responses, visited := responses - {first}, visited + [first];
    }
    assert visited + [] == visited;
  }

  lemma UpdatesStep(amf: nat, ran: nat, ids: seq<nat>, id: nat, ho: HoState)
    ensures Updates(amf, ran, ids + [id], ho) == Updates(amf, ran, ids, ho) + [SmUpdate(amf, ran, id, ho)]
  {
    assert (ids + [id])[..|ids + [id]| - 1] == ids;
  }

  lemma ExistingStep(sessions: map<(string, nat), nat>, supi: string, ids: seq<nat>, i: nat)
    requires i < |ids|
    ensures Existing(sessions, supi, ids[..i + 1])
         == if (supi, ids[i]) in sessions then Existing(sessions, supi, ids[..i]) + [ids[i]]
            else Existing(sessions, supi, ids[..i])
  {
    assert ids[..i + 1][..i] == ids[..i];
  }

  lemma WaitedMore(ids: seq<nat>, id: nat)
    ensures IdSet(ids + [id]) == IdSet(ids) + {id}
  {
  }

  lemma CollectStep(t: Tables, a: int, keys: seq<nat>, n: nat)
    requires UeContexts.Valid(t) && n < |keys| && forall k :: k in keys ==> k in t.byRan
    ensures CollectFrom(t, a, keys[..n + 1])
         == CollectFrom(t, a, keys[..n])
            + if t.contexts[t.byRan[keys[n]]].assoc == a then [t.byRan[keys[n]]] else []
  {
    assert keys[..n + 1][..n] == keys[..n] && keys[n] in keys;
  }

  // ---------------------------------------------------------------- gNBs

  /** The gNB tables of the NGAP application and the statistics, and the configured PLMN list. `open` and `update` say
      where the two threads are that handle NG Setup and updates; each method is one step, or a handler that runs to its
      end without another thread's step in between. */
  class GnbTables {
    var plmnList: seq<PlmnItem>
    var assocs: map<int, GnbContext>
    var gnbIds: map<int, int>
    var gnbs: map<int, seq<TaItem>>
    ghost var open: Option<Pending>
    ghost var update: Option<ConfigJson>

    ghost function Value(): Core
      reads this
    {
      Core(plmnList, assocs, gnbIds, gnbs, open, update)
    }

    constructor (plmnList: seq<PlmnItem>)
      ensures Value() == Init(plmnList)
    {
      this.plmnList := plmnList;
      assocs, gnbIds, gnbs, open, update := map[], map[], map[], None, None;
    }

    method HandleNewAssociation(a: int)
      modifies this
      ensures Value() == NewAssociation(old(Value()), a)
    {
      var gc := if a in assocs then assocs[a] else GnbContext(NgapInit, 0, []);
      assocs := assocs[a := gc.(ngState := NgapInit)];
    }

    /** NG Setup up to the intersection; returns whether a slice is shared. */
    method BeginNgSetup(a: int, req: SetupRequest) returns (ok: bool)
      requires open.None?
      modifies this
      ensures Value() == BeginSetup(old(Value()), a, req)
      ensures ok <==> SetupAccepted(old(Value()), a, req)
    {
      ok := false;
      if a in assocs && req.gnbId.Some? {
        var gc := assocs[a].(globalRanNodeId := req.gnbId.value);
        if req.pagingDrx && req.taList.Some? {
          var list;
          ok, list := GetCommonPlmn(plmnList, req.taList.value, gc.taList);
          gc := gc.(taList := list);
          if ok {
            open := Some(Pending(a, req.gnbId.value));
          }
        }
        assocs := assocs[a := gc];
      }
    }

    /** The rest of an NG Setup that is answered with a setup response. */
    method EndNgSetup(a: int, g: uint32)
      requires open == Some(Pending(a, g)) && a in assocs
      modifies this
      ensures Value() == EndSetup(old(Value()))
    {
      gnbIds := gnbIds[g := a];
      assocs := assocs[a := assocs[a].(ngState := NgapReady)];
      if g !in gnbs {
        gnbs := gnbs[g := assocs[a].taList];
      }
      open := None;
    }

    /** Returns whether a setup response, rather than a failure or nothing, was sent. */
    method HandleNgSetup(a: int, req: SetupRequest) returns (ok: bool)
      requires open.None?
      modifies this
      ensures Value() == NgSetup(old(Value()), a, req)
      ensures ok <==> SetupAccepted(old(Value()), a, req)
    {
      ok := BeginNgSetup(a, req);
      if ok {
        EndNgSetup(a, req.gnbId.value);
      }
    }

    method SetState(a: int, state: NgState)
      requires a in assocs
      modifies `assocs
      ensures assocs == old(assocs)[a := old(assocs)[a].(ngState := state)]
    {
      assocs := assocs[a := assocs[a].(ngState := state)];
    }

    /** The end of the Shutdown handler. */
    method RemoveGnb(a: int)
      requires a in assocs
      modifies `gnbIds, `gnbs
      ensures gnbIds == old(gnbIds) - {a} && gnbs == old(gnbs) - {assocs[a].globalRanNodeId}
    {
      if a in gnbIds {
        gnbIds := gnbIds - {a};
      }
      if assocs[a].globalRanNodeId in gnbs {
        gnbs := gnbs - {assocs[a].globalRanNodeId};
      }
      assert a !in old(gnbIds) ==> old(gnbIds) - {a} == old(gnbIds);
      assert assocs[a].globalRanNodeId !in old(gnbs) ==> old(gnbs) - {assocs[a].globalRanNodeId} == old(gnbs);
    }

    /** The gate; returns whether no gNB is recorded. */
    method PassGate(json: ConfigJson) returns (allowed: bool)
      requires update.None?
      modifies `update
      ensures Value() == CheckUpdate(old(Value()), json)
      ensures allowed <==> UpdateAllowed(old(Value()))
    {
      allowed := |gnbs| == 0;
      if allowed {
        update := Some(json);
      }
    }

    method FromJson(json: ConfigJson) returns (ok: bool)
      requires update == Some(json)
      modifies `plmnList, `update
      ensures Value() == WriteUpdate(old(Value()))
      ensures ok == json.ok
    {
      if json.plmnList.Some? {
        plmnList := json.plmnList.value;
      }
      update := None;
      ok := json.ok;
    }

    /** Returns whether the new configuration was taken. */
    method HandleUpdate(json: ConfigJson) returns (ok: bool)
      requires update.None?
      modifies `plmnList, `update
      ensures Value() == UpdateConfig(old(Value()), json)
      ensures ok <==> UpdateAllowed(old(Value())) && json.ok
    {
      ok := false;
      var allowed := PassGate(json);
      if allowed {
        ok := FromJson(json);
      }
    }
  }

  // ---------------------------------------------------------------- UE contexts, handover

  /** The map leads to the contexts that the references stand for. */
  ghost predicate Refers(contexts: seq<UeNgapContext>, m: map<nat, UeNgapContext>, r: map<nat, nat>) {
    m.Keys == r.Keys && forall k :: k in m ==> r[k] < |contexts| && m[k] == contexts[r[k]]
  }

  /** The listed contexts are those that the references stand for. */
  ghost predicate StandFor(contexts: seq<UeNgapContext>, found: seq<UeNgapContext>, us: seq<nat>) {
    |found| == |us| && forall i :: 0 <= i < |us| ==> us[i] < |contexts| && found[i] == contexts[us[i]]
  }

  lemma RemoveByAmfParts(t: Tables, id: nat)
    requires UeContexts.Valid(t)
    ensures var t' := RemoveByAmf(t, id);
            && UeContexts.Valid(t') && t'.contexts == t.contexts && t'.byAmf == t.byAmf - {id}
            && (id !in t.nasByAmf ==> t'.byRan == t.byRan && t'.nasByAmf == t.nasByAmf && t'.nasByImsi == t.nasByImsi)
            && (id in t.nasByAmf ==>
                  && t'.byRan == t.byRan - {t.nasByAmf[id].ranId} && t'.nasByAmf == t.nasByAmf - {id}
                  && t'.nasByImsi == t.nasByImsi - {ImsiKey(t.nasByAmf[id])})
  {
  }

  lemma RemoveByRanParts(t: Tables, ran: nat)
    requires UeContexts.Valid(t) && ran in t.byRan
    ensures var t', amf := RemoveByRan(t, ran), t.contexts[t.byRan[ran]].amfId;
            && UeContexts.Valid(t')
            && t'.contexts == t.contexts && t'.byRan == t.byRan - {ran} && t'.byAmf == t.byAmf - {amf}
            && t'.nasByAmf == (if amf in t.nasByAmf then t.nasByAmf - {amf} else t.nasByAmf)
            && t'.nasByImsi == (if amf in t.nasByAmf then t.nasByImsi - {ImsiKey(t.nasByAmf[amf])} else t.nasByImsi)
  {
  }

  lemma ShutdownParts(s: N2, a: int)
    requires Sane(s) && a in s.core.assocs && !Busy(s.core)
    ensures OnLifecycle(s, Shutdown(a)) == s.(core := NgShutdown(s.core, a), t := ReleaseAll(s.t, a))
  {
  }

  lemma ResetParts(s: N2, a: int)
    requires Sane(s) && a in s.core.assocs && !Busy(s.core)
    ensures OnLifecycle(s, Reset(a)) == s.(core := NgReset(s.core, a), t := ReleaseAll(s.t, a))
  {
  }

  lemma NotifyParts(s: N2, a: int, amf: nat, ran: nat, located: bool)
    requires Sane(s) && NotifyHandled(s, a, amf, located)
    ensures var u, (s', out) := s.t.byAmf[amf], OnNotify(s, a, amf, ran, located);
            && s' == s.(t := Switched(s.t, u, a, ran))
            && out == Updates(amf, ran, SortedKeys(AcceptedIds(s, ImsiKey(s.t.nasByAmf[amf]))), Completed)
                      + [ReleaseCommand(s.t.contexts[u].assoc, amf, s.t.contexts[u].ranId)]
  {
  }

  /** The tables after the context under the RAN id was found or created and written. */
  ghost function TakenOver(t: Tables, a: int, ran: nat): (t': Tables)
    requires UeContexts.Valid(t)
    ensures UeContexts.Valid(t')
  {
    var found := if ran in t.byRan then t
                 else t.(contexts := t.contexts + [NEW_UE_CONTEXT], byRan := t.byRan[ran := |t.contexts|]);
    var u := found.byRan[ran];
    Put(found, u, found.contexts[u].(ranId := ran, assoc := a))
  }

  lemma InitialUeParts(s: N2, a: int, ran: nat)
    requires Sane(s) && a in s.core.assocs && !s.core.assocs[a].ngState.NgapInit?
    ensures OnInitialUe(s, a, ran) == s.(t := TakenOver(s.t, a, ran))
  {
    var c := NEW_UE_CONTEXT.(ranId := ran, assoc := a);
    assert (s.t.contexts + [NEW_UE_CONTEXT])[|s.t.contexts| := c] == s.t.contexts + [c];
  }

  lemma RefersWithout(contexts: seq<UeNgapContext>, m: map<nat, UeNgapContext>, r: map<nat, nat>, k: nat)
    requires Refers(contexts, m, r)
    ensures Refers(contexts, m - {k}, r - {k})
  {
  }

  lemma RefersAfterAmf(contexts: seq<UeNgapContext>, ranIds: map<nat, UeNgapContext>, amfIds: map<nat, UeNgapContext>,
                       t: Tables, id: nat)
    requires Refers(contexts, ranIds, t.byRan) && Refers(contexts, amfIds, t.byAmf)
    ensures Refers(contexts, amfIds - {id}, RemoveByAmf(t, id).byAmf)
    ensures Refers(contexts, if id in t.nasByAmf then ranIds - {t.nasByAmf[id].ranId} else ranIds,
                   RemoveByAmf(t, id).byRan)
  {
  }

  class N2Task {
    const gnb: GnbTables
    var ranIds: map<nat, UeNgapContext>
    var amfIds: map<nat, UeNgapContext>
    var nasByAmf: map<nat, NasContext>
    var nasByImsi: map<string, NasContext>
    /** PDU session contexts by SUPI and id: positions in the list of their is_ho_accepted flags. */
    var sessions: map<(string, nat), nat>
    var accepted: seq<bool>
    /** An exception that nothing catches has ended the process. */
    var halted: bool

    /** The abstract state; a reference in it is a position in the list of all contexts ever created. */
    ghost var t: Tables
    ghost var contexts: seq<UeNgapContext>

    ghost function Value(): N2
      reads this, gnb
    {
      N2(gnb.Value(), t, sessions, accepted, halted)
    }

    ghost predicate ContextsMatch()
      reads `contexts, `t, contexts
    {
      && |contexts| == |t.contexts|
      && (forall i :: 0 <= i < |contexts| ==> contexts[i].index == i && contexts[i].Value() == t.contexts[i])
    }

    ghost predicate MapsMatch()
      reads `contexts, `t, `ranIds, `amfIds, `nasByAmf, `nasByImsi
    {
      && Refers(contexts, ranIds, t.byRan) && Refers(contexts, amfIds, t.byAmf)
      && nasByAmf == t.nasByAmf && nasByImsi == t.nasByImsi
    }

    ghost predicate TablesMatch()
      reads `contexts, `t, `ranIds, `amfIds, `nasByAmf, `nasByImsi, contexts
    {
      UeContexts.Valid(t) && ContextsMatch() && MapsMatch()
    }

    ghost predicate Represents()
      reads this, contexts
    {
      TablesMatch() && forall k :: k in sessions ==> sessions[k] < |accepted|
    }

    constructor (plmnList: seq<PlmnItem>)
      ensures Represents() && Value() == Start(plmnList) && fresh(gnb)
    {
      gnb := new GnbTables(plmnList);
      ranIds, amfIds, nasByAmf, nasByImsi, sessions := map[], map[], map[], map[], map[];
      t, contexts, accepted, halted := EMPTY_TABLES, [], [], false;
    }

    // -------------------------------------------------------------- removal

    method RemoveUeContextWithAmfUeNgapId(id: nat)
      requires TablesMatch()
      modifies `ranIds, `amfIds, `nasByAmf, `nasByImsi, `t
      ensures TablesMatch() && t == RemoveByAmf(old(t), id)
    {
      RemoveByAmfParts(t, id);
      RefersAfterAmf(contexts, ranIds, amfIds, t, id);
      if id in nasByAmf {
        var nc := nasByAmf[id];
        nasByImsi := nasByImsi - {ImsiKey(nc)};
        nasByAmf := nasByAmf - {id};
        ranIds := ranIds - {nc.ranId};
      }
      amfIds := amfIds - {id};
      t := RemoveByAmf(t, id);
    }

    method RemoveUeContextWithRanUeNgapId(ran: nat)
      requires TablesMatch()
      modifies `ranIds, `amfIds, `nasByAmf, `nasByImsi, `t
      ensures TablesMatch() && t == RemoveByRan(old(t), ran)
    {
      if ran in ranIds {
        var amf := ranIds[ran].amfId;
        assert ranIds[ran].Value() == t.contexts[t.byRan[ran]];
        RefersWithout(contexts, amfIds, t.byAmf, amf);
        RefersWithout(contexts, ranIds, t.byRan, ran);
        RemoveByRanParts(t, ran);
        if amf in nasByAmf {
          nasByImsi := nasByImsi - {ImsiKey(nasByAmf[amf])};
          nasByAmf := nasByAmf - {amf};
        }
        amfIds := amfIds - {amf};
        ranIds := ranIds - {ran};
        t := RemoveByRan(t, ran);
      }
    }

    method ContextsAlong(a: int, keys: seq<nat>) returns (found: seq<UeNgapContext>, ghost us: seq<nat>)
      requires TablesMatch() && forall k :: k in keys ==> k in t.byRan
      ensures us == CollectFrom(t, a, keys) && StandFor(contexts, found, us)
    {
      found, us := [], [];
      for n := 0 to |keys|
        invariant us == CollectFrom(t, a, keys[..n]) && StandFor(contexts, found, us)
      {
        CollectStep(t, a, keys, n);
        assert keys[n] in keys;
        var unc := ranIds[keys[n]];
        assert unc.Value() == t.contexts[t.byRan[keys[n]]];
        if unc.assoc == a {
          found, us := found + [unc], us + [t.byRan[keys[n]]];
        }
      }
      assert keys[..|keys|] == keys;
    }

    /** The contexts of one association, in the order of their keys. */
    method GetUeNgapContexts(a: int) returns (found: seq<UeNgapContext>, ghost us: seq<nat>)
      requires TablesMatch()
      ensures us == Collect(t, a) && StandFor(contexts, found, us)
    {
      SortedKeysAreSorted(ranIds.Keys);
      found, us := ContextsAlong(a, SortedKeys(ranIds.Keys));
    }

    method ReleaseUe(unc: UeNgapContext, ghost u: nat)
      requires TablesMatch() && u < |contexts| && unc == contexts[u]
      modifies `ranIds, `amfIds, `nasByAmf, `nasByImsi, `t
      ensures TablesMatch() && t == ReleaseOne(old(t), u)
    {
      RemoveUeContextWithAmfUeNgapId(unc.amfId);
      RemoveUeContextWithRanUeNgapId(unc.ranId);
    }

    method ReleaseFound(found: seq<UeNgapContext>, ghost us: seq<nat>)
      requires TablesMatch() && StandFor(contexts, found, us) && AllRefs(t, us)
      modifies `ranIds, `amfIds, `nasByAmf, `nasByImsi, `t
      ensures TablesMatch() && t == ReleaseEach(old(t), us)
    {
      for i := 0 to |found|
        invariant TablesMatch() && t == ReleaseEach(old(t), us[..i])
      {
        assert us[..i + 1][..i] == us[..i];
        ReleaseUe(found[i], us[i]);
      }
      assert us[..|us|] == us;
    }

    /** The release loop of NG Reset and Shutdown. */
    method ReleaseUes(a: int)
      requires Represents()
      modifies `ranIds, `amfIds, `nasByAmf, `nasByImsi, `t
      ensures Represents() && Value() == old(Value()).(t := ReleaseAll(old(t), a))
    {
      var found, us := GetUeNgapContexts(a);
      ReleaseFound(found, us);
    }

    method HandleNgReset(a: int)
      requires Represents() && gnb.open.None?
      modifies gnb, `ranIds, `amfIds, `nasByAmf, `nasByImsi, `t
      ensures Represents() && Value() == OnLifecycle(old(Value()), Reset(a))
    {
      if a in gnb.assocs {
        ResetParts(Value(), a);
        gnb.SetState(a, NgapReseting);
        ReleaseUes(a);
      }
    }

    method Release(c: Connection)
      requires TablesMatch()
      modifies `ranIds, `amfIds, `nasByAmf, `nasByImsi, `t
      ensures TablesMatch() && t == ReleaseConnection(old(t), c)
    {
      if c.amf.Some? {
        RemoveUeContextWithAmfUeNgapId(c.amf.value);
      } else if c.ran.Some? {
        RemoveUeContextWithRanUeNgapId(c.ran.value);
      }
    }

    method ReleaseListed(connections: seq<Connection>)
      requires TablesMatch()
      modifies `ranIds, `amfIds, `nasByAmf, `nasByImsi, `t
      ensures TablesMatch() && t == ReleaseConnections(old(t), connections)
    {
      for i := 0 to |connections|
        invariant TablesMatch() && t == ReleaseConnections(old(t), connections[..i])
      {
        assert connections[..i + 1][..i] == connections[..i];
        Release(connections[i]);
      }
      assert connections[..|connections|] == connections;
    }

    method HandlePartNgReset(a: int, connections: seq<Connection>)
      requires Represents()
      modifies gnb, `ranIds, `amfIds, `nasByAmf, `nasByImsi, `t
      ensures Represents() && Value() == OnPartReset(old(Value()), a, connections)
    {
      if a in gnb.assocs {
        gnb.SetState(a, NgapReseting);
        ReleaseListed(connections);
      }
    }

    method HandleNgShutdown(a: int)
      requires Represents() && gnb.open.None?
      modifies gnb, `ranIds, `amfIds, `nasByAmf, `nasByImsi, `t
      ensures Represents() && Value() == OnLifecycle(old(Value()), Shutdown(a))
    {
      if a in gnb.assocs {
        ShutdownParts(Value(), a);
        gnb.SetState(a, NgapShutdown);
        ReleaseUes(a);
        gnb.RemoveGnb(a);
        assert gnb.Value() == NgShutdown(old(gnb.Value()), a);
      }
    }

    // -------------------------------------------------------------- UE contexts

    /** Brings the abstract state up to date after a context was written. */
    ghost method Record(u: nat)
      requires UeContexts.Valid(t) && MapsMatch() && u < |contexts| == |t.contexts|
      requires forall i :: 0 <= i < |contexts| ==>
                 contexts[i].index == i && (i != u ==> contexts[i].Value() == t.contexts[i])
      modifies `t
      ensures TablesMatch() && t == Put(old(t), u, contexts[u].Value())
    {
      t := Put(t, u, contexts[u].Value());
    }

    /** set_amf_ue_ngap_id_2_ue_ngap_context. */
    method SetAmfUeNgapId(amf: nat, unc: UeNgapContext)
      requires TablesMatch() && unc.index < |contexts| && contexts[unc.index] == unc
      modifies `amfIds, `t
      ensures TablesMatch() && t == old(t).(byAmf := old(t).byAmf[amf := unc.index])
    {
      amfIds := amfIds[amf := unc];
      t := t.(byAmf := t.byAmf[amf := unc.index]);
    }

    /** set_ran_ue_ngap_id_2_ue_ngap_context. */
    method SetRanUeNgapId(ran: nat, unc: UeNgapContext)
      requires TablesMatch() && unc.index < |contexts| && contexts[unc.index] == unc
      modifies `ranIds, `t
      ensures TablesMatch() && t == old(t).(byRan := old(t).byRan[ran := unc.index])
    {
      ranIds := ranIds[ran := unc];
      t := t.(byRan := t.byRan[ran := unc.index]);
    }

    /** is_ran_ue_id_2_ue_ngap_context. */
    method FindByRanId(ran: nat) returns (unc: UeNgapContext)
      requires TablesMatch() && ran in ranIds
      ensures unc == contexts[t.byRan[ran]] && unc.index == t.byRan[ran] && unc.Value() == t.contexts[t.byRan[ran]]
    {
      unc := ranIds[ran];
    }

    method FindOrCreate(ran: nat) returns (unc: UeNgapContext)
      requires TablesMatch()
      modifies `ranIds, `t, `contexts
      ensures TablesMatch() && ran in t.byRan && unc.index == t.byRan[ran] && unc == contexts[t.byRan[ran]]
      ensures ran in old(t).byRan ==> t == old(t) && contexts == old(contexts)
      ensures ran !in old(t).byRan ==> fresh(unc) && contexts == old(contexts) + [unc]
      ensures ran !in old(t).byRan ==>
                t == old(t).(contexts := old(t).contexts + [NEW_UE_CONTEXT],
                             byRan := old(t).byRan[ran := |old(contexts)|])
    {
      if ran in ranIds {
        unc := FindByRanId(ran);
      } else {
        unc := new UeNgapContext(|contexts|);
        contexts, t := contexts + [unc], t.(contexts := t.contexts + [NEW_UE_CONTEXT]);
        SetRanUeNgapId(ran, unc);
      }
    }

    method ServeFrom(unc: UeNgapContext, a: int, ran: nat)
      requires TablesMatch() && unc.index < |contexts| && contexts[unc.index] == unc
      modifies unc, `t
      ensures TablesMatch() && t == Put(old(t), unc.index, old(t).contexts[unc.index].(ranId := ran, assoc := a))
    {
      unc.ranId, unc.assoc := ran, a;
      Record(unc.index);
    }

    method TakeOver(a: int, ran: nat)
      requires Represents()
      modifies `ranIds, `t, `contexts, if ran in ranIds then {ranIds[ran]} else {}
      ensures Represents() && Value() == old(Value()).(t := TakenOver(old(t), a, ran))
      ensures old(contexts) <= contexts && fresh(contexts[|old(contexts)|..])
    {
      var unc := FindOrCreate(ran);
      ServeFrom(unc, a, ran);
    }

    method HandleInitialUe(a: int, ran: nat)
      requires Represents()
      modifies `ranIds, `t, `contexts, if ran in ranIds then {ranIds[ran]} else {}
      ensures Represents() && Value() == OnInitialUe(old(Value()), a, ran)
      ensures old(contexts) <= contexts && fresh(contexts[|old(contexts)|..])
    {
      if a in gnb.assocs && !gnb.assocs[a].ngState.NgapInit? {
        InitialUeParts(Value(), a, ran);
        TakeOver(a, ran);
      }
    }

    /** The part of amf_app that gives a UE its AMF id. */
    method AssignAmfUeNgapId(ran: nat, amf: nat)
      requires Represents()
      modifies `amfIds, `t, if ran in ranIds then {ranIds[ran]} else {}
      ensures Represents() && Value() == OnAssignAmfId(old(Value()), ran, amf)
    {
      if ran in ranIds {
        var unc := FindByRanId(ran);
        SetAmfId(unc, amf);
        SetAmfUeNgapId(amf, unc);
      }
    }

    method HandleDlNasTransport(ran: nat, amf: nat)
      requires Represents()
      modifies `amfIds, `t, if ran in ranIds then {ranIds[ran]} else {}
      ensures Represents() && Value() == OnDlNas(old(Value()), ran, amf)
    {
      if ran in ranIds {
        var unc := FindByRanId(ran);
        if unc.assoc in gnb.assocs {
          Connect(unc, amf);
        }
      }
    }

    method Connect(unc: UeNgapContext, amf: nat)
      requires Represents() && unc.index < |contexts| && contexts[unc.index] == unc
      modifies unc, `amfIds, `t
      ensures var s, u := old(Value()), unc.index;
              && u < |s.t.contexts| && Represents()
              && Value() == s.(t := Put(s.t, u, s.t.contexts[u].(amfId := amf, state := UeConnected))
                                      .(byAmf := s.t.byAmf[amf := u]))
    {
      SetConnected(unc, amf);
      SetAmfUeNgapId(amf, unc);
    }

    method SetConnected(unc: UeNgapContext, amf: nat)
      requires TablesMatch() && unc.index < |contexts| && contexts[unc.index] == unc
      modifies unc, `t
      ensures TablesMatch()
      ensures t == Put(old(t), unc.index, old(t).contexts[unc.index].(amfId := amf, state := UeConnected))
    {
      unc.amfId, unc.state := amf, UeConnected;
      Record(unc.index);
    }

    method SetAmfId(unc: UeNgapContext, amf: nat)
      requires TablesMatch() && unc.index < |contexts| && contexts[unc.index] == unc
      modifies unc, `t
      ensures TablesMatch() && t == Put(old(t), unc.index, old(t).contexts[unc.index].(amfId := amf))
    {
      unc.amfId := amf;
      Record(unc.index);
    }

    method HandleInitialContextSetup(ran: nat)
      requires Represents()
      modifies `t, if ran in ranIds then {ranIds[ran]} else {}
      ensures Represents() && Value() == OnContextSetup(old(Value()), ran)
    {
      if ran in ranIds {
        var unc := FindByRanId(ran);
        unc.ncc := 1;
        Record(unc.index);
      }
    }

    /** get_common_NSSAI. */
    method GetCommonNssai(ran: nat) returns (found: bool, nssai: seq<NasSlice>)
      requires Represents()
      ensures nssai == N2Runs.CommonNssaiOf(Value(), ran)
      ensures found <==> nssai != []
    {
      found, nssai := false, [];
      if ran in ranIds {
        var unc := FindByRanId(ran);
        if unc.assoc in gnb.assocs {
          found, nssai := Slices.GetCommonNssai(gnb.assocs[unc.assoc].taList, []);
          assert [] + CommonNssai(gnb.assocs[unc.assoc].taList) == CommonNssai(gnb.assocs[unc.assoc].taList);
        }
      }
    }

    // -------------------------------------------------------------- handover

    /** Asks the SMF to prepare each listed session that exists; one response is kept per id. */
    method ReportPreparing(amf: nat, ran: nat, supi: string, items: seq<nat>, replies: map<nat, Reply>)
      returns (out: seq<Output>, responses: map<nat, Reply>)
      ensures out == Updates(amf, ran, Existing(sessions, supi, items), Preparing)
      ensures responses.Keys == IdSet(Existing(sessions, supi, items)) && RepliesTo(responses, replies)
    {
      out, responses := [], map[];
      for i := 0 to |items|
        invariant out == Updates(amf, ran, Existing(sessions, supi, items[..i]), Preparing)
        invariant responses.Keys == IdSet(Existing(sessions, supi, items[..i])) && RepliesTo(responses, replies)
      {
        ExistingStep(sessions, supi, items, i);
        if (supi, items[i]) in sessions {
          UpdatesStep(amf, ran, Existing(sessions, supi, items[..i]), items[i], Preparing);
          WaitedMore(Existing(sessions, supi, items[..i]), items[i]);
          out, responses := out + [SmUpdate(amf, ran, items[i], Preparing)], Emplace(responses, items[i], replies);
        }
      }
      assert items[..|items|] == items;
    }

    method HandleHandoverRequired(a: int, amf: nat, ran: nat, intra5gs: bool, target: int, items: seq<nat>,
                                  replies: map<nat, Reply>) returns (out: seq<Output>)
      requires Represents()
      modifies `t, `halted, if ran in ranIds then {ranIds[ran]} else {}
      ensures Represents()
      ensures (Value(), out) == OnRequired(old(Value()), a, amf, ran, intra5gs, target, items, replies)
    {
      out := [];
      if a in gnb.assocs && ran in ranIds {
        var unc := FindByRanId(ran);
        if unc.amfId == amf && intra5gs {
          StartHandover(unc, a);
          assert Value() == old(Value()).(t := t);
          out := ContinueHandover(unc, amf, ran, target, items, replies);
        }
      }
    }

    method ContinueHandover(unc: UeNgapContext, amf: nat, ran: nat, target: int, items: seq<nat>,
                            replies: map<nat, Reply>) returns (out: seq<Output>)
      requires Represents() && unc.index < |contexts| && contexts[unc.index] == unc
      modifies unc, `t, `halted
      ensures Represents()
      ensures (Value(), out) == Prepare(old(Value()), unc.index, amf, ran, target, items, replies)
    {
      out := [];
      assert unc.Value() == t.contexts[unc.index];
      if amf in nasByAmf && nasByAmf[amf].hasSecurity {
        var responses;
        out, responses := ReportPreparing(amf, ran, ImsiKey(nasByAmf[amf]), items, replies);
        var ids := WaitForAnswers(responses, replies);
        if target in gnb.gnbIds {
          SetTarget(unc, gnb.gnbIds[target]);
          out := out + [HandoverRequest(gnb.gnbIds[target], amf, unc.ncc, ids)];
        } else {
          halted := true;
        }
      }
    }

    method StartHandover(unc: UeNgapContext, a: int)
      requires TablesMatch() && unc.index < |contexts| && contexts[unc.index] == unc
      modifies unc, `t
      ensures TablesMatch()
      ensures t == Put(old(t), unc.index, Started(old(t).contexts[unc.index], a))
    {
      unc.assoc := a;
      unc.ncc := (unc.ncc + 1) % 0x100;
      unc.state := UeHandover;
      Record(unc.index);
    }

    method SetTarget(unc: UeNgapContext, target: int)
      requires TablesMatch() && unc.index < |contexts| && contexts[unc.index] == unc
      modifies unc, `t
      ensures TablesMatch() && t == Put(old(t), unc.index, old(t).contexts[unc.index].(targetAssoc := target))
      ensures unc.ncc == old(unc.ncc)
    {
      unc.targetAssoc := target;
      Record(unc.index);
    }

    /** is_amf_ue_id_2_ue_ngap_context. */
    method FindByAmfId(amf: nat) returns (unc: UeNgapContext)
      requires TablesMatch() && amf in amfIds
      ensures unc == contexts[t.byAmf[amf]] && unc.index == t.byAmf[amf] && unc.Value() == t.contexts[t.byAmf[amf]]
    {
      unc := amfIds[amf];
    }

    method ReportPrepared(amf: nat, ran: nat, ids: seq<nat>, replies: map<nat, Reply>)
      returns (out: seq<Output>, responses: map<nat, Reply>)
      ensures out == Updates(amf, ran, ids, Prepared)
      ensures responses.Keys == IdSet(ids) && RepliesTo(responses, replies)
    {
      out, responses := [], map[];
      for i := 0 to |ids|
        invariant out == Updates(amf, ran, ids[..i], Prepared)
        invariant responses.Keys == IdSet(ids[..i]) && RepliesTo(responses, replies)
      {
        assert ids[..i + 1] == ids[..i] + [ids[i]];
        UpdatesStep(amf, ran, ids[..i], ids[i], Prepared);
        WaitedMore(ids[..i], ids[i]);
        out, responses := out + [SmUpdate(amf, ran, ids[i], Prepared)], Emplace(responses, ids[i], replies);
      }
      assert ids[..|ids|] == ids;
    }

    /** The waiting loop of Handover Request Ack. */
    method WaitAndAccept(responses0: map<nat, Reply>, supi: string, ghost replies: map<nat, Reply>)
      returns (answered: seq<nat>)
      requires RepliesTo(responses0, replies) && forall k :: k in sessions ==> sessions[k] < |accepted|
      modifies `accepted
      ensures answered == AnsweredOf(SortedKeys(responses0.Keys), replies)
      ensures accepted == MarkAccepted(old(accepted), sessions, supi, answered)
    {
      var responses := responses0;
      ghost var visited: seq<nat> := [];
      answered := [];
      while responses.Keys != {}
        invariant SortedKeys(responses0.Keys) == visited + SortedKeys(responses.Keys)
        invariant RepliesTo(responses, replies) && |accepted| == |old(accepted)|
        invariant answered == AnsweredOf(visited, replies)
        invariant accepted == MarkAccepted(old(accepted), sessions, supi, answered)
        decreases |responses.Keys|
      {
        var first := Least(responses.Keys);
        NextKey(visited, responses.Keys);
        AnsweredStep(visited, replies, first);
        MarkStep(old(accepted), sessions, supi, answered, first);
        FirstResponse(responses);
        match responses[first] {
          case Ready(body) =>
            if |body| > 0 {
              answered := answered + [first];
              if (supi, first) in sessions {
                accepted := accepted[sessions[(supi, first)] := true];
              }
            }
          case TimedOut =>
        }
        assert (responses - {first}).Keys == responses.Keys - {first};
        responses, visited := responses - {first}, visited + [first];
      }
      assert visited + [] == visited;
    }

    method SetTargetRanId(unc: UeNgapContext, ran: nat)
      requires TablesMatch() && unc.index < |contexts| && contexts[unc.index] == unc
      modifies unc, `t
      ensures TablesMatch() && t == Put(old(t), unc.index, old(t).contexts[unc.index].(targetRanId := ran))
    {
      unc.targetRanId := ran;
      Record(unc.index);
    }

    method SendCommand(unc: UeNgapContext, amf: nat, ran: nat, admitted: seq<nat>, replies: map<nat, Reply>)
      returns (out: seq<Output>)
      requires Represents() && unc.index < |contexts| && contexts[unc.index] == unc && amf in nasByAmf
      modifies `accepted
      ensures Represents() && (Value(), out) == Command(old(Value()), unc.index, amf, ran, admitted, replies)
    {
      assert unc.Value() == t.contexts[unc.index];
      var responses;
      out, responses := ReportPrepared(amf, ran, admitted, replies);
      var ids := WaitAndAccept(responses, ImsiKey(nasByAmf[amf]), replies);
      out := out + [HandoverCommand(unc.assoc, amf, unc.ranId, ids)];
    }

    method HandleHandoverRequestAck(a: int, amf: nat, ran: nat, admitted: Option<seq<nat>>, replies: map<nat, Reply>)
      returns (out: seq<Output>)
      requires Represents()
      modifies `t, `accepted, if amf in amfIds then {amfIds[amf]} else {}
      ensures Represents() && (Value(), out) == OnAck(old(Value()), a, amf, ran, admitted, replies)
    {
      out := [];
      if a in gnb.assocs && amf in amfIds {
        var unc := FindByAmfId(amf);
        SetTargetRanId(unc, ran);
        assert Value() == old(Value()).(t := t);
        if admitted.Some? && amf in nasByAmf {
          out := SendCommand(unc, amf, ran, admitted.value, replies);
        }
      }
    }

    method ReportAlong(amf: nat, ran: nat, supi: string, ids: seq<nat>) returns (out: seq<Output>)
      ensures out == Updates(amf, ran, Flagged(sessions, accepted, supi, ids), Completed)
    {
      out := [];
      for i := 0 to |ids|
        invariant out == Updates(amf, ran, Flagged(sessions, accepted, supi, ids[..i]), Completed)
      {
        assert ids[..i + 1][..i] == ids[..i];
        if IsFlagged(sessions, accepted, supi, ids[i]) {
          UpdatesStep(amf, ran, Flagged(sessions, accepted, supi, ids[..i]), ids[i], Completed);
          out := out + [SmUpdate(amf, ran, ids[i], Completed)];
        }
      }
      assert ids[..|ids|] == ids;
    }

    /** The ids under which a UE has sessions, in order. */
    method SessionIds(supi: string) returns (ids: seq<nat>)
      ensures Increasing(ids) && forall id :: id in ids <==> (supi, id) in sessions
    {
      var keys := set k | k in sessions.Keys && k.0 == supi :: k.1;
      SortedKeysAreSorted(keys);
      ids := SortedKeys(keys);
      forall id: nat ensures id in keys <==> (supi, id) in sessions {
        if (supi, id) in sessions {
          var k := (supi, id);
          assert k in sessions.Keys && k.0 == supi && k.1 == id;
        }
      }
    }

    /** Reports the accepted sessions of a UE, in the order of their ids, completed. */
    method ReportCompleted(amf: nat, ran: nat, supi: string) returns (out: seq<Output>)
      requires Represents()
      ensures out == Updates(amf, ran, SortedKeys(AcceptedIds(Value(), supi)), Completed)
    {
      var ids := SessionIds(supi);
      out := ReportAlong(amf, ran, supi, ids);
      ghost var done := Flagged(sessions, accepted, supi, ids);
      forall id: nat ensures id in done <==> id in AcceptedIds(Value(), supi) {
        FlaggedExact(sessions, accepted, supi, ids, id);
        Handover.AcceptedIdsExact(Value(), supi, id);
      }
      FlaggedIncreases(sessions, accepted, supi, ids);
      IncreasingIsSortedKeys(done, AcceptedIds(Value(), supi));
    }

    /** The end of Handover Notify: the UE is now served by the target gNB. */
    method SwitchUe(unc: UeNgapContext, a: int, ran: nat)
      requires TablesMatch() && unc.index < |contexts| && contexts[unc.index] == unc
      modifies unc, `t, `ranIds
      ensures TablesMatch() && t == Switched(old(t), unc.index, a, ran)
    {
      unc.ranId := ran;
      unc.targetRanId := 0;
      unc.state := UeConnected;
      unc.assoc := a;
      Record(unc.index);
      SetRanUeNgapId(ran, unc);
    }

    method HandleHandoverNotify(a: int, amf: nat, ran: nat, located: bool) returns (out: seq<Output>)
      requires Represents()
      modifies `t, `ranIds, if amf in amfIds then {amfIds[amf]} else {}
      ensures Represents() && (Value(), out) == OnNotify(old(Value()), a, amf, ran, located)
    {
      out := [];
      if a in gnb.assocs && amf in amfIds && located && amf in nasByAmf {
        var unc := FindByAmfId(amf);
        out := ReportCompleted(amf, ran, ImsiKey(nasByAmf[amf]));
        out := out + [ReleaseCommand(unc.assoc, amf, unc.ranId)];
        NotifyParts(Value(), a, amf, ran, located);
        SwitchUe(unc, a, ran);
      }
    }
  }

  /** std::map::emplace of the future for an id. */
  function Emplace(responses: map<nat, Reply>, id: nat, replies: map<nat, Reply>): (r: map<nat, Reply>)
    ensures r.Keys == responses.Keys + {id}
    ensures RepliesTo(responses, replies) ==> RepliesTo(r, replies)
  {
    if id in responses then responses else responses[id := ReplyFor(replies, id)]
  }

  lemma MarkStep(accepted: seq<bool>, sessions: map<(string, nat), nat>, supi: string, ids: seq<nat>, id: nat)
    requires forall k :: k in sessions ==> sessions[k] < |accepted|
    ensures MarkAccepted(accepted, sessions, supi, ids + [id])
         == if (supi, id) in sessions then MarkAccepted(accepted, sessions, supi, ids)[sessions[(supi, id)] := true]
            else MarkAccepted(accepted, sessions, supi, ids)
  {
    assert (ids + [id])[..|ids + [id]| - 1] == ids;
  }

  predicate IsFlagged(sessions: map<(string, nat), nat>, accepted: seq<bool>, supi: string, id: nat) {
    (supi, id) in sessions && sessions[(supi, id)] < |accepted| && accepted[sessions[(supi, id)]]
  }

  /** The listed sessions that count as accepted. */
  function Flagged(sessions: map<(string, nat), nat>, accepted: seq<bool>, supi: string, ids: seq<nat>): seq<nat> {
    if ids == [] then []
    else
      var init, last := Flagged(sessions, accepted, supi, ids[..|ids| - 1]), ids[|ids| - 1];
      if IsFlagged(sessions, accepted, supi, last) then init + [last] else init
  }

  lemma {:induction false} FlaggedExact(sessions: map<(string, nat), nat>, accepted: seq<bool>, supi: string,
                                        ids: seq<nat>, id: nat)
    ensures id in Flagged(sessions, accepted, supi, ids) <==> id in ids && IsFlagged(sessions, accepted, supi, id)
  {
    if ids != [] {
      FlaggedExact(sessions, accepted, supi, ids[..|ids| - 1], id);
      assert ids == ids[..|ids| - 1] + [ids[|ids| - 1]];
    }
  }

  lemma {:induction false} FlaggedIncreases(sessions: map<(string, nat), nat>, accepted: seq<bool>, supi: string,
                                            ids: seq<nat>)
    requires Increasing(ids)
    ensures Increasing(Flagged(sessions, accepted, supi, ids))
  {
    if ids != [] {
      var init, last := ids[..|ids| - 1], ids[|ids| - 1];
      FlaggedIncreases(sessions, accepted, supi, init);
      var done := Flagged(sessions, accepted, supi, init);
      forall i | 0 <= i < |done| ensures done[i] < last {
        FlaggedExact(sessions, accepted, supi, init, done[i]);
      }
    }
  }

  ghost predicate Increasing(s: seq<nat>) {
    forall i, j :: 0 <= i < j < |s| ==> s[i] < s[j]
  }

  /** Iterating over a map of these keys is the only increasing order there is. */
  lemma {:induction false} IncreasingIsSortedKeys(s: seq<nat>, keys: set<nat>)
    requires Increasing(s) && forall k :: k in s <==> k in keys
    ensures s == SortedKeys(keys)
    decreases |s|
  {
    if s != [] {
      assert s[0] in keys;
      var rest := s[1..];
      assert s == [s[0]] + rest;
      forall k ensures k in rest <==> k in keys - {s[0]} {
      }
      assert Least(keys) in s;
      IncreasingIsSortedKeys(rest, keys - {s[0]});
    } else {
      assert keys == {};
    }
  }
}
