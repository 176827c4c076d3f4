/** The UE context indexes of the N2 task and what a reset or a Shutdown removes from them.

    A UE NGAP context is a record in `contexts`; the maps hold references to it (its index), so that two keys can
    lead to one context as shared references do. */
module UeContexts {
  import opened Numerals
  import opened Responses

  datatype UeState = UeInvalid | UeHandover | UeConnected

  /** ue_ngap_context. */
  datatype UeContext = UeContext(ranId: nat, amfId: nat, targetRanId: nat, assoc: int, targetAssoc: int,
                                 state: UeState, ncc: uint8)

  const NEW_UE_CONTEXT := UeContext(0, 0, 0, 0, 0, UeInvalid, 0)

  /** The members of nas_context that the N2 task reads. */
  datatype NasContext = NasContext(imsi: string, ranId: nat, hasSecurity: bool)

  function ImsiKey(nc: NasContext): string {
    "imsi-" + nc.imsi
  }

  datatype Tables = Tables(
    contexts: seq<UeContext>,
    byRan: map<nat, nat>,                  // ranid2uecontext
    byAmf: map<nat, nat>,                  // amfueid2uecontext
    nasByAmf: map<nat, NasContext>,        // amfueid2nas_context
    nasByImsi: map<string, NasContext>)    // imsi2nas_context

  const EMPTY_TABLES := Tables([], map[], map[], map[], map[])

  ghost predicate Valid(t: Tables) {
    (forall k :: k in t.byRan ==> t.byRan[k] < |t.contexts|) && (forall k :: k in t.byAmf ==> t.byAmf[k] < |t.contexts|)
  }

  predicate AllRefs(t: Tables, us: seq<nat>) {
    forall i :: 0 <= i < |us| ==> us[i] < |t.contexts|
  }

  /** Some RAN key leads to the context. */
  ghost predicate Reachable(t: Tables, u: nat) {
    u < |t.contexts| && exists k :: k in t.byRan && t.byRan[k] == u
  }

  // ---------------------------------------------------------------- removal

  /** remove_ue_context_with_amf_ue_ngap_id. */
  function RemoveByAmf(t: Tables, id: nat): Tables {
    var t1 :=
      if id in t.nasByAmf then
        t.(nasByImsi := t.nasByImsi - {ImsiKey(t.nasByAmf[id])},
           byRan := t.byRan - {t.nasByAmf[id].ranId},
           nasByAmf := t.nasByAmf - {id})
      else t;
    t1.(byAmf := t1.byAmf - {id})
  }

  /** remove_ue_context_with_ran_ue_ngap_id. */
  function RemoveByRan(t: Tables, ran: nat): Tables
    requires Valid(t)
  {
    if ran !in t.byRan then t
    else
      var amf := t.contexts[t.byRan[ran]].amfId;
      var t1 :=
        if amf in t.nasByAmf then
          t.(nasByImsi := t.nasByImsi - {ImsiKey(t.nasByAmf[amf])}, nasByAmf := t.nasByAmf - {amf})
        else t;
      t1.(byAmf := t1.byAmf - {amf}, byRan := t1.byRan - {ran})
  }

  /** The body of the release loops of NG Reset and Shutdown. */
  function ReleaseOne(t: Tables, u: nat): (t': Tables)
    requires Valid(t) && u < |t.contexts|
    ensures Valid(t') && t'.contexts == t.contexts
  {
    RemoveByRan(RemoveByAmf(t, t.contexts[u].amfId), t.contexts[u].ranId)
  }

  function ReleaseEach(t: Tables, us: seq<nat>): (t': Tables)
    requires Valid(t) && AllRefs(t, us)
    ensures Valid(t') && t'.contexts == t.contexts
  {
    if us == [] then t else ReleaseOne(ReleaseEach(t, us[..|us| - 1]), us[|us| - 1])
  }

  /** get_ue_ngap_contexts over the first keys of the map. */
  function CollectFrom(t: Tables, a: int, keys: seq<nat>): (us: seq<nat>)
    requires Valid(t) && forall k :: k in keys ==> k in t.byRan
    ensures AllRefs(t, us)
  {
    if keys == [] then []
    else
      var us := CollectFrom(t, a, keys[..|keys| - 1]);
      var u := t.byRan[keys[|keys| - 1]];
      if t.contexts[u].assoc == a then us + [u] else us
  }

  function Collect(t: Tables, a: int): (us: seq<nat>)
    requires Valid(t)
    ensures AllRefs(t, us)
  {
    SortedKeysAreSorted(t.byRan.Keys);
    CollectFrom(t, a, SortedKeys(t.byRan.Keys))
  }

  /** What NG Reset of the whole interface and Shutdown do to the UE indexes. */
  function ReleaseAll(t: Tables, a: int): (t': Tables)
    requires Valid(t)
    ensures Valid(t') && t'.contexts == t.contexts
  {
    ReleaseEach(t, Collect(t, a))
  }

  lemma {:induction false} CollectFromExact(t: Tables, a: int, keys: seq<nat>, u: nat)
    requires Valid(t) && forall k :: k in keys ==> k in t.byRan
    ensures u in CollectFrom(t, a, keys)
       <==> u < |t.contexts| && t.contexts[u].assoc == a && exists k :: k in keys && t.byRan[k] == u
  {
    if keys != [] {
      CollectFromExact(t, a, keys[..|keys| - 1], u);
      assert keys == keys[..|keys| - 1] + [keys[|keys| - 1]];
    }
  }

  /** Exactly the contexts of the association that some RAN key leads to are collected. */
  lemma CollectExact(t: Tables, a: int, u: nat)
    requires Valid(t)
    ensures u in Collect(t, a) <==> Reachable(t, u) && t.contexts[u].assoc == a
  {
    SortedKeysAreSorted(t.byRan.Keys);
    CollectFromExact(t, a, SortedKeys(t.byRan.Keys), u);
  }

  // ---------------------------------------------------------------- what is gone afterwards

  ghost predicate Shrinks(t: Tables, t': Tables) {
    && t'.contexts == t.contexts
    && (forall k :: k in t'.byRan ==> k in t.byRan && t'.byRan[k] == t.byRan[k])
    && (forall k :: k in t'.byAmf ==> k in t.byAmf && t'.byAmf[k] == t.byAmf[k])
    && (forall k :: k in t'.nasByAmf ==> k in t.nasByAmf && t'.nasByAmf[k] == t.nasByAmf[k])
    && (forall k :: k in t'.nasByImsi ==> k in t.nasByImsi && t'.nasByImsi[k] == t.nasByImsi[k])
    && (forall m :: m in t.nasByAmf && m !in t'.nasByAmf ==> ImsiKey(t.nasByAmf[m]) !in t'.nasByImsi)
  }

  lemma RemoveByAmfShrinks(t: Tables, id: nat)
    ensures Shrinks(t, RemoveByAmf(t, id)) && id !in RemoveByAmf(t, id).byAmf && id !in RemoveByAmf(t, id).nasByAmf
  {
  }

  lemma RemoveByRanShrinks(t: Tables, ran: nat)
    requires Valid(t)
    ensures Shrinks(t, RemoveByRan(t, ran)) && ran !in RemoveByRan(t, ran).byRan
  {
  }

  lemma ShrinksTransitive(t: Tables, t1: Tables, t2: Tables)
    requires Shrinks(t, t1) && Shrinks(t1, t2)
    ensures Shrinks(t, t2)
  {
  }

  lemma ReleaseOneShrinks(t: Tables, u: nat)
    requires Valid(t) && u < |t.contexts|
    ensures Shrinks(t, ReleaseOne(t, u))
    ensures var t', c := ReleaseOne(t, u), t.contexts[u];
            c.ranId !in t'.byRan && c.amfId !in t'.byAmf && c.amfId !in t'.nasByAmf
  {
    var c := t.contexts[u];
    var t1 := RemoveByAmf(t, c.amfId);
    RemoveByAmfShrinks(t, c.amfId);
    RemoveByRanShrinks(t1, c.ranId);
    ShrinksTransitive(t, t1, ReleaseOne(t, u));
  }

  ghost predicate Gone(t: Tables, u: nat) {
    u < |t.contexts| &&
    t.contexts[u].ranId !in t.byRan && t.contexts[u].amfId !in t.byAmf && t.contexts[u].amfId !in t.nasByAmf
  }

  lemma {:induction false} ReleaseEachRemoves(t: Tables, us: seq<nat>)
    requires Valid(t) && AllRefs(t, us)
    ensures Shrinks(t, ReleaseEach(t, us))
    ensures forall u: nat :: u in us ==> Gone(ReleaseEach(t, us), u)
  {
    if us != [] {
      var init, last := us[..|us| - 1], us[|us| - 1];
      ReleaseEachRemoves(t, init);
      ReleaseOneShrinks(ReleaseEach(t, init), last);
      assert us == init + [last];
    }
  }

  /** After NG Reset of the interface or Shutdown, from any state: no entry of a collected UE is left in the
      AMF-id map or in either NAS map, and a RAN key still leading to a context of the association is a stale
      one, different from the context's own RAN id, which is itself no longer a key. */
  lemma ReleaseAllRemoves(t: Tables, a: int)
    requires Valid(t)
    ensures var t' := ReleaseAll(t, a);
            && (forall u: nat :: Reachable(t, u) && t.contexts[u].assoc == a ==>
                  && Gone(t', u)
                  && (t.contexts[u].amfId in t.nasByAmf ==> ImsiKey(t.nasByAmf[t.contexts[u].amfId]) !in t'.nasByImsi))
            && (forall k :: k in t'.byRan && t.contexts[t'.byRan[k]].assoc == a ==> t.contexts[t'.byRan[k]].ranId != k)
  {
    var t' := ReleaseAll(t, a);
    ReleaseEachRemoves(t, Collect(t, a));
    forall u: nat | Reachable(t, u) && t.contexts[u].assoc == a ensures u in Collect(t, a) {
      CollectExact(t, a, u);
    }
    forall k | k in t'.byRan && t.contexts[t'.byRan[k]].assoc == a ensures t.contexts[t'.byRan[k]].ranId != k {
      assert k in t.byRan && Reachable(t, t.byRan[k]);
      assert Gone(t', t.byRan[k]);
    }
  }

  /** Every RAN key is the RAN id of the context it leads to. */
  ghost predicate KeysAreOwn(t: Tables) {
    forall k :: k in t.byRan ==> t.byRan[k] < |t.contexts| && t.contexts[t.byRan[k]].ranId == k
  }

  /** Without stale keys no RAN key of the association is left. */
  lemma ReleaseAllLeavesNoKey(t: Tables, a: int)
    requires Valid(t) && KeysAreOwn(t)
    ensures KeysAreOwn(ReleaseAll(t, a))
    ensures forall k :: k in ReleaseAll(t, a).byRan ==> t.contexts[ReleaseAll(t, a).byRan[k]].assoc != a
  {
    ReleaseEachRemoves(t, Collect(t, a));
    ReleaseAllRemoves(t, a);
  }

  // ---------------------------------------------------------------- which RAN keys survive

  /** No release of a context of `us` asks for key `k`: it is neither a context's RAN id nor that of its NAS context. */
  ghost predicate Unasked(t: Tables, us: seq<nat>, k: nat)
    requires AllRefs(t, us)
  {
    forall i :: 0 <= i < |us| ==> UnaskedBy(t, us[i], k)
  }

  ghost predicate UnaskedBy(t: Tables, u: nat, k: nat)
    requires u < |t.contexts|
  {
    var c := t.contexts[u];
    c.ranId != k && (c.amfId in t.nasByAmf ==> t.nasByAmf[c.amfId].ranId != k)
  }

  /** The own RAN id of each context, where it is a key, leads to the context. */
  ghost predicate OwnKeysLead(t: Tables, us: seq<nat>)
    requires AllRefs(t, us)
  {
    forall i :: 0 <= i < |us| ==>
      (t.contexts[us[i]].ranId in t.byRan ==> t.byRan[t.contexts[us[i]].ranId] == us[i])
  }

  /** Every NAS entry that is gone took the RAN key it names with it. */
  ghost predicate NasGoneKeyGone(t: Tables, t': Tables) {
    forall m :: m in t.nasByAmf && m !in t'.nasByAmf ==> t.nasByAmf[m].ranId !in t'.byRan
  }

  lemma ReleaseOneKeys(t: Tables, t1: Tables, u: nat, k: nat)
    requires Valid(t) && Valid(t1) && Shrinks(t, t1) && NasGoneKeyGone(t, t1) && u < |t.contexts|
    requires t.contexts[u].ranId in t.byRan ==> t.byRan[t.contexts[u].ranId] == u
    ensures NasGoneKeyGone(t, ReleaseOne(t1, u))
    ensures k in ReleaseOne(t1, u).byRan <==> k in t1.byRan && UnaskedBy(t, u, k)
  {
    var c := t.contexts[u];
    var t2 := RemoveByAmf(t1, c.amfId);
    RemoveByAmfShrinks(t1, c.amfId);
    RemoveSecondIsRest(t2, u);
    assert c.amfId in t1.nasByAmf ==> t1.nasByAmf[c.amfId] == t.nasByAmf[c.amfId];
  }

  lemma {:induction false} ReleaseEachKeys(t: Tables, us: seq<nat>, k: nat)
    requires Valid(t) && AllRefs(t, us) && OwnKeysLead(t, us)
    ensures NasGoneKeyGone(t, ReleaseEach(t, us))
    ensures k in ReleaseEach(t, us).byRan <==> k in t.byRan && Unasked(t, us, k)
  {
    if us != [] {
      var init, last := us[..|us| - 1], us[|us| - 1];
      assert us == init + [last];
      assert OwnKeysLead(t, init) && (Unasked(t, us, k) <==> Unasked(t, init, k) && UnaskedBy(t, last, k)) by {
        assert forall i :: 0 <= i < |init| ==> init[i] == us[i];
      }
      ReleaseEachKeys(t, init, k);
      ReleaseEachRemoves(t, init);
      ReleaseOneKeys(t, ReleaseEach(t, init), last, k);
    }
  }

  /** The release loop asks for key `k`: the release of some context does so in the tables it finds, where earlier
      releases may have removed the NAS context that names the key. */
  ghost predicate AskedInTurn(t: Tables, us: seq<nat>, k: nat)
    requires Valid(t) && AllRefs(t, us)
  {
    us != [] &&
    (AskedInTurn(t, us[..|us| - 1], k) || !UnaskedBy(ReleaseEach(t, us[..|us| - 1]), us[|us| - 1], k))
  }

  lemma ReleaseOneAsks(t: Tables, u: nat, k: nat)
    requires Valid(t) && u < |t.contexts|
    ensures k in ReleaseOne(t, u).byRan <==> k in t.byRan && UnaskedBy(t, u, k)
  {
    var c := t.contexts[u];
    var t1 := RemoveByAmf(t, c.amfId);
    assert k in t1.byRan <==> k in t.byRan && (c.amfId in t.nasByAmf ==> t.nasByAmf[c.amfId].ranId != k);
    assert k in RemoveByRan(t1, c.ranId).byRan <==> k in t1.byRan && c.ranId != k;
  }

  lemma {:induction false} ReleaseEachAsks(t: Tables, us: seq<nat>, k: nat)
    requires Valid(t) && AllRefs(t, us)
    ensures k in ReleaseEach(t, us).byRan <==> k in t.byRan && !AskedInTurn(t, us, k)
  {
    if us != [] {
      ReleaseEachAsks(t, us[..|us| - 1], k);
      ReleaseOneAsks(ReleaseEach(t, us[..|us| - 1]), us[|us| - 1], k);
    }
  }

  /** In any tables, RAN ids given twice included: a RAN key survives NG Reset or Shutdown of an association iff the
      release loop does not ask for it. */
  lemma KeySurvivesLoopIff(t: Tables, a: int, k: nat)
    requires Valid(t)
    ensures k in ReleaseAll(t, a).byRan <==> k in t.byRan && !AskedInTurn(t, Collect(t, a), k)
  {
    ReleaseEachAsks(t, Collect(t, a), k);
  }

  /** Where own keys lead to their contexts, it survives iff no context to be released has it as RAN id or as that of
      its NAS context. */
  lemma KeySurvivesReleaseIff(t: Tables, a: int, k: nat)
    requires Valid(t) && OwnKeysLead(t, Collect(t, a))
    ensures k in ReleaseAll(t, a).byRan <==> k in t.byRan && Unasked(t, Collect(t, a), k)
  {
    ReleaseEachKeys(t, Collect(t, a), k);
  }

  // ---------------------------------------------------------------- what stays

  ghost function RanIds(t: Tables, us: seq<nat>): set<nat>
    requires AllRefs(t, us)
  {
    set i | 0 <= i < |us| :: t.contexts[us[i]].ranId
  }

  ghost function AmfIds(t: Tables, us: seq<nat>): set<nat>
    requires AllRefs(t, us)
  {
    set i | 0 <= i < |us| :: t.contexts[us[i]].amfId
  }

  ghost function ImsiKeys(t: Tables, amfIds: set<nat>): set<string> {
    set m | m in amfIds && m in t.nasByAmf :: ImsiKey(t.nasByAmf[m])
  }

  /** RAN keys are own keys, and each NAS context carries the RAN id of its UE's N2 context. */
  ghost predicate Consistent(t: Tables) {
    && Valid(t) && KeysAreOwn(t)
    && (forall u: nat :: Reachable(t, u) && t.contexts[u].amfId in t.nasByAmf
          ==> t.nasByAmf[t.contexts[u].amfId].ranId == t.contexts[u].ranId)
  }

  /** The tables without the entries of the given contexts. */
  ghost function Without(t: Tables, us: seq<nat>): Tables
    requires AllRefs(t, us)
  {
    var amf := AmfIds(t, us);
    Tables(t.contexts, t.byRan - RanIds(t, us), t.byAmf - amf, t.nasByAmf - amf, t.nasByImsi - ImsiKeys(t, amf))
  }

  lemma IdsOfMore(t: Tables, us: seq<nat>, u: nat)
    requires AllRefs(t, us) && u < |t.contexts|
    ensures AllRefs(t, us + [u])
    ensures RanIds(t, us + [u]) == RanIds(t, us) + {t.contexts[u].ranId}
    ensures AmfIds(t, us + [u]) == AmfIds(t, us) + {t.contexts[u].amfId}
    ensures ImsiKeys(t, AmfIds(t, us + [u]))
         == ImsiKeys(t, AmfIds(t, us))
            + (if t.contexts[u].amfId in t.nasByAmf then {ImsiKey(t.nasByAmf[t.contexts[u].amfId])} else {})
  {
    var all := us + [u];
    assert all[|us|] == u && forall i :: 0 <= i < |us| ==> all[i] == us[i];
    forall x | x in RanIds(t, us) ensures x in RanIds(t, all) {
      var i :| 0 <= i < |us| && t.contexts[us[i]].ranId == x;
      assert t.contexts[all[i]].ranId == x;
    }
    forall x | x in AmfIds(t, us) ensures x in AmfIds(t, all) {
      var i :| 0 <= i < |us| && t.contexts[us[i]].amfId == x;
      assert t.contexts[all[i]].amfId == x;
    }
    assert t.contexts[all[|us|]].ranId in RanIds(t, all) && t.contexts[all[|us|]].amfId in AmfIds(t, all);
    assert AmfIds(t, all) == AmfIds(t, us) + {t.contexts[u].amfId};
  }

  /** The AMF-id removal takes the AMF-id and NAS entries, and at most the UE's own RAN key. */
  lemma RemoveByAmfExact(t: Tables, us: seq<nat>, u: nat)
    requires Consistent(t) && AllRefs(t, us) && Reachable(t, u)
    ensures var w, c, x := Without(t, us), t.contexts[u], Without(t, us + [u]);
            var w1 := RemoveByAmf(w, c.amfId);
            && w1.contexts == t.contexts
            && w1.byAmf == x.byAmf && w1.nasByAmf == x.nasByAmf && w1.nasByImsi == x.nasByImsi
            && (w1.byRan == w.byRan || w1.byRan == w.byRan - {c.ranId})
  {
    IdsOfMore(t, us, u);
    var amfIds, m := AmfIds(t, us), t.contexts[u].amfId;
    assert t.byAmf - (amfIds + {m}) == t.byAmf - amfIds - {m};
    NasWithout(t.nasByAmf, amfIds, m);
    ImsisWithout(t, amfIds, m);
  }

  lemma NasWithout(nas: map<nat, NasContext>, amfIds: set<nat>, m: nat)
    ensures nas - (amfIds + {m}) == if m in nas - amfIds then nas - amfIds - {m} else nas - amfIds
  {
  }

  lemma ImsisWithout(t: Tables, amfIds: set<nat>, m: nat)
    ensures var rest := t.nasByImsi - ImsiKeys(t, amfIds);
            var key := if m in t.nasByAmf then {ImsiKey(t.nasByAmf[m])} else {};
            t.nasByImsi - (ImsiKeys(t, amfIds) + key) == if m in t.nasByAmf - amfIds then rest - key else rest
  {
    var rest := t.nasByImsi - ImsiKeys(t, amfIds);
    if m in t.nasByAmf && m in amfIds {
      assert ImsiKey(t.nasByAmf[m]) in ImsiKeys(t, amfIds);
    }
  }

  lemma OwnKey(t: Tables, u: nat)
    requires KeysAreOwn(t) && Reachable(t, u)
    ensures t.contexts[u].ranId in t.byRan && t.byRan[t.contexts[u].ranId] == u
  {
    var k :| k in t.byRan && t.byRan[k] == u;
  }

  lemma WithoutRan(t: Tables, us: seq<nat>, u: nat)
    requires Valid(t) && KeysAreOwn(t) && AllRefs(t, us) && Reachable(t, u)
    ensures var w, c, x := Without(t, us), t.contexts[u], Without(t, us + [u]);
            && Valid(w)
            && x.byRan == w.byRan - {c.ranId}
            && (c.ranId in w.byRan ==> w.byRan[c.ranId] == u)
  {
    OwnKey(t, u);
    IdsOfMore(t, us, u);
    var ran := t.contexts[u].ranId;
    assert t.byRan - (RanIds(t, us) + {ran}) == t.byRan - RanIds(t, us) - {ran};
  }

  lemma ReleaseByParts(w: Tables, x: Tables, u: nat)
    requires Valid(w) && u < |w.contexts| && x.contexts == w.contexts
    requires var c, w1 := w.contexts[u], RemoveByAmf(w, w.contexts[u].amfId);
             && w1.byAmf == x.byAmf && w1.nasByAmf == x.nasByAmf && w1.nasByImsi == x.nasByImsi
             && (w1.byRan == w.byRan || w1.byRan == w.byRan - {c.ranId})
             && x.byRan == w.byRan - {c.ranId}
             && (c.ranId in w.byRan ==> w.byRan[c.ranId] == u)
    ensures ReleaseOne(w, u) == x
  {
    var ran := w.contexts[u].ranId;
    var w1 := RemoveByAmf(w, w.contexts[u].amfId);
    RemoveSecondIsRest(w1, u);
    assert w1.byRan - {ran} == w.byRan - {ran};
  }

  /** Removing one more UE from tables that lack some others: each step of the release loop is exact. */
  lemma ReleaseOneExact(t: Tables, us: seq<nat>, u: nat)
    requires Consistent(t) && AllRefs(t, us) && Reachable(t, u)
    ensures Valid(Without(t, us))
    ensures ReleaseOne(Without(t, us), u) == Without(t, us + [u])
  {
    WithoutRan(t, us, u);
    RemoveByAmfExact(t, us, u);
    ReleaseByParts(Without(t, us), Without(t, us + [u]), u);
  }

  /** After the AMF-id removal, the RAN-id removal of the same UE only removes its RAN key. */
  lemma RemoveSecondIsRest(w: Tables, u: nat)
    requires Valid(w) && u < |w.contexts|
    requires w.contexts[u].amfId !in w.byAmf && w.contexts[u].amfId !in w.nasByAmf
    requires w.contexts[u].ranId in w.byRan ==> w.byRan[w.contexts[u].ranId] == u
    ensures RemoveByRan(w, w.contexts[u].ranId) == w.(byRan := w.byRan - {w.contexts[u].ranId})
  {
    var r := RemoveByRan(w, w.contexts[u].ranId);
    assert w.byAmf - {w.contexts[u].amfId} == w.byAmf;
    if w.contexts[u].ranId !in w.byRan {
      assert w.byRan - {w.contexts[u].ranId} == w.byRan;
    }
  }

  lemma WithoutNone(t: Tables)
    ensures Without(t, []) == t
  {
    var w := Without(t, []);
    assert w.byRan == t.byRan && w.byAmf == t.byAmf && w.nasByAmf == t.nasByAmf && w.nasByImsi == t.nasByImsi;
  }

  lemma {:induction false} ReleaseEachExact(t: Tables, us: seq<nat>)
    requires Consistent(t) && AllRefs(t, us) && forall i :: 0 <= i < |us| ==> Reachable(t, us[i])
    ensures ReleaseEach(t, us) == Without(t, us)
  {
    if us == [] {
      WithoutNone(t);
    } else {
      var init, last := us[..|us| - 1], us[|us| - 1];
      ReleaseEachExact(t, init);
      assert us == init + [last];
      ReleaseOneExact(t, init, last);
    }
  }

  /** In consistent tables a release removes exactly the entries of the association's UEs. */
  lemma ReleaseAllExact(t: Tables, a: int)
    requires Consistent(t)
    ensures ReleaseAll(t, a) == Without(t, Collect(t, a))
  {
    forall i | 0 <= i < |Collect(t, a)| ensures Reachable(t, Collect(t, a)[i]) {
      CollectExact(t, a, Collect(t, a)[i]);
    }
    ReleaseEachExact(t, Collect(t, a));
  }

  /** No UE of association `a` shares an entry with a UE of another association: neither an AMF id with an entry,
      nor an IMSI. */
  ghost predicate NothingShared(t: Tables, a: int) {
    forall u: nat, v: nat ::
      Reachable(t, u) && Reachable(t, v) && t.contexts[u].assoc == a && t.contexts[v].assoc != a ==>
        var m, n := t.contexts[u].amfId, t.contexts[v].amfId;
        && (m == n ==> m !in t.byAmf && m !in t.nasByAmf)
        && (m in t.nasByAmf && n in t.nasByAmf ==> t.nasByAmf[m].imsi != t.nasByAmf[n].imsi)
  }

  /** All entries of one UE are the same in both tables. */
  ghost predicate SameEntries(t: Tables, t': Tables, v: nat)
    requires v < |t.contexts|
  {
    var c := t.contexts[v];
    && (c.ranId in t.byRan <==> c.ranId in t'.byRan) && (c.ranId in t.byRan ==> t'.byRan[c.ranId] == t.byRan[c.ranId])
    && (c.amfId in t.byAmf <==> c.amfId in t'.byAmf) && (c.amfId in t.byAmf ==> t'.byAmf[c.amfId] == t.byAmf[c.amfId])
    && (c.amfId in t.nasByAmf <==> c.amfId in t'.nasByAmf)
    && (c.amfId in t.nasByAmf ==>
          var key := ImsiKey(t.nasByAmf[c.amfId]);
          && t'.nasByAmf[c.amfId] == t.nasByAmf[c.amfId]
          && (key in t.nasByImsi <==> key in t'.nasByImsi)
          && (key in t.nasByImsi ==> t'.nasByImsi[key] == t.nasByImsi[key]))
  }

  /** Resetting one gNB leaves every entry of every UE of the other gNBs as it was. */
  lemma ResetSparesOtherGnbs(t: Tables, a: int, v: nat)
    requires Consistent(t) && NothingShared(t, a)
    requires Reachable(t, v) && t.contexts[v].assoc != a
    ensures SameEntries(t, ReleaseAll(t, a), v)
  {
    var us, c := Collect(t, a), t.contexts[v];
    ReleaseAllExact(t, a);
    forall i | 0 <= i < |us| ensures Reachable(t, us[i]) && t.contexts[us[i]].assoc == a {
      CollectExact(t, a, us[i]);
    }
    forall i | 0 <= i < |us| ensures t.contexts[us[i]].ranId != c.ranId {
      OwnKeyIsUnique(t, us[i], v);
    }
    if c.amfId in t.nasByAmf && ImsiKey(t.nasByAmf[c.amfId]) in ImsiKeys(t, AmfIds(t, us)) {
      var m :| m in AmfIds(t, us) && m in t.nasByAmf && ImsiKey(t.nasByAmf[m]) == ImsiKey(t.nasByAmf[c.amfId]);
      ImsiKeyInjective(t.nasByAmf[m], t.nasByAmf[c.amfId]);
    }
  }

  lemma ImsiKeyInjective(x: NasContext, y: NasContext)
    requires ImsiKey(x) == ImsiKey(y)
    ensures x.imsi == y.imsi
  {
    assert ImsiKey(x)[5..] == x.imsi && ImsiKey(y)[5..] == y.imsi;
  }

  lemma OwnKeyIsUnique(t: Tables, u: nat, v: nat)
    requires KeysAreOwn(t) && Reachable(t, u) && Reachable(t, v) && u != v
    ensures t.contexts[u].ranId != t.contexts[v].ranId
  {
    var k :| k in t.byRan && t.byRan[k] == u;
    var l :| l in t.byRan && t.byRan[l] == v;
  }
}
