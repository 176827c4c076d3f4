/** Slice configuration, what a gNB offers, and their intersection (get_common_plmn, get_common_NSSAI). */
module Slices {
  import opened Numerals

  /** A configured slice (slice_t). */
  datatype Slice = Slice(sst: uint8, sd: uint32)
  /** One entry of the AMF's PLMN support list (plmn_item_t). */
  datatype PlmnItem = PlmnItem(mcc: string, mnc: string, tac: uint32, slices: seq<Slice>)

  /** A slice as a gNB sends it (S_Nssai). */
  datatype SNssai = SNssai(sst: string, sd: string)
  datatype PlmnSlices = PlmnSlices(mcc: string, mnc: string, slices: seq<SNssai>)
  datatype TaItem = TaItem(tac: uint32, plmns: seq<PlmnSlices>)

  /** A slice in a NAS message (SNSSAI_t). */
  datatype NasSlice = NasSlice(sst: uint8, sd: int32)

  predicate SameSlice(offered: SNssai, configured: Slice) {
    offered.sst == ToDecimal(configured.sst) && SdValue(offered.sd) == configured.sd
  }

  predicate SamePlmn(p: PlmnItem, ta: TaItem, b: PlmnSlices) {
    p.tac == ta.tac && b.mcc == p.mcc && b.mnc == p.mnc
  }

  // ---------------------------------------------------------------- the intersection

  /** One copy of the offered slice per configured slice it equals. */
  function Copies(s1: SNssai, configured: seq<Slice>): seq<SNssai> {
    if configured == [] then []
    else
      var n := |configured| - 1;
      if SameSlice(s1, configured[n]) then Copies(s1, configured[..n]) + [s1] else Copies(s1, configured[..n])
  }

  function CommonSlices(offered: seq<SNssai>, configured: seq<Slice>): seq<SNssai> {
    if offered == [] then []
    else
      var n := |offered| - 1;
      CommonSlices(offered[..n], configured) + Copies(offered[n], configured)
  }

  function ItemFor(p: PlmnItem, ta: TaItem, b: PlmnSlices): TaItem {
    TaItem(ta.tac, [PlmnSlices(b.mcc, b.mnc, CommonSlices(b.slices, p.slices))])
  }

  function ItemsOfTa(p: PlmnItem, ta: TaItem, n: nat): seq<TaItem>
    requires n <= |ta.plmns|
  {
    if n == 0 then []
    else if SamePlmn(p, ta, ta.plmns[n - 1]) then ItemsOfTa(p, ta, n - 1) + [ItemFor(p, ta, ta.plmns[n - 1])]
    else ItemsOfTa(p, ta, n - 1)
  }

  function ItemsOfPlmn(p: PlmnItem, list: seq<TaItem>): seq<TaItem> {
    if list == [] then []
    else
      var ta := list[|list| - 1];
      ItemsOfPlmn(p, list[..|list| - 1]) + ItemsOfTa(p, ta, |ta.plmns|)
  }

  /** What get_common_plmn appends. */
  function CommonItems(cfg: seq<PlmnItem>, list: seq<TaItem>): seq<TaItem> {
    if cfg == [] then []
    else CommonItems(cfg[..|cfg| - 1], list) + ItemsOfPlmn(cfg[|cfg| - 1], list)
  }

  function SlicesOfPlmns(plmns: seq<PlmnSlices>): seq<SNssai> {
    if plmns == [] then [] else SlicesOfPlmns(plmns[..|plmns| - 1]) + plmns[|plmns| - 1].slices
  }

  /** Every slice kept in a supported TA list, in order. */
  function StoredSlices(items: seq<TaItem>): seq<SNssai> {
    if items == [] then [] else StoredSlices(items[..|items| - 1]) + SlicesOfPlmns(items[|items| - 1].plmns)
  }

  lemma {:induction false} StoredSlicesAppend(a: seq<TaItem>, b: seq<TaItem>)
    ensures StoredSlices(a + b) == StoredSlices(a) + StoredSlices(b)
  {
    if b == [] {
      assert a + b == a;
    } else {
      StoredSlicesAppend(a, b[..|b| - 1]);
      assert (a + b)[..|a + b| - 1] == a + b[..|b| - 1];
      assert (a + b)[|a + b| - 1] == b[|b| - 1];
      var last := SlicesOfPlmns(b[|b| - 1].plmns);
      assert StoredSlices(a) + StoredSlices(b[..|b| - 1]) + last
          == StoredSlices(a) + (StoredSlices(b[..|b| - 1]) + last);
    }
  }

  lemma StoredSlicesOfOne(item: TaItem)
    requires |item.plmns| == 1
    ensures StoredSlices([item]) == item.plmns[0].slices
  {
    var slices := item.plmns[0].slices;
    assert [item][..0] == [] && item.plmns[..0] == [];
    assert [] + slices == slices;
    assert SlicesOfPlmns(item.plmns) == slices;
  }

  // ---------------------------------------------------------------- the loops

  method IntersectSlices(offered: seq<SNssai>, configured: seq<Slice>) returns (common: seq<SNssai>, found: bool)
    ensures common == CommonSlices(offered, configured)
    ensures found <==> common != []
  {
    common, found := [], false;
    for i := 0 to |offered|
      invariant common == CommonSlices(offered[..i], configured)
      invariant found <==> common != []
    {
      ghost var before := common;
      for j := 0 to |configured|
        invariant common == before + Copies(offered[i], configured[..j])
        invariant found <==> common != []
      {
        CopiesStep(offered[i], configured, j);
        if offered[i].sst == ToDecimal(configured[j].sst) {
          var s1Sd := SdValue(offered[i].sd);
          if s1Sd == configured[j].sd {
            Associate(before, Copies(offered[i], configured[..j]), [offered[i]]);
            common := common + [offered[i]];
            found := true;
          }
        }
      }
      assert configured[..|configured|] == configured;
      CommonSlicesStep(offered, configured, i);
    }
    assert offered[..|offered|] == offered;
  }

  lemma CommonSlicesStep(offered: seq<SNssai>, configured: seq<Slice>, i: nat)
    requires i < |offered|
    ensures CommonSlices(offered[..i + 1], configured)
         == CommonSlices(offered[..i], configured) + Copies(offered[i], configured)
  {
    assert offered[..i + 1][..i] == offered[..i];
  }

  lemma CopiesStep(s1: SNssai, configured: seq<Slice>, j: nat)
    requires j < |configured|
    ensures Copies(s1, configured[..j + 1])
         == if SameSlice(s1, configured[j]) then Copies(s1, configured[..j]) + [s1] else Copies(s1, configured[..j])
  {
    assert configured[..j + 1][..j] == configured[..j];
  }

  /** The broadcast PLMNs of one supported TA against one configured PLMN. */
  method AppendItemsOfTa(p: PlmnItem, ta: TaItem, result0: seq<TaItem>)
    returns (found: bool, result: seq<TaItem>)
    requires p.tac == ta.tac
    ensures result == result0 + ItemsOfTa(p, ta, |ta.plmns|)
    ensures found <==> |StoredSlices(ItemsOfTa(p, ta, |ta.plmns|))| > 0
  {
    found, result := false, result0;
    for k := 0 to |ta.plmns|
      invariant result == result0 + ItemsOfTa(p, ta, k)
      invariant found <==> |StoredSlices(ItemsOfTa(p, ta, k))| > 0
    {
      var b := ta.plmns[k];
      if b.mcc == p.mcc && b.mnc == p.mnc {
        var common, any := IntersectSlices(b.slices, p.slices);
        var item := TaItem(ta.tac, [PlmnSlices(b.mcc, b.mnc, common)]);
        ghost var sofar := ItemsOfTa(p, ta, k);
        assert ItemsOfTa(p, ta, k + 1) == sofar + [item];
        Associate(result0, sofar, [item]);
        StoredSlicesAppend(sofar, [item]);
        StoredSlicesOfOne(item);
        result := result + [item];
        found := found || any;
      }
    }
  }

  /** One configured PLMN against the whole supported TA list. */
  method AppendItemsOfPlmn(p: PlmnItem, list: seq<TaItem>, result0: seq<TaItem>)
    returns (found: bool, result: seq<TaItem>)
    ensures result == result0 + ItemsOfPlmn(p, list)
    ensures found <==> |StoredSlices(ItemsOfPlmn(p, list))| > 0
  {
    found, result := false, result0;
    for j := 0 to |list|
      invariant result == result0 + ItemsOfPlmn(p, list[..j])
      invariant found <==> |StoredSlices(ItemsOfPlmn(p, list[..j]))| > 0
    {
      ghost var sofar := ItemsOfPlmn(p, list[..j]);
      ghost var added := ItemsOfTa(p, list[j], |list[j].plmns|);
      PlmnStep(p, list, j);
      StoredSlicesAppend(sofar, added);
      Associate(result0, sofar, added);
      if p.tac == list[j].tac {
        var any;
        any, result := AppendItemsOfTa(p, list[j], result);
        found := found || any;
      } else {
        NoItems(p, list[j], |list[j].plmns|);
      }
    }
    assert list[..|list|] == list;
  }

  /** get_common_plmn: appends to `result` and tells whether this call found a common slice. */
  method GetCommonPlmn(cfg: seq<PlmnItem>, list: seq<TaItem>, result0: seq<TaItem>)
    returns (found: bool, result: seq<TaItem>)
    ensures result == result0 + CommonItems(cfg, list)
    ensures found <==> StoredSlices(CommonItems(cfg, list)) != []
  {
    found, result := false, result0;
    for i := 0 to |cfg|
      invariant result == result0 + CommonItems(cfg[..i], list)
      invariant found <==> |StoredSlices(CommonItems(cfg[..i], list))| > 0
    {
      ghost var sofar := CommonItems(cfg[..i], list);
      ghost var added := ItemsOfPlmn(cfg[i], list);
      assert cfg[..i + 1][..i] == cfg[..i];
      StoredSlicesAppend(sofar, added);
      Associate(result0, sofar, added);
      var any;
      any, result := AppendItemsOfPlmn(cfg[i], list, result);
      found := found || any;
    }
    assert cfg[..|cfg|] == cfg;
  }

  lemma PlmnStep(p: PlmnItem, list: seq<TaItem>, j: nat)
    requires j < |list|
    ensures ItemsOfPlmn(p, list[..j + 1])
         == ItemsOfPlmn(p, list[..j]) + ItemsOfTa(p, list[j], |list[j].plmns|)
  {
    assert list[..j + 1][..j] == list[..j];
  }

  lemma {:induction false} NoItems(p: PlmnItem, ta: TaItem, n: nat)
    requires n <= |ta.plmns| && p.tac != ta.tac
    ensures ItemsOfTa(p, ta, n) == []
  {
    if n > 0 {
      NoItems(p, ta, n - 1);
    }
  }

  // ---------------------------------------------------------------- one item per matching triple, in order

  datatype Triple = Triple(i: nat, j: nat, k: nat)

  ghost predicate Precedes(a: Triple, b: Triple) {
    a.i < b.i || (a.i == b.i && (a.j < b.j || (a.j == b.j && a.k < b.k)))
  }

  ghost predicate Matching(cfg: seq<PlmnItem>, list: seq<TaItem>, t: Triple) {
    t.i < |cfg| && t.j < |list| && t.k < |list[t.j].plmns| && SamePlmn(cfg[t.i], list[t.j], list[t.j].plmns[t.k])
  }

  ghost function ItemAt(cfg: seq<PlmnItem>, list: seq<TaItem>, t: Triple): TaItem
    requires Matching(cfg, list, t)
  {
    ItemFor(cfg[t.i], list[t.j], list[t.j].plmns[t.k])
  }

  /** `ts` lists matching triples in strictly increasing order and `items` are their items. */
  ghost predicate Pictures(cfg: seq<PlmnItem>, list: seq<TaItem>, ts: seq<Triple>, items: seq<TaItem>) {
    && |ts| == |items|
    && (forall m :: 0 <= m < |ts| ==> Matching(cfg, list, ts[m]) && items[m] == ItemAt(cfg, list, ts[m]))
    && (forall m, n :: 0 <= m < n < |ts| ==> Precedes(ts[m], ts[n]))
  }

  ghost predicate Below(ts: seq<Triple>, t: Triple) {
    forall m :: 0 <= m < |ts| ==> Precedes(ts[m], t)
  }

  lemma PicturesAppend(cfg: seq<PlmnItem>, list: seq<TaItem>, ts: seq<Triple>, items: seq<TaItem>, t: Triple)
    requires Pictures(cfg, list, ts, items) && Below(ts, t) && Matching(cfg, list, t)
    ensures Pictures(cfg, list, ts + [t], items + [ItemAt(cfg, list, t)])
  {
  }

  lemma PicturesJoin(cfg: seq<PlmnItem>, list: seq<TaItem>,
                     ts: seq<Triple>, items: seq<TaItem>, us: seq<Triple>, more: seq<TaItem>)
    requires Pictures(cfg, list, ts, items) && Pictures(cfg, list, us, more)
    requires forall n :: 0 <= n < |us| ==> Below(ts, us[n])
    ensures Pictures(cfg, list, ts + us, items + more)
  {
    var all := ts + us;
    forall m, n | 0 <= m < n < |all| ensures Precedes(all[m], all[n]) {
      if m < |ts| <= n {
        assert Below(ts, us[n - |ts|]);
      }
    }
  }

  lemma {:induction false} TriplesOfTa(cfg: seq<PlmnItem>, list: seq<TaItem>, i: nat, j: nat, n: nat)
    returns (ts: seq<Triple>)
    requires i < |cfg| && j < |list| && n <= |list[j].plmns|
    ensures Pictures(cfg, list, ts, ItemsOfTa(cfg[i], list[j], n))
    ensures forall t :: t in ts <==> Matching(cfg, list, t) && t.i == i && t.j == j && t.k < n
  {
    ts := [];
    if n > 0 {
      ts := TriplesOfTa(cfg, list, i, j, n - 1);
      var t := Triple(i, j, n - 1);
      if SamePlmn(cfg[i], list[j], list[j].plmns[n - 1]) {
        forall m | 0 <= m < |ts| ensures Precedes(ts[m], t) {
          assert ts[m] in ts;
        }
        PicturesAppend(cfg, list, ts, ItemsOfTa(cfg[i], list[j], n - 1), t);
        ts := ts + [t];
      }
    }
  }

  lemma {:induction false} TriplesOfPlmn(cfg: seq<PlmnItem>, list: seq<TaItem>, i: nat, n: nat)
    returns (ts: seq<Triple>)
    requires i < |cfg| && n <= |list|
    ensures Pictures(cfg, list, ts, ItemsOfPlmn(cfg[i], list[..n]))
    ensures forall t :: t in ts <==> Matching(cfg, list, t) && t.i == i && t.j < n
  {
    ts := [];
    if n > 0 {
      ts := TriplesOfPlmn(cfg, list, i, n - 1);
      var us := TriplesOfTa(cfg, list, i, n - 1, |list[n - 1].plmns|);
      forall a | 0 <= a < |us| ensures Below(ts, us[a]) {
        assert us[a] in us;
        forall m | 0 <= m < |ts| ensures Precedes(ts[m], us[a]) {
          assert ts[m] in ts;
        }
      }
      PlmnStep(cfg[i], list, n - 1);
      PicturesJoin(cfg, list, ts, ItemsOfPlmn(cfg[i], list[..n - 1]),
                   us, ItemsOfTa(cfg[i], list[n - 1], |list[n - 1].plmns|));
      ts := ts + us;
    }
  }

  lemma {:induction false} TriplesUpTo(cfg: seq<PlmnItem>, list: seq<TaItem>, n: nat) returns (ts: seq<Triple>)
    requires n <= |cfg|
    ensures Pictures(cfg, list, ts, CommonItems(cfg[..n], list))
    ensures forall t :: t in ts <==> Matching(cfg, list, t) && t.i < n
  {
    ts := [];
    if n > 0 {
      ts := TriplesUpTo(cfg, list, n - 1);
      var us := TriplesOfPlmn(cfg, list, n - 1, |list|);
      assert list[..|list|] == list && cfg[..n][..n - 1] == cfg[..n - 1];
      forall a | 0 <= a < |us| ensures Below(ts, us[a]) {
        assert us[a] in us;
        forall m | 0 <= m < |ts| ensures Precedes(ts[m], us[a]) {
          assert ts[m] in ts;
        }
      }
      PicturesJoin(cfg, list, ts, CommonItems(cfg[..n - 1], list), us, ItemsOfPlmn(cfg[n - 1], list));
      ts := ts + us;
    }
  }

  /** get_common_plmn appends exactly one item per matching (configured PLMN, TA, broadcast PLMN) triple, in
      lexicographic order. */
  lemma OneItemPerMatchingTriple(cfg: seq<PlmnItem>, list: seq<TaItem>)
    ensures exists ts: seq<Triple> ::
              && Pictures(cfg, list, ts, CommonItems(cfg, list))
              && (forall t: Triple :: t in ts <==> Matching(cfg, list, t))
  {
    var ts := TriplesUpTo(cfg, list, |cfg|);
    assert cfg[..|cfg|] == cfg;
  }

  // ---------------------------------------------------------------- what an item holds

  lemma {:induction false} CopiesOnlyOfMatches(s1: SNssai, configured: seq<Slice>)
    ensures forall x :: x in Copies(s1, configured) ==> x == s1
    ensures Copies(s1, configured) != [] <==> exists s2 :: s2 in configured && SameSlice(s1, s2)
  {
    if configured != [] {
      var n := |configured| - 1;
      CopiesOnlyOfMatches(s1, configured[..n]);
      assert configured == configured[..n] + [configured[n]];
    }
  }

  /** An item holds exactly the offered slices that also occur in the AMF entry. */
  lemma {:induction false} CommonSlicesExact(offered: seq<SNssai>, configured: seq<Slice>, x: SNssai)
    ensures x in CommonSlices(offered, configured)
       <==> x in offered && exists s2 :: s2 in configured && SameSlice(x, s2)
  {
    if offered != [] {
      var n := |offered| - 1;
      CommonSlicesExact(offered[..n], configured, x);
      assert x in offered <==> x in offered[..n] || x == offered[n];
      CopiesExact(offered[n], configured, x);
    }
  }

  lemma CopiesExact(s1: SNssai, configured: seq<Slice>, x: SNssai)
    ensures x in Copies(s1, configured) <==> x == s1 && exists s2 :: s2 in configured && SameSlice(x, s2)
  {
    CopiesOnlyOfMatches(s1, configured);
    var copies := Copies(s1, configured);
    if copies != [] {
      assert copies[0] in copies;
    }
  }

  function Keep(offered: seq<SNssai>, configured: seq<Slice>): seq<SNssai> {
    if offered == [] then []
    else
      var n := |offered| - 1;
      if exists j :: 0 <= j < |configured| && SameSlice(offered[n], configured[j])
      then Keep(offered[..n], configured) + [offered[n]] else Keep(offered[..n], configured)
  }

  lemma SameSliceUnique(s1: SNssai, a: Slice, b: Slice)
    ensures SameSlice(s1, a) && SameSlice(s1, b) ==> a == b
  {
    if SameSlice(s1, a) && SameSlice(s1, b) {
      ToDecimalInjective(a.sst, b.sst);
    }
  }

  ghost predicate MatchesOneOf(s1: SNssai, configured: seq<Slice>, n: nat) {
    n <= |configured| && exists j :: 0 <= j < n && SameSlice(s1, configured[j])
  }

  lemma MatchesOnce(s1: SNssai, configured: seq<Slice>, n: nat)
    requires n < |configured| && SameSlice(s1, configured[n])
    requires forall j :: 0 <= j < n ==> configured[j] != configured[n]
    ensures !MatchesOneOf(s1, configured, n)
  {
    forall j | 0 <= j < n ensures !SameSlice(s1, configured[j]) {
      SameSliceUnique(s1, configured[j], configured[n]);
    }
  }

  lemma {:induction false} CopiesUpTo(s1: SNssai, configured: seq<Slice>, n: nat)
    requires forall i, j :: 0 <= i < j < |configured| ==> configured[i] != configured[j]
    requires n <= |configured|
    ensures Copies(s1, configured[..n]) == if MatchesOneOf(s1, configured, n) then [s1] else []
  {
    if n > 0 {
      CopiesUpTo(s1, configured, n - 1);
      CopiesStep(s1, configured, n - 1);
      if SameSlice(s1, configured[n - 1]) {
        MatchesOnce(s1, configured, n - 1);
      }
    }
  }

  lemma CopiesAtMostOne(s1: SNssai, configured: seq<Slice>)
    requires forall i, j :: 0 <= i < j < |configured| ==> configured[i] != configured[j]
    ensures Copies(s1, configured)
         == if exists j :: 0 <= j < |configured| && SameSlice(s1, configured[j]) then [s1] else []
  {
    CopiesUpTo(s1, configured, |configured|);
    assert configured[..|configured|] == configured;
  }

  /** With no slice configured twice the intersection is the offered list, filtered, in the offered order. */
  lemma {:induction false} CommonSlicesFilterOffered(offered: seq<SNssai>, configured: seq<Slice>)
    requires forall i, j :: 0 <= i < j < |configured| ==> configured[i] != configured[j]
    ensures CommonSlices(offered, configured) == Keep(offered, configured)
  {
    if offered != [] {
      CommonSlicesFilterOffered(offered[..|offered| - 1], configured);
      CopiesAtMostOne(offered[|offered| - 1], configured);
    }
  }

  // ---------------------------------------------------------------- stored slices

  ghost predicate Configured(cfg: seq<PlmnItem>, x: SNssai) {
    exists p: PlmnItem, s2: Slice :: p in cfg && s2 in p.slices && SameSlice(x, s2)
  }

  /** The slice is offered for a PLMN and TA for which the AMF has it configured. */
  ghost predicate Shared(cfg: seq<PlmnItem>, list: seq<TaItem>, x: SNssai) {
    exists t: Triple, s2 ::
      Matching(cfg, list, t) && s2 in cfg[t.i].slices && x in list[t.j].plmns[t.k].slices && SameSlice(x, s2)
  }

  lemma {:induction false} StoredInItem(items: seq<TaItem>, x: SNssai)
    requires forall it: TaItem :: it in items ==> |it.plmns| == 1
    ensures x in StoredSlices(items) <==> exists m :: 0 <= m < |items| && x in items[m].plmns[0].slices
  {
    if items != [] {
      var n := |items| - 1;
      assert items == items[..n] + [items[n]];
      StoredInItem(items[..n], x);
      StoredSlicesOfOne(items[n]);
      StoredSlicesAppend(items[..n], [items[n]]);
      if exists m :: 0 <= m < |items| && x in items[m].plmns[0].slices {
        var m :| 0 <= m < |items| && x in items[m].plmns[0].slices;
        assert m < n ==> x in items[..n][m].plmns[0].slices;
      }
    }
  }

  lemma ItemHoldsSharedOfTriple(cfg: seq<PlmnItem>, list: seq<TaItem>, t: Triple, x: SNssai)
    requires Matching(cfg, list, t)
    ensures x in ItemAt(cfg, list, t).plmns[0].slices
       <==> x in list[t.j].plmns[t.k].slices && exists s2: Slice :: s2 in cfg[t.i].slices && SameSlice(x, s2)
  {
    CommonSlicesExact(list[t.j].plmns[t.k].slices, cfg[t.i].slices, x);
  }

  lemma StoredIffInPicture(cfg: seq<PlmnItem>, list: seq<TaItem>, ts: seq<Triple>, x: SNssai)
    requires Pictures(cfg, list, ts, CommonItems(cfg, list))
    ensures x in StoredSlices(CommonItems(cfg, list))
       <==> exists m :: 0 <= m < |ts| && x in ItemAt(cfg, list, ts[m]).plmns[0].slices
  {
    var items := CommonItems(cfg, list);
    forall it: TaItem | it in items ensures |it.plmns| == 1 {
      var m :| 0 <= m < |items| && items[m] == it;
      assert items[m] == ItemAt(cfg, list, ts[m]);
    }
    StoredInItem(items, x);
  }

  /** A slice is stored by NG Setup iff gNB and AMF share it. */
  lemma StoredIffShared(cfg: seq<PlmnItem>, list: seq<TaItem>, x: SNssai)
    ensures x in StoredSlices(CommonItems(cfg, list)) <==> Shared(cfg, list, x)
  {
    OneItemPerMatchingTriple(cfg, list);
    var ts: seq<Triple> :|
      Pictures(cfg, list, ts, CommonItems(cfg, list)) && (forall t: Triple :: t in ts <==> Matching(cfg, list, t));
    StoredIffInPicture(cfg, list, ts, x);
    forall m | 0 <= m < |ts|
      ensures x in ItemAt(cfg, list, ts[m]).plmns[0].slices ==> Shared(cfg, list, x)
    {
      ItemHoldsSharedOfTriple(cfg, list, ts[m], x);
    }
    if Shared(cfg, list, x) {
      var t: Triple, s2 :|
        Matching(cfg, list, t) && s2 in cfg[t.i].slices && x in list[t.j].plmns[t.k].slices && SameSlice(x, s2);
      ItemHoldsSharedOfTriple(cfg, list, t, x);
      var m :| 0 <= m < |ts| && ts[m] == t;
    }
  }

  /** get_common_plmn succeeds iff gNB and AMF share at least one slice. */
  lemma SetupSucceedsIffShared(cfg: seq<PlmnItem>, list: seq<TaItem>)
    ensures StoredSlices(CommonItems(cfg, list)) != [] <==> exists x :: Shared(cfg, list, x)
  {
    var stored := StoredSlices(CommonItems(cfg, list));
    if stored != [] {
      assert stored[0] in stored;
      StoredIffShared(cfg, list, stored[0]);
    }
    if exists x :: Shared(cfg, list, x) {
      var x :| Shared(cfg, list, x);
      StoredIffShared(cfg, list, x);
    }
  }

  // ---------------------------------------------------------------- entries: a slice for a PLMN in a TA

  datatype Entry = Entry(tac: uint32, mcc: string, mnc: string, slice: SNssai)

  ghost predicate InBroadcast(b: PlmnSlices, e: Entry) {
    b.mcc == e.mcc && b.mnc == e.mnc && e.slice in b.slices
  }

  ghost predicate InItem(it: TaItem, e: Entry) {
    it.tac == e.tac && exists j :: 0 <= j < |it.plmns| && InBroadcast(it.plmns[j], e)
  }

  ghost predicate Holds(items: seq<TaItem>, e: Entry) {
    exists i :: 0 <= i < |items| && InItem(items[i], e)
  }

  /** The AMF has the slice configured for this very PLMN and TA. */
  ghost predicate ConfiguredEntry(cfg: seq<PlmnItem>, e: Entry) {
    exists i :: 0 <= i < |cfg| && InPlmn(cfg[i], e)
  }

  ghost predicate InPlmn(p: PlmnItem, e: Entry) {
    p.tac == e.tac && p.mcc == e.mcc && p.mnc == e.mnc && exists s2: Slice :: s2 in p.slices && SameSlice(e.slice, s2)
  }

  /** Every entry is configured. */
  ghost predicate Backed(cfg: seq<PlmnItem>, items: seq<TaItem>) {
    forall e: Entry :: Holds(items, e) ==> ConfiguredEntry(cfg, e)
  }

  lemma HoldsAppend(a: seq<TaItem>, b: seq<TaItem>, e: Entry)
    ensures Holds(a + b, e) <==> Holds(a, e) || Holds(b, e)
  {
    var all := a + b;
    if Holds(a, e) {
      var i :| 0 <= i < |a| && InItem(a[i], e);
      assert InItem(all[i], e);
    }
    if Holds(b, e) {
      var i :| 0 <= i < |b| && InItem(b[i], e);
      assert InItem(all[|a| + i], e);
    }
  }

  lemma BackedAppend(cfg: seq<PlmnItem>, a: seq<TaItem>, b: seq<TaItem>)
    ensures Backed(cfg, a + b) <==> Backed(cfg, a) && Backed(cfg, b)
  {
    forall e: Entry ensures Holds(a + b, e) <==> Holds(a, e) || Holds(b, e) {
      HoldsAppend(a, b, e);
    }
  }

  /** The item of a matching triple holds what the gNB offers there and the AMF has configured for it. */
  lemma ItemEntries(cfg: seq<PlmnItem>, list: seq<TaItem>, t: Triple, e: Entry)
    requires Matching(cfg, list, t)
    ensures InItem(ItemAt(cfg, list, t), e)
       <==> InPlmn(cfg[t.i], e) && list[t.j].tac == e.tac && InBroadcast(list[t.j].plmns[t.k], e)
  {
    ItemHoldsSharedOfTriple(cfg, list, t, e.slice);
    var it := ItemAt(cfg, list, t);
    assert it.plmns[0].mcc == cfg[t.i].mcc && it.plmns[0].mnc == cfg[t.i].mnc && it.tac == cfg[t.i].tac;
    assert InItem(it, e) <==> it.tac == e.tac && InBroadcast(it.plmns[0], e);
  }

  /** What get_common_plmn appends holds exactly the entries that are both offered and configured. */
  lemma CommonEntriesExact(cfg: seq<PlmnItem>, list: seq<TaItem>, e: Entry)
    ensures Holds(CommonItems(cfg, list), e) <==> Holds(list, e) && ConfiguredEntry(cfg, e)
  {
    OneItemPerMatchingTriple(cfg, list);
    var items := CommonItems(cfg, list);
    var ts: seq<Triple> :| Pictures(cfg, list, ts, items) && (forall t: Triple :: t in ts <==> Matching(cfg, list, t));
    if Holds(items, e) {
      EntryComesFromBoth(cfg, list, ts, items, e);
    }
    if Holds(list, e) && ConfiguredEntry(cfg, e) {
      EntryHasTriple(cfg, list, ts, items, e);
    }
  }

  lemma EntryComesFromBoth(cfg: seq<PlmnItem>, list: seq<TaItem>, ts: seq<Triple>, items: seq<TaItem>, e: Entry)
    requires Pictures(cfg, list, ts, items) && Holds(items, e)
    ensures Holds(list, e) && ConfiguredEntry(cfg, e)
  {
    var m :| 0 <= m < |items| && InItem(items[m], e);
    ItemEntries(cfg, list, ts[m], e);
    assert InBroadcast(list[ts[m].j].plmns[ts[m].k], e);
    assert InItem(list[ts[m].j], e);
  }

  lemma EntryHasTriple(cfg: seq<PlmnItem>, list: seq<TaItem>, ts: seq<Triple>, items: seq<TaItem>, e: Entry)
    requires Pictures(cfg, list, ts, items) && (forall t: Triple :: t in ts <==> Matching(cfg, list, t))
    requires Holds(list, e) && ConfiguredEntry(cfg, e)
    ensures Holds(items, e)
  {
    var i: nat :| i < |cfg| && InPlmn(cfg[i], e);
    var j: nat :| j < |list| && InItem(list[j], e);
    var k: nat :| k < |list[j].plmns| && InBroadcast(list[j].plmns[k], e);
    var t := Triple(i, j, k);
    assert Matching(cfg, list, t);
    var m :| 0 <= m < |ts| && ts[m] == t;
    ItemEntries(cfg, list, t, e);
    assert InItem(items[m], e);
  }

  lemma CommonItemsAreBacked(cfg: seq<PlmnItem>, list: seq<TaItem>)
    ensures Backed(cfg, CommonItems(cfg, list))
    ensures forall e: Entry :: Holds(CommonItems(cfg, list), e) ==> Holds(list, e)
  {
    forall e: Entry ensures Holds(CommonItems(cfg, list), e) ==> Holds(list, e) && ConfiguredEntry(cfg, e) {
      CommonEntriesExact(cfg, list, e);
    }
  }

  lemma {:induction false} SlicesOfPlmnsExact(plmns: seq<PlmnSlices>, x: SNssai)
    ensures x in SlicesOfPlmns(plmns) <==> exists j :: 0 <= j < |plmns| && x in plmns[j].slices
  {
    if plmns != [] {
      var n := |plmns| - 1;
      SlicesOfPlmnsExact(plmns[..n], x);
      assert forall j :: 0 <= j < n ==> plmns[..n][j] == plmns[j];
    }
  }

  /** The stored slices are those of the entries. */
  lemma {:induction false} StoredSlicesExact(items: seq<TaItem>, x: SNssai)
    ensures x in StoredSlices(items) <==> exists e: Entry :: Holds(items, e) && e.slice == x
  {
    if items == [] {
      assert forall e: Entry :: !Holds(items, e);
    } else {
      var n := |items| - 1;
      StoredSlicesExact(items[..n], x);
      LastItemSlices(items[n], x);
      assert items == items[..n] + [items[n]];
      forall e: Entry ensures Holds(items, e) <==> Holds(items[..n], e) || InItem(items[n], e) {
        HoldsAppend(items[..n], [items[n]], e);
        assert Holds([items[n]], e) <==> InItem([items[n]][0], e);
      }
    }
  }

  lemma LastItemSlices(it: TaItem, x: SNssai)
    ensures x in SlicesOfPlmns(it.plmns) <==> exists e: Entry :: InItem(it, e) && e.slice == x
  {
    SlicesOfPlmnsExact(it.plmns, x);
    if x in SlicesOfPlmns(it.plmns) {
      var j :| 0 <= j < |it.plmns| && x in it.plmns[j].slices;
      var e := Entry(it.tac, it.plmns[j].mcc, it.plmns[j].mnc, x);
      assert InBroadcast(it.plmns[j], e) && InItem(it, e);
    }
  }

  /** Nothing is stored iff there is no entry. */
  lemma NothingStoredIff(items: seq<TaItem>)
    ensures StoredSlices(items) == [] <==> forall e: Entry :: !Holds(items, e)
  {
    var stored := StoredSlices(items);
    if stored != [] {
      assert stored[0] in stored;
      StoredSlicesExact(items, stored[0]);
    }
    forall e: Entry ensures Holds(items, e) ==> e.slice in stored {
      StoredSlicesExact(items, e.slice);
    }
  }

  lemma BackedSlicesAreConfigured(cfg: seq<PlmnItem>, items: seq<TaItem>)
    requires Backed(cfg, items)
    ensures forall x :: x in StoredSlices(items) ==> Configured(cfg, x)
  {
    forall x | x in StoredSlices(items) ensures Configured(cfg, x) {
      StoredSlicesExact(items, x);
      var e: Entry :| Holds(items, e) && e.slice == x;
      var i :| 0 <= i < |cfg| && InPlmn(cfg[i], e);
      assert cfg[i] in cfg;
    }
  }

  // ---------------------------------------------------------------- get_common_NSSAI

  /** The conversion to NAS; None where std::stoi throws. */
  function ToNas(s: SNssai): Option<NasSlice> {
    match Stoi(s.sst)
    case None => None
    case Some(v) => Some(NasSlice(v % 0x100, ToInt32(SdValue(s.sd))))
  }

  /** Up to the first slice whose SST does not parse, where the loop breaks off. */
  function NasOfSlices(slices: seq<SNssai>): seq<NasSlice> {
    if slices == [] then []
    else match ToNas(slices[0])
      case None => []
      case Some(n) => [n] + NasOfSlices(slices[1..])
  }

  function NasOfPlmns(plmns: seq<PlmnSlices>): seq<NasSlice> {
    if plmns == [] then [] else NasOfPlmns(plmns[..|plmns| - 1]) + NasOfSlices(plmns[|plmns| - 1].slices)
  }

  function CommonNssai(items: seq<TaItem>): seq<NasSlice> {
    if items == [] then [] else CommonNssai(items[..|items| - 1]) + NasOfPlmns(items[|items| - 1].plmns)
  }

  method AppendNasOfSlices(slices: seq<SNssai>, nssai0: seq<NasSlice>) returns (found: bool, nssai: seq<NasSlice>)
    ensures nssai == nssai0 + NasOfSlices(slices)
    ensures found <==> |nssai| > |nssai0|
  {
    found, nssai := false, nssai0;
    assert slices[0..] == slices;
    for i := 0 to |slices|
      invariant nssai0 + NasOfSlices(slices) == nssai + NasOfSlices(slices[i..])
      invariant |nssai| >= |nssai0| && (found <==> |nssai| > |nssai0|)
    {
      NasOfSlicesFrom(slices, i);
      match ToNas(slices[i]) {
        case None =>
          return;
        case Some(one) =>
          Associate(nssai, [one], NasOfSlices(slices[i + 1..]));
          nssai, found := nssai + [one], true;
      }
    }
  }

  lemma NasOfSlicesFrom(slices: seq<SNssai>, i: nat)
    requires i < |slices|
    ensures NasOfSlices(slices[i..])
         == match ToNas(slices[i]) { case None => [] case Some(n) => [n] + NasOfSlices(slices[i + 1..]) }
  {
    assert slices[i..][1..] == slices[i + 1..];
  }

  method AppendNasOfPlmns(plmns: seq<PlmnSlices>, nssai0: seq<NasSlice>) returns (found: bool, nssai: seq<NasSlice>)
    ensures nssai == nssai0 + NasOfPlmns(plmns)
    ensures found <==> |nssai| > |nssai0|
  {
    found, nssai := false, nssai0;
    for j := 0 to |plmns|
      invariant nssai == nssai0 + NasOfPlmns(plmns[..j])
      invariant found <==> |nssai| > |nssai0|
    {
      NasOfPlmnsStep(plmns, j);
      Associate(nssai0, NasOfPlmns(plmns[..j]), NasOfSlices(plmns[j].slices));
      var any;
      any, nssai := AppendNasOfSlices(plmns[j].slices, nssai);
      found := found || any;
    }
    assert plmns[..|plmns|] == plmns;
  }

  lemma NasOfPlmnsStep(plmns: seq<PlmnSlices>, j: nat)
    requires j < |plmns|
    ensures NasOfPlmns(plmns[..j + 1]) == NasOfPlmns(plmns[..j]) + NasOfSlices(plmns[j].slices)
  {
    assert plmns[..j + 1][..j] == plmns[..j];
  }

  lemma CommonNssaiStep(items: seq<TaItem>, i: nat)
    requires i < |items|
    ensures CommonNssai(items[..i + 1]) == CommonNssai(items[..i]) + NasOfPlmns(items[i].plmns)
  {
    assert items[..i + 1][..i] == items[..i];
  }

  /** The loops of get_common_NSSAI over one gNB's stored list. */
  method GetCommonNssai(items: seq<TaItem>, nssai0: seq<NasSlice>) returns (found: bool, nssai: seq<NasSlice>)
    ensures nssai == nssai0 + CommonNssai(items)
    ensures found <==> CommonNssai(items) != []
  {
    found, nssai := false, nssai0;
    for i := 0 to |items|
      invariant nssai == nssai0 + CommonNssai(items[..i])
      invariant found <==> |nssai| > |nssai0|
    {
      CommonNssaiStep(items, i);
      Associate(nssai0, CommonNssai(items[..i]), NasOfPlmns(items[i].plmns));
      var any;
      any, nssai := AppendNasOfPlmns(items[i].plmns, nssai);
      found := found || any;
    }
    assert items[..|items|] == items;
  }

  /** A NAS slice stands for a configured slice. */
  ghost predicate NasConfigured(cfg: seq<PlmnItem>, n: NasSlice) {
    exists p: PlmnItem, s: Slice :: p in cfg && s in p.slices && n == NasSlice(s.sst, ToInt32(s.sd))
  }

  lemma ConfiguredToNas(cfg: seq<PlmnItem>, x: SNssai)
    requires Configured(cfg, x)
    ensures ToNas(x).Some? && NasConfigured(cfg, ToNas(x).value)
  {
    var p: PlmnItem, s2: Slice :| p in cfg && s2 in p.slices && SameSlice(x, s2);
    StoiOfDecimal(s2.sst);
    assert ToNas(x).value == NasSlice(s2.sst, ToInt32(s2.sd));
  }

  lemma SignedSdInjective(x: uint32, y: uint32)
    ensures ToInt32(x) == ToInt32(y) <==> x == y
  {
  }

  /** An offered slice equals a configured one iff its SST is the printed one and both have the same NAS form. */
  lemma SameSliceIffSameNas(x: SNssai, s: Slice)
    ensures SameSlice(x, s) <==> x.sst == ToDecimal(s.sst) && ToNas(x) == Some(NasSlice(s.sst, ToInt32(s.sd)))
  {
    StoiOfDecimal(s.sst);
    SignedSdInjective(SdValue(x.sd), s.sd);
  }

  /** What is kept, in terms of the request and the configuration alone: a slice is stored under a TAC, MCC and MNC iff
      it is broadcast with them and a configured PLMN with them has a slice of its NAS form, printed SST and all. */
  lemma StoredInTermsOfNas(cfg: seq<PlmnItem>, list: seq<TaItem>, e: Entry)
    ensures Holds(CommonItems(cfg, list), e)
       <==> Holds(list, e)
            && exists i: nat, s: Slice ::
                 && i < |cfg| && cfg[i].tac == e.tac && cfg[i].mcc == e.mcc && cfg[i].mnc == e.mnc && s in cfg[i].slices
                 && e.slice.sst == ToDecimal(s.sst) && ToNas(e.slice) == Some(NasSlice(s.sst, ToInt32(s.sd)))
  {
    CommonEntriesExact(cfg, list, e);
    forall s: Slice
      ensures SameSlice(e.slice, s)
         <==> e.slice.sst == ToDecimal(s.sst) && ToNas(e.slice) == Some(NasSlice(s.sst, ToInt32(s.sd)))
    {
      SameSliceIffSameNas(e.slice, s);
    }
    if ConfiguredEntry(cfg, e) {
      var i: nat :| i < |cfg| && InPlmn(cfg[i], e);
      var s: Slice :| s in cfg[i].slices && SameSlice(e.slice, s);
    }
    if i: nat, s: Slice :| i < |cfg| && cfg[i].tac == e.tac && cfg[i].mcc == e.mcc && cfg[i].mnc == e.mnc
                           && s in cfg[i].slices && SameSlice(e.slice, s) {
      assert InPlmn(cfg[i], e);
    }
  }

  /** How a gNB's slice (SST, SD) arrives: both printed in decimal, and 16777215 for no SD. */
  function Printed(s: Slice): SNssai {
    SNssai(ToDecimal(s.sst), ToDecimal(s.sd))
  }

  lemma NoSdIsPrinted()
    ensures ToDecimal(SD_NO_VALUE) == "16777215"
  {
    assert ToDecimal(16) == "16" && ToDecimal(167) == "167" && ToDecimal(1677) == "1677";
    assert ToDecimal(16777) == "16777" && ToDecimal(167772) == "167772" && ToDecimal(1677721) == "1677721";
  }

  /** Every configured slice that the gNB offers under the same TAC, MCC and MNC is stored, with and without SD, and so
      NG Setup succeeds. */
  lemma OfferedConfiguredIsStored(cfg: seq<PlmnItem>, list: seq<TaItem>, i: nat, j: nat, k: nat, s: Slice)
    requires i < |cfg| && j < |list| && k < |list[j].plmns| && s in cfg[i].slices
    requires list[j].tac == cfg[i].tac && list[j].plmns[k].mcc == cfg[i].mcc && list[j].plmns[k].mnc == cfg[i].mnc
    requires Printed(s) in list[j].plmns[k].slices
    ensures Holds(CommonItems(cfg, list), Entry(cfg[i].tac, cfg[i].mcc, cfg[i].mnc, Printed(s)))
    ensures Printed(s) in StoredSlices(CommonItems(cfg, list))
  {
    var e := Entry(cfg[i].tac, cfg[i].mcc, cfg[i].mnc, Printed(s));
    SdRoundTripUnsigned(s.sd);
    assert SameSlice(Printed(s), s) && InPlmn(cfg[i], e);
    assert InBroadcast(list[j].plmns[k], e) && InItem(list[j], e);
    CommonEntriesExact(cfg, list, e);
    StoredSlicesExact(CommonItems(cfg, list), Printed(s));
  }

  /** Of one list, the slices before the first whose SST is no number are converted, and nothing after it. */
  lemma {:induction false} NasOfSlicesStops(slices: seq<SNssai>) returns (n: nat)
    ensures n <= |slices| && Converted(slices[..n], NasOfSlices(slices))
    ensures n < |slices| ==> Stoi(slices[n].sst).None?
  {
    n := 0;
    if slices != [] && ToNas(slices[0]).Some? {
      var k := NasOfSlicesStops(slices[1..]);
      n := k + 1;
      ConvertedFirst(slices[0], slices[1..], k);
      assert slices == [slices[0]] + slices[1..] && slices[..n] == [slices[0]] + slices[1..][..k];
    }
  }

  lemma {:induction false} ConvertedFirst(x: SNssai, rest: seq<SNssai>, k: nat)
    requires k <= |rest| && ToNas(x).Some? && Converted(rest[..k], NasOfSlices(rest))
    ensures Converted([x] + rest[..k], NasOfSlices([x] + rest))
  {
    assert ([x] + rest)[1..] == rest;
    ConvertedJoin([x], [ToNas(x).value], rest[..k], NasOfSlices(rest));
  }

  /** Each NAS slice is the conversion of the stored slice at the same position. */
  ghost predicate Converted(stored: seq<SNssai>, nssai: seq<NasSlice>) {
    |nssai| == |stored| && forall i :: 0 <= i < |stored| ==> ToNas(stored[i]) == Some(nssai[i])
  }

  lemma ConvertedJoin(s1: seq<SNssai>, n1: seq<NasSlice>, s2: seq<SNssai>, n2: seq<NasSlice>)
    requires Converted(s1, n1) && Converted(s2, n2)
    ensures Converted(s1 + s2, n1 + n2)
  {
  }

  lemma {:induction false} NasOfConfiguredSlices(cfg: seq<PlmnItem>, slices: seq<SNssai>)
    requires forall x :: x in slices ==> Configured(cfg, x)
    ensures Converted(slices, NasOfSlices(slices))
  {
    if slices != [] {
      assert slices[0] in slices;
      ConfiguredToNas(cfg, slices[0]);
      NasOfConfiguredSlices(cfg, slices[1..]);
      ConvertedJoin([slices[0]], [ToNas(slices[0]).value], slices[1..], NasOfSlices(slices[1..]));
      assert slices == [slices[0]] + slices[1..];
    }
  }

  lemma {:induction false} NasOfConfiguredPlmns(cfg: seq<PlmnItem>, plmns: seq<PlmnSlices>)
    requires forall x :: x in SlicesOfPlmns(plmns) ==> Configured(cfg, x)
    ensures Converted(SlicesOfPlmns(plmns), NasOfPlmns(plmns))
  {
    if plmns != [] {
      var init, last := plmns[..|plmns| - 1], plmns[|plmns| - 1].slices;
      NasOfConfiguredPlmns(cfg, init);
      NasOfConfiguredSlices(cfg, last);
      ConvertedJoin(SlicesOfPlmns(init), NasOfPlmns(init), last, NasOfSlices(last));
    }
  }

  /** While every stored slice is configured, get_common_NSSAI yields exactly the stored slices, one by one;
      its exception path is not taken. */
  lemma {:induction false} CommonNssaiIsStored(cfg: seq<PlmnItem>, items: seq<TaItem>)
    requires forall x :: x in StoredSlices(items) ==> Configured(cfg, x)
    ensures Converted(StoredSlices(items), CommonNssai(items))
  {
    if items != [] {
      var init, last := items[..|items| - 1], items[|items| - 1].plmns;
      CommonNssaiIsStored(cfg, init);
      NasOfConfiguredPlmns(cfg, last);
      ConvertedJoin(StoredSlices(init), CommonNssai(init), SlicesOfPlmns(last), NasOfPlmns(last));
    }
  }

  /** Then every slice it yields is a configured one. */
  lemma CommonNssaiConfigured(cfg: seq<PlmnItem>, items: seq<TaItem>)
    requires forall x :: x in StoredSlices(items) ==> Configured(cfg, x)
    ensures forall n :: n in CommonNssai(items) ==> NasConfigured(cfg, n)
  {
    CommonNssaiIsStored(cfg, items);
    forall n | n in CommonNssai(items) ensures NasConfigured(cfg, n) {
      var i :| 0 <= i < |CommonNssai(items)| && CommonNssai(items)[i] == n;
      var x := StoredSlices(items)[i];
      assert x in StoredSlices(items);
      ConfiguredToNas(cfg, x);
    }
  }

  /** The NAS slice is the form of an entry of the list, configured for the entry's PLMN and TA. */
  ghost predicate NasServed(cfg: seq<PlmnItem>, items: seq<TaItem>, n: NasSlice) {
    exists e: Entry :: Holds(items, e) && ConfiguredEntry(cfg, e) && ToNas(e.slice) == Some(n)
  }

  /** While every entry is configured, so is each slice that get_common_NSSAI yields, for the PLMN and TA of an entry
      that it comes from. */
  lemma CommonNssaiServed(cfg: seq<PlmnItem>, items: seq<TaItem>)
    requires Backed(cfg, items)
    ensures forall n :: n in CommonNssai(items) ==> NasServed(cfg, items, n) && NasConfigured(cfg, n)
  {
    BackedSlicesAreConfigured(cfg, items);
    CommonNssaiIsStored(cfg, items);
    CommonNssaiConfigured(cfg, items);
    forall n | n in CommonNssai(items) ensures NasServed(cfg, items, n) {
      var i :| 0 <= i < |CommonNssai(items)| && CommonNssai(items)[i] == n;
      var x := StoredSlices(items)[i];
      assert x in StoredSlices(items);
      StoredSlicesExact(items, x);
      var e: Entry :| Holds(items, e) && e.slice == x;
    }
  }
}
