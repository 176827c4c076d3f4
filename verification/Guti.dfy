/** 5G-GUTI allocation: unique TMSIs, their text, and the key under which a NAS context is stored. */
module Guti {
  import opened Numerals

  // ---------------------------------------------------------------- tmsi_to_string

  function Zeros(n: nat): (s: string)
    ensures |s| == n
  {
    if n == 0 then "" else "0" + Zeros(n - 1)
  }

  /** The pad length: 4 minus the number of digits, as an eight-bit number. */
  function PadLength(digits: nat): uint8 {
    (4 - digits) % 0x100
  }

  function TmsiString(tmsi: uint32): string {
    Zeros(PadLength(|ToDecimal(tmsi)|)) + ToDecimal(tmsi)
  }

  method TmsiToString(tmsi: uint32) returns (s: string)
    ensures s == TmsiString(tmsi)
  {
    s := "";
    var text := ToDecimal(tmsi);
    var length: uint8 := (4 - |text|) % 0x100;
    for i := 0 to length
      invariant s == Zeros(i)
    {
      ZerosMore(i);
      s := s + "0";
    }
    s := s + text;
  }

  lemma {:induction false} ZerosMore(n: nat)
    ensures Zeros(n + 1) == Zeros(n) + "0"
  {
    if n > 0 {
      ZerosMore(n - 1);
      assert "0" + (Zeros(n - 1) + "0") == "0" + Zeros(n - 1) + "0";
    }
  }

  lemma {:induction false} ValueOfPadded(n: nat, s: string)
    ensures Value(Zeros(n) + s, 10) == Value(s, 10)
  {
    var all := Zeros(n) + s;
    if s == "" {
      assert all == Zeros(n);
      ValueOfZeros(n);
    } else {
      assert all[..|all| - 1] == Zeros(n) + s[..|s| - 1];
      ValueOfPadded(n, s[..|s| - 1]);
    }
  }

  lemma {:induction false} ValueOfZeros(n: nat)
    ensures Value(Zeros(n), 10) == 0
  {
    if n > 0 {
      ZerosMore(n - 1);
      assert Zeros(n)[..n - 1] == Zeros(n - 1);
      ValueOfZeros(n - 1);
    }
  }

  /** The text has length 4 for a TMSI of up to four digits and 260 for a longer one, where the pad length wraps,
      and it reads back as the TMSI. */
  lemma TmsiStringReadsBack(tmsi: uint32)
    ensures |TmsiString(tmsi)| == if tmsi < 10000 then 4 else 260
    ensures Value(TmsiString(tmsi), 10) == tmsi
  {
    DecimalDigits(tmsi);
    AtMostFourDigits(tmsi);
    TenDigits(tmsi);
    PaddedLength(|ToDecimal(tmsi)|);
    ValueOfPadded(PadLength(|ToDecimal(tmsi)|), ToDecimal(tmsi));
  }

  lemma PaddedLength(digits: nat)
    requires 1 <= digits <= 10
    ensures PadLength(digits) + digits == if digits <= 4 then 4 else 260
  {
  }

  lemma AtMostFourDigits(tmsi: uint32)
    ensures |ToDecimal(tmsi)| <= 4 <==> tmsi < 10000
  {
    assert Pow10(2) == 100 && Pow10(4) == 10000;
    DecimalLength(tmsi, 4, 10000);
  }

  lemma TenDigits(tmsi: uint32)
    ensures 1 <= |ToDecimal(tmsi)| <= 10
  {
    DecimalDigits(tmsi);
    assert Pow10(2) == 100 && Pow10(4) == 10000 && Pow10(6) == 1000000 && Pow10(8) == 100000000;
    assert Pow10(10) == 10000000000;
    DecimalLength(tmsi, 10, Pow10(10));
  }

  // ---------------------------------------------------------------- the key

  /** What identifies this AMF: region, set and pointer as configured. */
  datatype Guami = Guami(regionId: string, amfSetId: string, amfPointer: string)

  function Key(mcc: string, mnc: string, g: Guami, tmsi: uint32): string {
    mcc + mnc + g.regionId + g.amfSetId + g.amfPointer + TmsiString(tmsi)
  }

  /** MCC, MNC, region, set, pointer and padded TMSI, in this order. */
  lemma KeyByExample()
    ensures Key("208", "95", Guami("128", "1", "2"), 7) == "20895128120007"
  {
    assert Zeros(3) == "000" && TmsiString(7) == "0007";
  }

  lemma SplitEqual(a: string, b: string, c: string, d: string)
    requires a + b == c + d && |a| == |c|
    ensures a == c && b == d
  {
    assert a == (a + b)[..|a|] && c == (c + d)[..|c|];
    assert b == (a + b)[|a|..] && d == (c + d)[|c|..];
  }

  lemma TmsiStringInjective(t: uint32, u: uint32)
    requires TmsiString(t) == TmsiString(u)
    ensures t == u
  {
    TmsiStringReadsBack(t);
    TmsiStringReadsBack(u);
  }

  lemma KeyInParts(mcc: string, mnc: string, g: Guami, tmsi: uint32)
    ensures Key(mcc, mnc, g, tmsi) == (mcc + mnc) + (g.regionId + g.amfSetId + g.amfPointer + TmsiString(tmsi))
  {
    assert Key(mcc, mnc, g, tmsi) == (mcc + mnc) + ((g.regionId + g.amfSetId + g.amfPointer) + TmsiString(tmsi));
  }

  /** With MCC and MNC of at most three digits two keys are equal iff the TMSIs are and MCC followed by MNC is. */
  lemma SameKeyIff(g: Guami, mcc1: string, mnc1: string, t1: uint32, mcc2: string, mnc2: string, t2: uint32)
    requires |mcc1| <= 3 && |mnc1| <= 3 && |mcc2| <= 3 && |mnc2| <= 3
    ensures Key(mcc1, mnc1, g, t1) == Key(mcc2, mnc2, g, t2) <==> mcc1 + mnc1 == mcc2 + mnc2 && t1 == t2
  {
    KeyInParts(mcc1, mnc1, g, t1);
    KeyInParts(mcc2, mnc2, g, t2);
    if Key(mcc1, mnc1, g, t1) == Key(mcc2, mnc2, g, t2) {
      TmsiStringReadsBack(t1);
      TmsiStringReadsBack(t2);
      var fixed := g.regionId + g.amfSetId + g.amfPointer;
      SplitEqual(mcc1 + mnc1, fixed + TmsiString(t1), mcc2 + mnc2, fixed + TmsiString(t2));
      SplitEqual(fixed, TmsiString(t1), fixed, TmsiString(t2));
      TmsiStringInjective(t1, t2);
    }
  }

  /** With a 3-digit MCC and a 2- or 3-digit MNC the key determines MCC, MNC and TMSI. */
  lemma KeyInjective(g: Guami, mcc1: string, mnc1: string, t1: uint32, mcc2: string, mnc2: string, t2: uint32)
    requires |mcc1| == |mcc2| == 3 && 2 <= |mnc1| <= 3 && 2 <= |mnc2| <= 3
    requires Key(mcc1, mnc1, g, t1) == Key(mcc2, mnc2, g, t2)
    ensures mcc1 == mcc2 && mnc1 == mnc2 && t1 == t2
  {
    SameKeyIff(g, mcc1, mnc1, t1, mcc2, mnc2, t2);
    SplitEqual(mcc1, mnc1, mcc2, mnc2);
  }

  /** Without three digits for every MCC, two networks can share a key. */
  lemma ShortMccSharesKey(g: Guami, tmsi: uint32)
    ensures Key("1", "123", g, tmsi) == Key("11", "23", g, tmsi)
  {
    assert "1" + "123" == "11" + "23";
  }

  // ---------------------------------------------------------------- uint_generator

  const ID_RANGE: nat := 0x1_0000_0000

  /** The id d steps after `last`, around the 32-bit range. */
  function Ahead(last: uint32, d: nat): uint32 {
    (last + d) % ID_RANGE
  }

  /** The next id: the first, going round from the last one given, that is not in use. */
  ghost predicate IsNext(last: uint32, used: set<uint32>, id: uint32) {
    && id !in used
    && exists d: nat :: d >= 1 && id == Ahead(last, d) && forall k: nat :: 1 <= k < d ==> Ahead(last, k) in used
  }

  /** The next id is the number after the last one, around 32 bits, unless that is in use; then it is the next one after
      that number. */
  lemma NextIsAfterLast(last: uint32, used: set<uint32>, id: uint32)
    ensures var n: uint32 := if last == 0xFFFF_FFFF then 0 else last + 1;
            IsNext(last, used, id) <==> if n in used then IsNext(n, used, id) else id == n
  {
    var n: uint32 := if last == 0xFFFF_FFFF then 0 else last + 1;
    assert Ahead(last, 1) == n;
    forall d: nat ensures Ahead(n, d) == Ahead(last, d + 1) {
      AheadFrom(last, n, d);
    }
    if n in used {
      if IsNext(last, used, id) {
        var d: nat :| d >= 1 && id == Ahead(last, d) && forall k: nat :: 1 <= k < d ==> Ahead(last, k) in used;
        assert d >= 2 && id == Ahead(n, d - 1);
        forall k: nat | 1 <= k < d - 1 ensures Ahead(n, k) in used {
          assert Ahead(last, k + 1) in used;
        }
      }
      if IsNext(n, used, id) {
        var d: nat :| d >= 1 && id == Ahead(n, d) && forall k: nat :: 1 <= k < d ==> Ahead(n, k) in used;
        assert id == Ahead(last, d + 1);
        forall k: nat | 1 <= k < d + 1 ensures Ahead(last, k) in used {
          if k > 1 {
            assert Ahead(n, k - 1) in used;
          }
        }
      }
    }
  }

  lemma AheadFrom(last: uint32, n: uint32, d: nat)
    requires n == if last == 0xFFFF_FFFF then 0 else last + 1
    ensures Ahead(n, d) == Ahead(last, d + 1)
  {
  }

  datatype Gen = Gen(last: uint32, used: set<uint32>)

  const NEW_GEN := Gen(0, {})

  /** One call of get_uid. */
  ghost predicate GenStep(g: Gen, id: uint32, g': Gen) {
    IsNext(g.last, g.used, id) && g' == Gen(id, g.used + {id})
  }

  /** The state of the generator fixes the id, and with it the next state. */
  lemma NextIsUnique(g: Gen, id1: uint32, g1: Gen, id2: uint32, g2: Gen)
    requires GenStep(g, id1, g1) && GenStep(g, id2, g2)
    ensures id1 == id2 && g1 == g2
  {
    var d: nat :| d >= 1 && id1 == Ahead(g.last, d) && forall k: nat :: 1 <= k < d ==> Ahead(g.last, k) in g.used;
    var e: nat :| e >= 1 && id2 == Ahead(g.last, e) && forall k: nat :: 1 <= k < e ==> Ahead(g.last, k) in g.used;
    assert d == e;
  }

  class UintGenerator {
    var last: uint32
    var used: set<uint32>

    ghost function Value(): Gen
      reads this
    {
      Gen(last, used)
    }

    constructor ()
      ensures Value() == NEW_GEN
    {
      last, used := 0, {};
    }

    /** get_uid ends whenever some id is free; `free` is one. */
    method GetUid(ghost free: uint32) returns (uid: uint32)
      requires free !in used
      modifies this
      ensures GenStep(old(Value()), uid, Value())
    {
      last := (last + 1) % ID_RANGE;
      uid := last;
      ghost var d: nat := 1;
      while uid in used
        invariant d >= 1 && uid == last == Ahead(old(last), d) && used == old(used)
        invariant forall k: nat :: 1 <= k < d ==> Ahead(old(last), k) in used
        decreases (free - uid) % ID_RANGE
      {
        Closer(uid, free);
        AheadOne(old(last), d);
        last := (last + 1) % ID_RANGE;
        uid, d := last, d + 1;
      }
      used := used + {uid};
    }

    method FreeUid(uid: uint32)
      modifies this
      ensures used == old(used) - {uid} && last == old(last)
    {
      used := used - {uid};
    }
  }

  lemma Closer(uid: uint32, free: uint32)
    requires uid != free
    ensures (free - (uid + 1) % ID_RANGE) % ID_RANGE < (free - uid) % ID_RANGE
  {
  }

  lemma AheadOne(last: uint32, d: nat)
    ensures Ahead(last, d + 1) == (Ahead(last, d) + 1) % ID_RANGE
  {
  }

  // ---------------------------------------------------------------- allocations over a run

  datatype Allocation = Allocation(mcc: string, mnc: string, tmsi: uint32)

  /** A run of allocations: each takes its TMSI from the generator, which starts new; none is given back, as the AMF
      never frees a TMSI. `gens` are the states of the generator before, between and after. */
  ghost predicate AllocationRun(gens: seq<Gen>, made: seq<Allocation>) {
    && |gens| == |made| + 1 && gens[0] == NEW_GEN
    && forall i :: 0 <= i < |made| ==> GenStep(gens[i], made[i].tmsi, gens[i + 1])
  }

  /** The TMSIs in use are exactly those allocated so far. */
  lemma {:induction false} UsedAreAllocated(gens: seq<Gen>, made: seq<Allocation>, i: nat, t: uint32)
    requires AllocationRun(gens, made) && i <= |made|
    ensures t in gens[i].used <==> exists j :: 0 <= j < i && made[j].tmsi == t
  {
    if i > 0 {
      UsedAreAllocated(gens, made, i - 1, t);
      assert GenStep(gens[i - 1], made[i - 1].tmsi, gens[i]);
    }
  }

  lemma TmsisDiffer(gens: seq<Gen>, made: seq<Allocation>, i: nat, j: nat)
    requires AllocationRun(gens, made) && i < j < |made|
    ensures made[i].tmsi != made[j].tmsi
  {
    UsedAreAllocated(gens, made, j, made[i].tmsi);
    assert GenStep(gens[j], made[j].tmsi, gens[j + 1]);
  }

  /** The map from GUTI to NAS context after a run of allocations; the n-th allocation stores context n. */
  function GutiMap(g: Guami, made: seq<Allocation>): map<string, nat> {
    if made == [] then map[]
    else
      var n := |made| - 1;
      GutiMap(g, made[..n])[Key(made[n].mcc, made[n].mnc, g, made[n].tmsi) := n]
  }

  ghost predicate ShortPlmns(made: seq<Allocation>) {
    forall i :: 0 <= i < |made| ==> |made[i].mcc| <= 3 && |made[i].mnc| <= 3
  }

  lemma KeysDiffer(g: Guami, gens: seq<Gen>, made: seq<Allocation>, i: nat, j: nat)
    requires AllocationRun(gens, made) && ShortPlmns(made) && i < j < |made|
    ensures Key(made[i].mcc, made[i].mnc, g, made[i].tmsi) != Key(made[j].mcc, made[j].mnc, g, made[j].tmsi)
  {
    TmsisDiffer(gens, made, i, j);
    SameKeyIff(g, made[i].mcc, made[i].mnc, made[i].tmsi, made[j].mcc, made[j].mnc, made[j].tmsi);
  }

  lemma PrefixRun(gens: seq<Gen>, made: seq<Allocation>)
    requires AllocationRun(gens, made) && ShortPlmns(made) && made != []
    ensures AllocationRun(gens[..|made|], made[..|made| - 1]) && ShortPlmns(made[..|made| - 1])
  {
    forall i | 0 <= i < |made| - 1 ensures GenStep(gens[..|made|][i], made[i].tmsi, gens[..|made|][i + 1]) {
      assert GenStep(gens[i], made[i].tmsi, gens[i + 1]);
    }
  }

  /** No allocation takes the map entry of another: over every run of the generator, every GUTI ever allocated still
      leads to its own context. */
  lemma {:induction false} EveryGutiKeepsItsContext(g: Guami, gens: seq<Gen>, made: seq<Allocation>, i: nat)
    requires AllocationRun(gens, made) && ShortPlmns(made) && i < |made|
    ensures var key := Key(made[i].mcc, made[i].mnc, g, made[i].tmsi);
            key in GutiMap(g, made) && GutiMap(g, made)[key] == i
    decreases |made|
  {
    var n := |made| - 1;
    if i < n {
      KeysDiffer(g, gens, made, i, n);
      PrefixRun(gens, made);
      EveryGutiKeepsItsContext(g, gens[..|made|], made[..n], i);
    }
  }
}
