/** The sequence number (SQN) of a subscriber: 48 bits, kept as a number in the database and used as six octets in
    authentication vectors. */
module Sqn {
  import opened Numerals

  const SQN_RANGE: nat := 0x1_0000_0000_0000
  const SQN_STEP: nat := 32
  const MAX_5GS_AUTH_VECTORS := 1

  /** Six octets, most significant first. */
  type Octets = s: seq<uint8> | |s| == 6 witness [0, 0, 0, 0, 0, 0]

  /** What get_mysql_auth_info makes of the number in the database. */
  function Unpack(n: nat): Octets {
    var n1 := n / 0x100;
    var n2 := n1 / 0x100;
    var n3 := n2 / 0x100;
    var n4 := n3 / 0x100;
    var n5 := n4 / 0x100;
    [n5 % 0x100, n4 % 0x100, n3 % 0x100, n2 % 0x100, n1 % 0x100, n % 0x100]
  }

  /** What mysql_push_rand_sqn stores. */
  function Pack(s: Octets): (n: nat)
    ensures n < SQN_RANGE
  {
    var a: int, b: int, c: int, d: int, e: int, f: int := s[0], s[1], s[2], s[3], s[4], s[5];
    ((((a * 0x100 + b) * 0x100 + c) * 0x100 + d) * 0x100 + e) * 0x100 + f
  }

  lemma Digit(q: nat, r: uint8)
    ensures (q * 0x100 + r) / 0x100 == q && (q * 0x100 + r) % 0x100 == r
  {
  }

  lemma Remainder(n: nat, q: nat, r: nat)
    requires n == q * SQN_RANGE + r && r < SQN_RANGE
    ensures n % SQN_RANGE == r
  {
  }

  /** Unpacking keeps the low 48 bits, and is the inverse of packing. */
  lemma PackUnpack(n: nat)
    ensures Pack(Unpack(n)) == n % SQN_RANGE
  {
    var n1 := n / 0x100;
    var n2 := n1 / 0x100;
    var n3 := n2 / 0x100;
    var n4 := n3 / 0x100;
    var n5 := n4 / 0x100;
    Remainder(n, n5 / 0x100, Pack(Unpack(n)));
  }

  lemma UnpackPack(s: Octets)
    ensures Unpack(Pack(s)) == s
  {
    var a: int, b: int, c: int, d: int, e: int, f: int := s[0], s[1], s[2], s[3], s[4], s[5];
    var n4 := a * 0x100 + b;
    var n3 := n4 * 0x100 + c;
    var n2 := n3 * 0x100 + d;
    var n1 := n2 * 0x100 + e;
    Digit(n1, f);
    Digit(n2, e);
    Digit(n3, d);
    Digit(n4, c);
    Digit(a, b);
  }

  lemma PackInjective(a: Octets, b: Octets)
    ensures Pack(a) == Pack(b) <==> a == b
  {
    UnpackPack(a);
    UnpackPack(b);
  }

  /** The octets come most significant first: the order of the numbers is that of the texts of octets. */
  lemma PackIsBigEndian(a: Octets, b: Octets, k: nat)
    requires k < 6 && a[..k] == b[..k] && a[k] < b[k]
    ensures Pack(a) < Pack(b)
  {
    if k > 0 { assert a[0] == a[..k][0] && b[0] == b[..k][0]; }
    if k > 1 { assert a[1] == a[..k][1] && b[1] == b[..k][1]; }
    if k > 2 { assert a[2] == a[..k][2] && b[2] == b[..k][2]; }
    if k > 3 { assert a[3] == a[..k][3] && b[3] == b[..k][3]; }
    if k > 4 { assert a[4] == a[..k][4] && b[4] == b[..k][4]; }
  }

  // ---------------------------------------------------------------- generations

  /** One generation: the SQN that the UE sent for resynchronisation, if it sent one that checks. */
  datatype Request = Request(resync: Option<Octets>)

  /** The number in the database before the vectors are made. */
  function Base(db: nat, r: Request): nat {
    match r.resync
    case Some(m) => Pack(m) + SQN_STEP
    case None => db
  }

  /** The SQN that the vector carries. */
  function Used(db: nat, r: Request): Octets {
    Unpack(Base(db, r))
  }

  /** The number in the database afterwards: the SQN used is pushed and then advanced. */
  function After(db: nat, r: Request): nat {
    Pack(Used(db, r)) + SQN_STEP
  }

  function AfterAll(db: nat, rs: seq<Request>): nat {
    if rs == [] then db else After(AfterAll(db, rs[..|rs| - 1]), rs[|rs| - 1])
  }

  /** The SQN of the request at position i. */
  function UsedAt(db: nat, rs: seq<Request>, i: nat): Octets
    requires i < |rs|
  {
    Used(AfterAll(db, rs[..i]), rs[i])
  }

  predicate NoResync(rs: seq<Request>) {
    forall i :: 0 <= i < |rs| ==> rs[i].resync.None?
  }

  lemma AddModulo(a: nat, b: nat)
    ensures (a % SQN_RANGE + b) % SQN_RANGE == (a + b) % SQN_RANGE
  {
  }

  lemma NextModulo(a: nat, b: nat)
    requires a % SQN_RANGE == b % SQN_RANGE
    ensures (a + SQN_STEP) % SQN_RANGE == (b + SQN_STEP) % SQN_RANGE
  {
    AddModulo(a, SQN_STEP);
    AddModulo(b, SQN_STEP);
  }

  lemma AfterPlain(db: nat, r: Request)
    requires r.resync.None?
    ensures After(db, r) % SQN_RANGE == (db + SQN_STEP) % SQN_RANGE
  {
    PackUnpack(db);
    AddModulo(db, SQN_STEP);
  }

  lemma {:induction false} AfterWithoutResync(db: nat, rs: seq<Request>)
    requires NoResync(rs)
    ensures AfterAll(db, rs) % SQN_RANGE == (db + SQN_STEP * |rs|) % SQN_RANGE
  {
    if rs != [] {
      var init := rs[..|rs| - 1];
      AfterWithoutResync(db, init);
      AfterPlain(AfterAll(db, init), rs[|rs| - 1]);
      NextModulo(AfterAll(db, init), db + SQN_STEP * |init|);
    }
  }

  /** Without resynchronisation the i-th vector carries s + 32 * i modulo 2^48, for every number s in the database
      and every i. */
  lemma VectorNumber(s: nat, rs: seq<Request>, i: nat)
    requires NoResync(rs) && i < |rs|
    ensures Pack(UsedAt(s, rs, i)) == (s + SQN_STEP * i) % SQN_RANGE
  {
    AfterWithoutResync(s, rs[..i]);
    PackUnpack(AfterAll(s, rs[..i]));
  }

  const PERIOD: nat := 0x800_0000_0000   // 2^43 = SQN_RANGE / SQN_STEP

  lemma Multiple(d: nat, k: int)
    requires d == PERIOD * k
    ensures d % PERIOD == 0
  {
  }

  lemma AddMultiple(a: nat, k: nat)
    ensures (a + SQN_RANGE * k) % SQN_RANGE == a % SQN_RANGE
  {
    Remainder(a + SQN_RANGE * k, a / SQN_RANGE + k, a % SQN_RANGE);
  }

  lemma StepsApart(s: nat, i: nat, j: nat)
    requires i <= j
    ensures (s + SQN_STEP * i) % SQN_RANGE == (s + SQN_STEP * j) % SQN_RANGE <==> (j - i) % PERIOD == 0
  {
    var a, b := s + SQN_STEP * i, s + SQN_STEP * j;
    if a % SQN_RANGE == b % SQN_RANGE {
      Multiple(j - i, b / SQN_RANGE - a / SQN_RANGE);
    }
    if (j - i) % PERIOD == 0 {
      AddMultiple(a, (j - i) / PERIOD);
    }
  }

  lemma SmallIsNoMultiple(d: nat)
    requires 0 < d < PERIOD
    ensures d % PERIOD != 0
  {
  }

  /** Two vectors carry the same SQN iff a multiple of 2^43 generations lies between them. */
  lemma ReusedIff(s: nat, rs: seq<Request>, i: nat, j: nat)
    requires NoResync(rs) && i < j < |rs|
    ensures UsedAt(s, rs, i) == UsedAt(s, rs, j) <==> (j - i) % PERIOD == 0
  {
    VectorNumber(s, rs, i);
    VectorNumber(s, rs, j);
    PackInjective(UsedAt(s, rs, i), UsedAt(s, rs, j));
    StepsApart(s, i, j);
  }

  /** So none is used again while s + 32 * n stays within 2^48. */
  lemma NotReused(s: nat, rs: seq<Request>, i: nat, j: nat)
    requires NoResync(rs) && i < j < |rs| && s + SQN_STEP * |rs| <= SQN_RANGE
    ensures UsedAt(s, rs, i) != UsedAt(s, rs, j)
  {
    ReusedIff(s, rs, i, j);
    SmallIsNoMultiple(j - i);
  }

  /** After a resynchronisation from m the first vector carries m + 32, and the k-th after it m + 32 + 32 * k. */
  lemma ResyncNumber(db: nat, m: Octets, rs: seq<Request>, k: nat)
    requires NoResync(rs) && k <= |rs|
    ensures var all := [Request(Some(m))] + rs;
            Pack(UsedAt(db, all, k)) == (Pack(m) + SQN_STEP + SQN_STEP * k) % SQN_RANGE
  {
    var first := Request(Some(m));
    var all := [first] + rs;
    PackUnpack(Base(db, first));
    if k == 0 {
      assert all[..0] == [];
    } else {
      AfterFirst(db, first, rs[..k - 1]);
      assert all[..k] == [first] + rs[..k - 1];
      var next := After(db, first);
      AfterWithoutResync(next, rs[..k - 1]);
      PackUnpack(AfterAll(db, all[..k]));
      AddModulo(Base(db, first), SQN_STEP + SQN_STEP * (k - 1));
    }
  }

  lemma {:induction false} AfterFirst(db: nat, first: Request, rs: seq<Request>)
    ensures AfterAll(db, [first] + rs) == AfterAll(After(db, first), rs)
  {
    var all := [first] + rs;
    if rs == [] {
      assert all[..0] == [];
    } else {
      assert all[..|all| - 1] == [first] + rs[..|rs| - 1];
      AfterFirst(db, first, rs[..|rs| - 1]);
    }
  }

  // ---------------------------------------------------------------- the code

  /** The subscriber's row in the users table. */
  class Subscriber {
    var sqn: nat

    method GetAuthInfo() returns (s: Octets)
      ensures s == Unpack(sqn)
    {
      s := Unpack(sqn);
    }

    method PushSqn(s: Octets)
      modifies this
      ensures sqn == Pack(s)
    {
      sqn := Pack(s);
    }

    method IncrementSqn()
      modifies this
      ensures sqn == old(sqn) + SQN_STEP
    {
      sqn := sqn + SQN_STEP;
    }

    /** authentication_vectors_generator_in_udm: the SQN of each vector made. */
    method GenerateVectors(r: Request) returns (vectors: seq<Octets>)
      modifies this
      ensures vectors == [Used(old(sqn), r)] && |vectors| == MAX_5GS_AUTH_VECTORS
      ensures sqn == After(old(sqn), r)
    {
      var s := GetAuthInfo();
      if r.resync.Some? {
        PushSqn(r.resync.value);
        IncrementSqn();
        s := GetAuthInfo();
      }
      vectors := [];
      for i := 0 to MAX_5GS_AUTH_VECTORS
        invariant vectors == seq(i, _ => s)
      {
        vectors := vectors + [s];
      }
      PushSqn(s);
      IncrementSqn();
    }
  }
}
