/** The timer id counter. timer_setup increments it without a lock and many threads call timer_setup, so reading the
    counter and writing it back are two steps. */
module TimerIds {
  import opened Numerals

  /** `reading`: threads between the two steps, and what they read. `issued`: the ids returned, in order. */
  datatype Counter = Counter(value: nat, reading: map<nat, nat>, issued: seq<nat>)

  datatype Event = Read(thread: nat) | Write(thread: nat)

  const NEW_COUNTER := Counter(0, map[], [])

  /** A thread inside an increment only writes, and any other only reads. */
  function Step(c: Counter, e: Event): Counter {
    match e
    case Read(k) => if k in c.reading then c else c.(reading := c.reading[k := c.value])
    case Write(k) =>
      if k !in c.reading then c
      else Counter(c.reading[k] + 1, c.reading - {k}, c.issued + [c.reading[k] + 1])
  }

  function Run(es: seq<Event>): Counter {
    if es == [] then NEW_COUNTER else Step(Run(es[..|es| - 1]), es[|es| - 1])
  }

  /** The event begins an increment inside another thread's. */
  predicate Overlaps(c: Counter, e: Event) {
    e.Read? && e.thread !in c.reading && c.reading != map[]
  }

  ghost predicate Separate(es: seq<Event>) {
    forall n :: 0 <= n < |es| ==> !Overlaps(Run(es[..n]), es[n])
  }

  ghost predicate Distinct(s: seq<nat>) {
    forall i, j :: 0 <= i < j < |s| ==> s[i] != s[j]
  }

  // ---------------------------------------------------------------- without overlap

  /** At most one thread is inside an increment, and read the current value; all ids so far are below or equal. */
  ghost predicate Serial(c: Counter) {
    && Distinct(c.issued)
    && (forall i :: 0 <= i < |c.issued| ==> c.issued[i] <= c.value)
    && (forall k, l :: k in c.reading && l in c.reading ==> k == l)
    && (forall k :: k in c.reading ==> c.reading[k] == c.value)
  }

  lemma StepKeepsSerial(c: Counter, e: Event)
    requires Serial(c) && !Overlaps(c, e)
    ensures Serial(Step(c, e))
  {
    if e.Read? && e.thread !in c.reading {
      assert forall k :: k !in c.reading;
    }
  }

  lemma {:induction false} SeparateIsSerial(es: seq<Event>, n: nat)
    requires n <= |es| && forall m :: 0 <= m < n ==> !Overlaps(Run(es[..m]), es[m])
    ensures Serial(Run(es[..n]))
  {
    if n > 0 {
      SeparateIsSerial(es, n - 1);
      assert es[..n][..n - 1] == es[..n - 1];
      StepKeepsSerial(Run(es[..n - 1]), es[n - 1]);
    }
  }

  // ---------------------------------------------------------------- with overlap

  function Count(s: seq<nat>, x: nat): nat {
    if s == [] then 0 else Count(s[..|s| - 1], x) + if s[|s| - 1] == x then 1 else 0
  }

  lemma {:induction false} CountInDistinct(s: seq<nat>, x: nat)
    requires Distinct(s)
    ensures Count(s, x) <= 1 && (x !in s ==> Count(s, x) == 0)
  {
    if s != [] {
      var init := s[..|s| - 1];
      CountInDistinct(init, x);
      assert s == init + [s[|s| - 1]];
    }
  }

  function ReadersOf(c: Counter, v: nat): set<nat> {
    set k | k in c.reading && c.reading[k] == v
  }

  /** How often v + 1 has been issued or is about to be. */
  function Due(c: Counter, v: nat): nat {
    Count(c.issued, v + 1) + |ReadersOf(c, v)|
  }

  lemma CountMore(s: seq<nat>, y: nat, x: nat)
    ensures Count(s + [y], x) == Count(s, x) + if y == x then 1 else 0
  {
    assert (s + [y])[..|s + [y]| - 1] == s;
  }

  lemma ReadKeepsDue(c: Counter, k: nat, v: nat)
    requires k !in c.reading
    ensures Due(c, v) <= Due(Step(c, Read(k)), v)
  {
    var c' := Step(c, Read(k));
    assert ReadersOf(c', v) == ReadersOf(c, v) + if c.value == v then {k} else {};
  }

  /** The thread that writes is no longer about to issue the id; it has. */
  lemma WriteKeepsDue(c: Counter, k: nat, v: nat)
    requires k in c.reading
    ensures Due(c, v) <= Due(Step(c, Write(k)), v)
  {
    CountMore(c.issued, c.reading[k] + 1, v + 1);
    assert ReadersOf(Step(c, Write(k)), v) == ReadersOf(c, v) - {k};
    assert k in ReadersOf(c, v) <==> c.reading[k] == v;
  }

  lemma DueGrows(c: Counter, e: Event, v: nat)
    ensures Due(c, v) <= Due(Step(c, e), v)
  {
    match e
    case Read(k) => if k !in c.reading { ReadKeepsDue(c, k, v); }
    case Write(k) => if k in c.reading { WriteKeepsDue(c, k, v); }
  }

  lemma {:induction false} DueGrowsOverRun(es: seq<Event>, n: nat, v: nat)
    requires n <= |es|
    ensures Due(Run(es[..n]), v) <= Due(Run(es), v)
    decreases |es| - n
  {
    if n == |es| {
      assert es[..n] == es;
    } else {
      DueGrowsOverRun(es, n + 1, v);
      assert es[..n + 1][..n] == es[..n];
      DueGrows(Run(es[..n]), es[n], v);
    }
  }

  /** The first overlap: two threads have read the same value. */
  lemma OverlapReadsTwice(c: Counter, e: Event)
    requires Serial(c) && Overlaps(c, e)
    ensures Due(Step(c, e), c.value) >= 2
  {
    var k := SomeElement(c.reading.Keys);
    assert {k, e.thread} <= ReadersOf(Step(c, e), c.value);
    assert |{k, e.thread}| == 2;
    Subset({k, e.thread}, ReadersOf(Step(c, e), c.value));
  }

  lemma Subset(a: set<nat>, b: set<nat>)
    requires a <= b
    ensures |a| <= |b|
  {
    assert b == a + (b - a);
  }

  lemma {:induction false} FirstOverlap(es: seq<Event>, n: nat) returns (m: nat)
    requires n < |es| && Overlaps(Run(es[..n]), es[n])
    ensures m <= n && Overlaps(Run(es[..m]), es[m]) && Serial(Run(es[..m]))
  {
    if i :| 0 <= i < n && Overlaps(Run(es[..i]), es[i]) {
      m := FirstOverlap(es, i);
    } else {
      SeparateIsSerial(es, n);
      m := n;
    }
  }

  lemma OverlapIssuesTwice(es: seq<Event>, m: nat)
    requires Run(es).reading == map[] && m < |es| && Overlaps(Run(es[..m]), es[m]) && Serial(Run(es[..m]))
    ensures !Distinct(Run(es).issued)
  {
    var v := Run(es[..m]).value;
    OverlapReadsTwice(Run(es[..m]), es[m]);
    assert es[..m + 1][..m] == es[..m];
    DueGrowsOverRun(es, m + 1, v);
    TwiceIsNotDistinct(Run(es), v);
  }

  lemma TwiceIsNotDistinct(c: Counter, v: nat)
    requires c.reading == map[] && Due(c, v) >= 2
    ensures !Distinct(c.issued)
  {
    assert ReadersOf(c, v) == {};
    if Distinct(c.issued) {
      CountInDistinct(c.issued, v + 1);
    }
  }

  /** Over every run in which all increments are completed: the ids are distinct iff no increment begins inside
      another. */
  lemma IdsDistinctIff(es: seq<Event>)
    requires Run(es).reading == map[]
    ensures Distinct(Run(es).issued) <==> Separate(es)
  {
    if Separate(es) {
      SeparateIsSerial(es, |es|);
      assert es[..|es|] == es;
    } else {
      var n :| 0 <= n < |es| && Overlaps(Run(es[..n]), es[n]);
      var m := FirstOverlap(es, n);
      OverlapIssuesTwice(es, m);
    }
  }
}
