/** The promise registry of the AMF application and the loops that drain the futures handed out for it. */
module Responses {
  import opened Numerals

  // ---------------------------------------------------------------- key order

  lemma {:induction false} LeastElement(s: set<nat>) returns (m: nat)
    requires s != {}
    ensures m in s && forall k :: k in s ==> m <= k
    decreases |s|
  {
    m := SomeElement(s);
    var x := m;
    if s - {x} != {} {
      var n := LeastElement(s - {x});
      m := if x <= n then x else n;
    }
    forall k | k in s ensures m <= k {
      assert k == x || k in s - {x};
    }
  }

  /** The first key of a std::map. */
  function Least(s: set<nat>): (m: nat)
    requires s != {}
    ensures m in s && forall k :: k in s ==> m <= k
  {
    assert exists m: nat :: m in s && forall k :: k in s ==> m <= k by {
      var m := LeastElement(s);
    }
    var m: nat :| m in s && forall k :: k in s ==> m <= k;
    m
  }

  /** The order in which iterating over a std::map visits its keys. */
  function SortedKeys(s: set<nat>): seq<nat>
    decreases |s|
  {
    if s == {} then [] else [Least(s)] + SortedKeys(s - {Least(s)})
  }

  lemma {:induction false} SortedKeysHas(s: set<nat>, k: nat)
    ensures k in SortedKeys(s) <==> k in s
    decreases |s|
  {
    if s != {} {
      var m := Least(s);
      SortedKeysHas(s - {m}, k);
      assert k in [m] + SortedKeys(s - {m}) <==> k == m || k in SortedKeys(s - {m});
    }
  }

  lemma LeastComesFirst(s: set<nat>, j: nat)
    requires s != {} && j < |SortedKeys(s - {Least(s)})|
    ensures Least(s) < SortedKeys(s - {Least(s)})[j]
  {
    var k := SortedKeys(s - {Least(s)})[j];
    assert k in SortedKeys(s - {Least(s)});
    SortedKeysHas(s - {Least(s)}, k);
  }

  lemma {:induction false} SortedKeysIncrease(s: set<nat>)
    ensures forall i, j :: 0 <= i < j < |SortedKeys(s)| ==> SortedKeys(s)[i] < SortedKeys(s)[j]
    ensures |SortedKeys(s)| == |s|
    decreases |s|
  {
    if s != {} {
      var rest := s - {Least(s)};
      SortedKeysIncrease(rest);
      forall j: nat | j < |SortedKeys(rest)| ensures Least(s) < SortedKeys(rest)[j] {
        LeastComesFirst(s, j);
      }
      assert SortedKeys(s) == [Least(s)] + SortedKeys(rest);
    }
  }

  /** Every key once, in increasing order. */
  lemma SortedKeysAreSorted(s: set<nat>)
    ensures forall k :: k in SortedKeys(s) <==> k in s
    ensures forall i, j :: 0 <= i < j < |SortedKeys(s)| ==> SortedKeys(s)[i] < SortedKeys(s)[j]
    ensures |SortedKeys(s)| == |s|
  {
    forall k: nat ensures k in SortedKeys(s) <==> k in s {
      SortedKeysHas(s, k);
    }
    SortedKeysIncrease(s);
  }

  // ---------------------------------------------------------------- draining

  /** How waiting for one future ends. */
  datatype Reply = Ready(body: string) | TimedOut

  /** The verdict after one more reply: an empty body makes it false, a time-out makes it true again. */
  function Judge(verdict: bool, r: Reply): bool {
    match r
    case Ready(body) => if |body| > 0 then verdict else false
    case TimedOut => true
  }

  function Verdict(replies: seq<Reply>): bool {
    if replies == [] then true else Judge(Verdict(replies[..|replies| - 1]), replies[|replies| - 1])
  }

  /** The verdict is false iff an empty reply comes after the last reply that timed out. */
  lemma {:induction false} VerdictFalseIff(replies: seq<Reply>)
    ensures !Verdict(replies)
       <==> exists i :: 0 <= i < |replies| && replies[i] == Ready("")
                        && forall j :: i < j < |replies| ==> replies[j] != TimedOut
  {
    if replies != [] {
      var n := |replies| - 1;
      var init := replies[..n];
      VerdictFalseIff(init);
      match replies[n] {
        case Ready(body) =>
          if |body| == 0 {
            assert replies[n] == Ready("");
          } else {
            if !Verdict(init) {
              var i :| 0 <= i < n && init[i] == Ready("") && forall j :: i < j < n ==> init[j] != TimedOut;
              assert forall j :: i < j < n ==> replies[j] == init[j];
              assert replies[i] == Ready("");
            }
            if i :| 0 <= i < |replies| && replies[i] == Ready("")
                    && forall j :: i < j < |replies| ==> replies[j] != TimedOut {
              assert init[i] == Ready("") && forall j :: i < j < n ==> init[j] == replies[j];
            }
          }
        case TimedOut =>
      }
    }
  }

  function RepliesInOrder(responses: map<nat, Reply>): seq<Reply>
    decreases |responses.Keys|
  {
    if responses.Keys == {} then []
    else
      var first := Least(responses.Keys);
      assert (responses - {first}).Keys == responses.Keys - {first};
      [responses[first]] + RepliesInOrder(responses - {first})
  }

  /** The replies are those of the keys in increasing order. */
  lemma {:induction false} RepliesFollowKeys(responses: map<nat, Reply>)
    ensures |RepliesInOrder(responses)| == |SortedKeys(responses.Keys)|
    ensures forall i :: 0 <= i < |SortedKeys(responses.Keys)| ==>
              && SortedKeys(responses.Keys)[i] in responses
              && RepliesInOrder(responses)[i] == responses[SortedKeys(responses.Keys)[i]]
    decreases |responses.Keys|
  {
    if responses.Keys != {} {
      var first := Least(responses.Keys);
      var rest := responses - {first};
      assert rest.Keys == responses.Keys - {first};
      RepliesFollowKeys(rest);
    }
  }

  /** The waiting loop: take the first response, wait for it, judge it, erase it. */
  method Drain(responses0: map<nat, Reply>) returns (result: bool, visited: seq<nat>)
    ensures visited == SortedKeys(responses0.Keys)
    ensures result == Verdict(RepliesInOrder(responses0))
  {
    var responses := responses0;
    result, visited := true, [];
    ghost var replies: seq<Reply> := [];
    while responses.Keys != {}
      invariant SortedKeys(responses0.Keys) == visited + SortedKeys(responses.Keys)
      invariant RepliesInOrder(responses0) == replies + RepliesInOrder(responses)
      invariant result == Verdict(replies)
      decreases |responses.Keys|
    {
      var first := Least(responses.Keys);
      FirstResponse(responses);
      Associate(visited, [first], SortedKeys((responses - {first}).Keys));
      Associate(replies, [responses[first]], RepliesInOrder(responses - {first}));
      VerdictStep(replies, responses[first]);
      result := Judge(result, responses[first]);
      replies, visited := replies + [responses[first]], visited + [first];
      responses := responses - {first};
    }
    assert visited + [] == visited && replies + [] == replies;
  }

  lemma FirstResponse(responses: map<nat, Reply>)
    requires responses.Keys != {}
    ensures var first := Least(responses.Keys);
            var rest := responses - {first};
            && |rest.Keys| < |responses.Keys|
            && SortedKeys(responses.Keys) == [first] + SortedKeys(rest.Keys)
            && RepliesInOrder(responses) == [responses[first]] + RepliesInOrder(rest)
  {
    var first := Least(responses.Keys);
    assert (responses - {first}).Keys == responses.Keys - {first};
  }

  lemma VerdictStep(replies: seq<Reply>, r: Reply)
    ensures Verdict(replies + [r]) == Judge(Verdict(replies), r)
  {
    assert (replies + [r])[..|replies + [r]| - 1] == replies;
  }

  // ---------------------------------------------------------------- the promise registry

  /** Promises by the id of the request they wait for; a promise is known by a reference. */
  datatype Registry = Registry(pending: map<nat, nat>, values: map<nat, string>)

  datatype Event = Add(pid: nat, promise: nat) | Trigger(pid: nat, value: string)

  /** add_promise emplaces: a promise added under a pending id is not registered. */
  function Step(r: Registry, e: Event): Registry {
    match e
    case Add(pid, promise) => if pid in r.pending then r else r.(pending := r.pending[pid := promise])
    case Trigger(pid, value) =>
      if pid in r.pending
      then Registry(r.pending - {pid}, r.values[r.pending[pid] := value])
      else r
  }

  function Run(r: Registry, es: seq<Event>): Registry {
    if es == [] then r else Step(Run(r, es[..|es| - 1]), es[|es| - 1])
  }

  const EMPTY := Registry(map[], map[])

  /** Every promise is added at most once. */
  ghost predicate DistinctPromises(es: seq<Event>) {
    forall i, j :: 0 <= i < j < |es| && es[i].Add? && es[j].Add? ==> es[i].promise != es[j].promise
  }

  /** The position of the first trigger for `pid` from `from` on, or |es|. */
  function FirstTrigger(es: seq<Event>, from: nat, pid: nat): (k: nat)
    requires from <= |es|
    ensures from <= k <= |es|
    ensures k < |es| ==> es[k].Trigger? && es[k].pid == pid
    ensures forall i :: from <= i < k ==> !(es[i].Trigger? && es[i].pid == pid)
    decreases |es| - from
  {
    if from == |es| || (es[from].Trigger? && es[from].pid == pid) then from else FirstTrigger(es, from + 1, pid)
  }

  lemma {:induction false} PendingWereAdded(es: seq<Event>, pid: nat)
    requires pid in Run(EMPTY, es).pending
    ensures exists i :: 0 <= i < |es| && es[i] == Add(pid, Run(EMPTY, es).pending[pid])
    decreases |es|
  {
    var init := es[..|es| - 1];
    if pid in Run(EMPTY, init).pending {
      PendingWereAdded(init, pid);
      var i :| 0 <= i < |init| && init[i] == Add(pid, Run(EMPTY, init).pending[pid]);
      assert es[i] == init[i];
    } else {
      assert es[|es| - 1] == Add(pid, Run(EMPTY, es).pending[pid]);
    }
  }

  lemma {:induction false} ValuesWereAdded(es: seq<Event>, p: nat)
    requires p in Run(EMPTY, es).values
    ensures exists i :: 0 <= i < |es| && es[i].Add? && es[i].promise == p
    decreases |es|
  {
    var init, e := es[..|es| - 1], es[|es| - 1];
    if p in Run(EMPTY, init).values {
      ValuesWereAdded(init, p);
      var i :| 0 <= i < |init| && init[i].Add? && init[i].promise == p;
      assert es[i] == init[i];
    } else {
      PendingWereAdded(init, e.pid);
      var i :| 0 <= i < |init| && init[i] == Add(e.pid, Run(EMPTY, init).pending[e.pid]);
      assert es[i] == init[i];
    }
  }

  /** What has become of the promise added at position i. */
  ghost predicate Fate(es: seq<Event>, i: nat)
    requires i < |es| && es[i].Add?
  {
    var pid, p := es[i].pid, es[i].promise;
    var registered := pid !in Run(EMPTY, es[..i]).pending;
    var k := FirstTrigger(es, i, pid);
    var r := Run(EMPTY, es);
    && (p in r.values <==> registered && k < |es|)
    && (p in r.values ==> r.values[p] == es[k].value)
    && (forall q :: q in r.pending && r.pending[q] == p <==> registered && k == |es| && q == pid)
  }

  lemma FateOfNew(es: seq<Event>)
    requires DistinctPromises(es) && es != [] && es[|es| - 1].Add?
    ensures Fate(es, |es| - 1)
  {
    var i := |es| - 1;
    var init, p := es[..i], es[i].promise;
    if p in Run(EMPTY, init).values {
      ValuesWereAdded(init, p);
    }
    forall q | q in Run(EMPTY, init).pending ensures Run(EMPTY, init).pending[q] != p {
      PendingWereAdded(init, q);
    }
  }

  lemma RunMore(es: seq<Event>, e: Event)
    ensures Run(EMPTY, es + [e]) == Step(Run(EMPTY, es), e)
  {
    assert (es + [e])[..|es + [e]| - 1] == es;
  }

  lemma FirstTriggerMore(es: seq<Event>, e: Event, from: nat, pid: nat)
    requires from < |es|
    ensures FirstTrigger(es + [e], from, pid)
         == if FirstTrigger(es, from, pid) < |es| then FirstTrigger(es, from, pid)
            else if e.Trigger? && e.pid == pid then |es| else |es| + 1
  {
    var all := es + [e];
    assert all[..|all| - 1] == es && all[|es|] == e;
    FirstTriggerOfPrefix(all, from, pid);
  }

  /** The fate of a promise after one more event, from its fate before. */
  lemma FateNext(r: Registry, e: Event, pid: nat, p: nat, registered: bool, done: bool)
    requires p in r.values <==> registered && done
    requires forall q :: q in r.pending && r.pending[q] == p <==> registered && !done && q == pid
    requires e.Add? ==> e.promise != p
    ensures var r', done' := Step(r, e), done || (e.Trigger? && e.pid == pid);
            && (p in r'.values <==> registered && done')
            && (done && registered ==> r'.values[p] == r.values[p])
            && (!done && done' && registered ==> r'.values[p] == e.value)
            && (forall q :: q in r'.pending && r'.pending[q] == p <==> registered && !done' && q == pid)
  {
  }

  lemma FateStep(es: seq<Event>, e: Event, i: nat)
    requires DistinctPromises(es + [e]) && i < |es| && es[i].Add? && Fate(es, i)
    ensures Fate(es + [e], i)
  {
    var all := es + [e];
    var pid, p := es[i].pid, es[i].promise;
    assert all[..i] == es[..i] && all[i] == es[i] && all[|es|] == e;
    RunMore(es, e);
    FirstTriggerMore(es, e, i, pid);
    var k := FirstTrigger(es, i, pid);
    FateNext(Run(EMPTY, es), e, pid, p, pid !in Run(EMPTY, es[..i]).pending, k < |es|);
  }

  /** In every run, the fate of the promise added at position i: if its id was pending already it is never
      fulfilled; otherwise it gets the value of the first later trigger for its id, once and for good, and
      is pending, under that id alone, until then. */
  lemma {:induction false} PromiseGetsFirstTrigger(es: seq<Event>, i: nat)
    requires DistinctPromises(es) && i < |es| && es[i].Add?
    ensures Fate(es, i)
    decreases |es|
  {
    var init := es[..|es| - 1];
    if i == |init| {
      FateOfNew(es);
    } else {
      PromiseGetsFirstTrigger(init, i);
      assert es == init + [es[|es| - 1]];
      FateStep(init, es[|es| - 1], i);
    }
  }

  /** A trigger changes no other pending promise and no value already given. */
  lemma TriggerTouchesOneId(es: seq<Event>, pid: nat, value: string, i: nat)
    requires DistinctPromises(es) && i < |es| && es[i].Add?
    ensures var r, r' := Run(EMPTY, es), Step(Run(EMPTY, es), Trigger(pid, value));
            && (forall q :: q != pid ==> (q in r.pending <==> q in r'.pending))
            && (forall q :: q != pid && q in r.pending ==> r'.pending[q] == r.pending[q])
            && (es[i].promise in r.values ==> r'.values[es[i].promise] == r.values[es[i].promise])
  {
    PromiseGetsFirstTrigger(es, i);
  }

  lemma {:induction false} FirstTriggerOfPrefix(es: seq<Event>, from: nat, pid: nat)
    requires from < |es|
    ensures var init := es[..|es| - 1];
            FirstTrigger(es, from, pid)
            == if FirstTrigger(init, from, pid) < |init| then FirstTrigger(init, from, pid)
               else if es[|init|].Trigger? && es[|init|].pid == pid then |init| else |es|
    decreases |es| - from
  {
    var init := es[..|es| - 1];
    if from < |init| {
      FirstTriggerOfPrefix(es, from + 1, pid);
      assert init[from] == es[from];
    }
  }

  // ---------------------------------------------------------------- the registry object

  class Promise {
    var value: Option<string>
    /** What the model knows the promise by. */
    ghost const id: nat

    constructor (ghost id: nat)
      ensures value == None && this.id == id
    {
      value := None;
      this.id := id;
    }
  }

  /** The map of pending promises of amf_app. */
  class PromiseRegistry {
    var pending: map<nat, Promise>
    ghost var model: Registry
    /** Every promise ever handed to the registry. */
    ghost var known: set<Promise>

    /** The map and the promises are what the model says: a promise has the value given to it, or none. */
    ghost predicate Represents()
      reads this, known
    {
      && pending.Keys == model.pending.Keys
      && (forall k :: k in pending ==> pending[k] in known && pending[k].id == model.pending[k])
      && (forall p, q :: p in known && q in known && p.id == q.id ==> p == q)
      && (forall p :: p in known ==> p.value == if p.id in model.values then Some(model.values[p.id]) else None)
    }

    constructor ()
      ensures Represents() && model == EMPTY && known == {}
    {
      pending, model, known := map[], EMPTY, {};
    }

    /** `p` is a new promise. */
    method AddPromise(pid: nat, p: Promise)
      requires Represents() && p.value == None && p.id !in model.values && forall q :: q in known ==> q.id != p.id
      modifies this
      ensures Represents() && model == Step(old(model), Add(pid, p.id)) && known == old(known) + {p}
      ensures pending == if pid in old(pending) then old(pending) else old(pending)[pid := p]
    {
      if pid !in pending {
        pending := pending[pid := p];
      }
      model, known := Step(model, Add(pid, p.id)), known + {p};
    }

    /** trigger_process_response. */
    method TriggerProcessResponse(pid: nat, value: string)
      requires Represents()
      modifies this, if pid in pending then {pending[pid]} else {}
      ensures Represents() && model == Step(old(model), Trigger(pid, value)) && known == old(known)
      ensures pending == old(pending) - {pid}
      ensures pid in old(pending) ==> old(pending)[pid].value == Some(value)
    {
      if pid in pending {
        pending[pid].value := Some(value);
        pending := pending - {pid};
      }
      model := Step(model, Trigger(pid, value));
      assert pid !in old(pending) ==> old(pending) - {pid} == old(pending);
    }
  }
}
