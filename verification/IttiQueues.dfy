/** The message queues of the inter-task interface. Looking at a task's state and pushing a message on its queue are
    separate steps, so that senders, receivers and the end of tasks interleave between them. */
module IttiQueues {
  import opened Numerals

  const TASK_FIRST: nat := 0
  const TASK_MAX: nat := 8
  const TASK_ALL: nat := 255

  datatype TaskState = Starting | Running | Ended       // Running is TASK_STATE_READY

  datatype Task = Task(state: TaskState, queue: seq<nat>)

  /** Where a call of send_msg stands. */
  datatype Progress =
    | Pushing(to: nat)                 // unicast, destination seen ready
    | Scanning(next: nat)              // broadcast, about to look at a task
    | Delivering(next: nat)            // broadcast, task seen ready
    | Returned(ok: bool)

  datatype Call = Call(msg: nat, dest: nat, progress: Progress)

  /** A push: by which call, to which task. */
  datatype Push = Push(call: nat, task: nat, msg: nat)
  datatype Receipt = Receipt(task: nat, msg: nat)

  /** `pushes` and `receipts` are history. */
  datatype Mw = Mw(tasks: map<nat, Task>, calls: map<nat, Call>, pushes: seq<Push>, receipts: seq<Receipt>)

  const EMPTY_MW := Mw(map[], map[], [], [])

  datatype Event =
    | Create(task: nat)
    | NotifyReady(task: nat)
    | End(task: nat)                   // wait_tasks_end comes to it
    | Send(call: nat, msg: nat, dest: nat)
    | Advance(call: nat)
    | Receive(task: nat)               // receive_msg or poll_msg takes the front message, if there is one

  predicate IsReady(m: Mw, t: nat) {
    t in m.tasks && m.tasks[t].state == Running
  }

  function SetState(m: Mw, t: nat, s: TaskState): Mw
    requires t in m.tasks
  {
    m.(tasks := m.tasks[t := m.tasks[t].(state := s)])
  }

  function Pushed(m: Mw, c: nat, t: nat): Mw
    requires c in m.calls && t in m.tasks
  {
    var msg := m.calls[c].msg;
    m.(tasks := m.tasks[t := m.tasks[t].(queue := m.tasks[t].queue + [msg])], pushes := m.pushes + [Push(c, t, msg)])
  }

  function Progressed(m: Mw, c: nat, p: Progress): Mw
    requires c in m.calls
  {
    m.(calls := m.calls[c := m.calls[c].(progress := p)])
  }

  /** send_msg up to its first look at a task. */
  function OnSend(m: Mw, c: nat, msg: nat, dest: nat): Mw {
    if c in m.calls then m
    else
      var p :=
        if dest < TASK_MAX then (if IsReady(m, dest) then Pushing(dest) else Returned(false))
        else if dest == TASK_ALL then Scanning(TASK_FIRST)
        else Returned(false);
      m.(calls := m.calls[c := Call(msg, dest, p)])
  }

  function OnAdvance(m: Mw, c: nat): Mw {
    if c !in m.calls then m
    else match m.calls[c].progress
      case Pushing(t) => if t in m.tasks then Progressed(Pushed(m, c, t), c, Returned(true)) else m
      case Scanning(next) =>
        if next >= TASK_MAX then Progressed(m, c, Returned(true))
        else if IsReady(m, next) then Progressed(m, c, Delivering(next))
        else Progressed(m, c, Scanning(next + 1))
      case Delivering(next) => if next in m.tasks then Progressed(Pushed(m, c, next), c, Scanning(next + 1)) else m
      case Returned(_) => m
  }

  function OnReceive(m: Mw, t: nat): Mw {
    if t !in m.tasks || m.tasks[t].queue == [] then m
    else
      var q := m.tasks[t].queue;
      m.(tasks := m.tasks[t := m.tasks[t].(queue := q[1..])], receipts := m.receipts + [Receipt(t, q[0])])
  }

  function Step(m: Mw, e: Event): Mw {
    match e
    case Create(t) => if t < TASK_MAX && t !in m.tasks then m.(tasks := m.tasks[t := Task(Starting, [])]) else m
    case NotifyReady(t) => if t in m.tasks && m.tasks[t].state == Starting then SetState(m, t, Running) else m
    case End(t) => if t in m.tasks then SetState(m, t, Ended) else m
    case Send(c, msg, dest) => OnSend(m, c, msg, dest)
    case Advance(c) => OnAdvance(m, c)
    case Receive(t) => OnReceive(m, t)
  }

  function Run(es: seq<Event>): Mw {
    if es == [] then EMPTY_MW else Step(Run(es[..|es| - 1]), es[|es| - 1])
  }

  // ---------------------------------------------------------------- first in, first out

  function PushedTo(pushes: seq<Push>, t: nat): seq<nat> {
    if pushes == [] then []
    else
      var init, last := PushedTo(pushes[..|pushes| - 1], t), pushes[|pushes| - 1];
      if last.task == t then init + [last.msg] else init
  }

  function ReceivedBy(receipts: seq<Receipt>, t: nat): seq<nat> {
    if receipts == [] then []
    else
      var init, last := ReceivedBy(receipts[..|receipts| - 1], t), receipts[|receipts| - 1];
      if last.task == t then init + [last.msg] else init
  }

  function QueueOf(m: Mw, t: nat): seq<nat> {
    if t in m.tasks then m.tasks[t].queue else []
  }

  ghost predicate Balanced(m: Mw, t: nat) {
    ReceivedBy(m.receipts, t) + QueueOf(m, t) == PushedTo(m.pushes, t)
  }

  lemma PushBalances(m: Mw, c: nat, to: nat, t: nat)
    requires c in m.calls && to in m.tasks && Balanced(m, t)
    ensures Balanced(Pushed(m, c, to), t)
  {
    var m' := Pushed(m, c, to);
    assert m'.pushes[..|m'.pushes| - 1] == m.pushes;
    if to == t {
      Associate(ReceivedBy(m.receipts, t), QueueOf(m, t), [m.calls[c].msg]);
    }
  }

  lemma ReceiveBalances(m: Mw, from: nat, t: nat)
    requires Balanced(m, t)
    ensures Balanced(OnReceive(m, from), t)
  {
    var m' := OnReceive(m, from);
    if m' != m {
      assert m'.receipts[..|m'.receipts| - 1] == m.receipts;
      if from == t {
        var q := m.tasks[t].queue;
        assert q == [q[0]] + q[1..];
        Associate(ReceivedBy(m.receipts, t), [q[0]], q[1..]);
      }
    }
  }

  /** Where a call stands has no influence. */
  lemma ProgressBalances(m: Mw, c: nat, p: Progress, t: nat)
    requires c in m.calls
    ensures Balanced(Progressed(m, c, p), t) <==> Balanced(m, t)
  {
  }

  lemma AdvanceBalances(m: Mw, c: nat, t: nat)
    requires Balanced(m, t)
    ensures Balanced(OnAdvance(m, c), t)
  {
    if c in m.calls {
      match m.calls[c].progress
      case Pushing(to) =>
        if to in m.tasks {
          PushBalances(m, c, to, t);
          ProgressBalances(Pushed(m, c, to), c, Returned(true), t);
        }
      case Delivering(next) =>
        if next in m.tasks {
          PushBalances(m, c, next, t);
          ProgressBalances(Pushed(m, c, next), c, Scanning(next + 1), t);
        }
      case _ =>
    }
  }

  /** For each task, what it received followed by what is queued is, in order, what was pushed for it. */
  lemma {:induction false} QueuesAreFifo(es: seq<Event>, t: nat)
    ensures Balanced(Run(es), t)
  {
    if es != [] {
      var m, e := Run(es[..|es| - 1]), es[|es| - 1];
      QueuesAreFifo(es[..|es| - 1], t);
      match e
      case Advance(c) => AdvanceBalances(m, c, t);
      case Receive(from) => ReceiveBalances(m, from, t);
      case _ =>
    }
  }

  // ---------------------------------------------------------------- who gets a message

  /** The itti task whose state the step reads on behalf of call c. */
  function LooksAt(m: Mw, e: Event, c: nat): Option<nat> {
    if e.Send? && e.call == c && c !in m.calls && e.dest < TASK_MAX then Some(e.dest)
    else if e.Advance? && e.call == c && c in m.calls && m.calls[c].progress.Scanning? then
      (if m.calls[c].progress.next < TASK_MAX then Some(m.calls[c].progress.next) else None)
    else None
  }

  /** One more step added to the tasks looked at. */
  function LookedAfter(m: Mw, e: Event, c: nat, looked: seq<nat>): seq<nat> {
    match LooksAt(m, e, c)
    case Some(t) => looked + [t]
    case None => looked
  }

  /** One more step added to those of them that were ready. */
  function SeenAfter(m: Mw, e: Event, c: nat, seen: seq<nat>): seq<nat> {
    match LooksAt(m, e, c)
    case Some(t) => if IsReady(m, t) then seen + [t] else seen
    case None => seen
  }

  /** The tasks call c has looked at, in order. */
  function Looked(es: seq<Event>, c: nat): seq<nat> {
    if es == [] then []
    else LookedAfter(Run(es[..|es| - 1]), es[|es| - 1], c, Looked(es[..|es| - 1], c))
  }

  /** Those of them that were ready when looked at. */
  function SeenReady(es: seq<Event>, c: nat): seq<nat> {
    if es == [] then []
    else SeenAfter(Run(es[..|es| - 1]), es[|es| - 1], c, SeenReady(es[..|es| - 1], c))
  }

  /** The tasks whose queues call c pushed to, in order. */
  function PushedBy(pushes: seq<Push>, c: nat): seq<nat> {
    if pushes == [] then []
    else
      var init, last := PushedBy(pushes[..|pushes| - 1], c), pushes[|pushes| - 1];
      if last.call == c then init + [last.task] else init
  }

  function UpTo(n: nat): seq<nat> {
    seq<nat>(n, i => i)
  }

  /** What a call has looked at, given how far it is. */
  ghost predicate LookedRight(call: Call, looked: seq<nat>) {
    if call.dest == TASK_ALL then
      match call.progress
      case Pushing(_) => false
      case Scanning(next) => next <= TASK_MAX && looked == UpTo(next)
      case Delivering(next) => next < TASK_MAX && looked == UpTo(next + 1)
      case Returned(ok) => ok && looked == UpTo(TASK_MAX)
    else
      && (call.progress.Pushing? ==> call.progress.to == call.dest)
      && !call.progress.Scanning? && !call.progress.Delivering?
      && looked == if call.dest < TASK_MAX then [call.dest] else []
  }

  /** The push a call is about to make. */
  function Owed(call: Call): seq<nat> {
    match call.progress
    case Pushing(t) => [t]
    case Delivering(t) => [t]
    case _ => []
  }

  /** Every ready task seen was pushed to or is about to be. */
  ghost predicate PushedRight(call: Call, seen: seq<nat>, pushed: seq<nat>) {
    && seen == pushed + Owed(call)
    && (call.dest != TASK_ALL ==> |seen| <= 1 && (call.progress.Returned? ==> (call.progress.ok <==> seen != [])))
  }

  ghost predicate CallRight(m: Mw, looked: seq<nat>, seen: seq<nat>, c: nat) {
    if c in m.calls then
      && LookedRight(m.calls[c], looked)
      && PushedRight(m.calls[c], seen, PushedBy(m.pushes, c))
      && (forall i :: 0 <= i < |Owed(m.calls[c])| ==> Owed(m.calls[c])[i] in m.tasks)
    else
      looked == [] && seen == [] && PushedBy(m.pushes, c) == []
  }

  lemma PushedByMore(pushes: seq<Push>, p: Push, c: nat)
    ensures PushedBy(pushes + [p], c) == if p.call == c then PushedBy(pushes, c) + [p.task] else PushedBy(pushes, c)
  {
    assert (pushes + [p])[..|pushes + [p]| - 1] == pushes;
  }

  lemma UpToMore(n: nat)
    ensures UpTo(n + 1) == UpTo(n) + [n]
  {
  }

  /** A step of another call leaves what concerns call c. */
  lemma OtherPush(m: Mw, d: nat, to: nat, p: Progress, c: nat)
    requires d != c && d in m.calls && to in m.tasks
    ensures var m' := Progressed(Pushed(m, d, to), d, p);
            && (c in m'.calls <==> c in m.calls) && (c in m.calls ==> m'.calls[c] == m.calls[c])
            && PushedBy(m'.pushes, c) == PushedBy(m.pushes, c)
            && m'.tasks.Keys == m.tasks.Keys
  {
    PushedByMore(m.pushes, Push(d, to, m.calls[d].msg), c);
  }

  lemma OtherAdvance(m: Mw, d: nat, c: nat)
    requires d != c
    ensures var m' := OnAdvance(m, d);
            && (c in m'.calls <==> c in m.calls) && (c in m.calls ==> m'.calls[c] == m.calls[c])
            && PushedBy(m'.pushes, c) == PushedBy(m.pushes, c)
            && m'.tasks.Keys == m.tasks.Keys
  {
    if d in m.calls {
      match m.calls[d].progress
      case Pushing(t) =>
        if t in m.tasks {
          OtherPush(m, d, t, Returned(true), c);
        }
      case Delivering(next) =>
        if next in m.tasks {
          OtherPush(m, d, next, Scanning(next + 1), c);
        }
      case _ =>
    }
  }

  /** What concerns call c, and with it CallRight, is the same. */
  lemma SameForCall(m: Mw, m': Mw, looked: seq<nat>, seen: seq<nat>, c: nat)
    requires CallRight(m, looked, seen, c)
    requires (c in m'.calls <==> c in m.calls) && (c in m.calls ==> m'.calls[c] == m.calls[c])
    requires PushedBy(m'.pushes, c) == PushedBy(m.pushes, c) && m.tasks.Keys <= m'.tasks.Keys
    ensures CallRight(m', looked, seen, c)
  {
  }

  lemma OthersKeep(m: Mw, e: Event, c: nat, looked: seq<nat>, seen: seq<nat>)
    requires CallRight(m, looked, seen, c)
    requires !(e.Send? && e.call == c) && !(e.Advance? && e.call == c)
    ensures CallRight(Step(m, e), looked, seen, c)
  {
    if e.Advance? {
      OtherAdvance(m, e.call, c);
    }
    SameForCall(m, Step(m, e), looked, seen, c);
  }

  lemma SendKeeps(m: Mw, e: Event, c: nat, looked: seq<nat>, seen: seq<nat>)
    requires CallRight(m, looked, seen, c) && e.Send? && e.call == c
    ensures CallRight(Step(m, e), LookedAfter(m, e, c, looked), SeenAfter(m, e, c, seen), c)
  {
    assert UpTo(0) == [];
  }

  /** A push settles what the call owes. */
  lemma PushKeeps(m: Mw, c: nat, t: nat, p: Progress, looked: seq<nat>, seen: seq<nat>)
    requires CallRight(m, looked, seen, c) && c in m.calls && Owed(m.calls[c]) == [t] && t in m.tasks
    requires Owed(m.calls[c].(progress := p)) == [] && LookedRight(m.calls[c].(progress := p), looked)
    requires p.Returned? ==> p.ok
    ensures CallRight(Progressed(Pushed(m, c, t), c, p), looked, seen, c)
  {
    PushedByMore(m.pushes, Push(c, t, m.calls[c].msg), c);
    var pushed := PushedBy(m.pushes, c);
    assert pushed + [t] + [] == pushed + [t];
  }

  /** Looking at the next task, as far as the call's own record goes. */
  lemma ScanStep(call: Call, looked: seq<nat>, seen: seq<nat>, pushed: seq<nat>, ready: bool)
    requires call.progress.Scanning? && call.progress.next < TASK_MAX
    requires LookedRight(call, looked) && PushedRight(call, seen, pushed)
    ensures var next := call.progress.next;
            var call' := call.(progress := if ready then Delivering(next) else Scanning(next + 1));
            && LookedRight(call', looked + [next])
            && PushedRight(call', if ready then seen + [next] else seen, pushed)
  {
    UpToMore(call.progress.next);
    assert pushed + [] == pushed;
  }

  lemma AdvanceKeeps(m: Mw, e: Event, c: nat, looked: seq<nat>, seen: seq<nat>)
    requires CallRight(m, looked, seen, c) && e == Advance(c)
    ensures CallRight(Step(m, e), LookedAfter(m, e, c, looked), SeenAfter(m, e, c, seen), c)
  {
    if c in m.calls {
      var p := m.calls[c].progress;
      if p.Scanning? && p.next < TASK_MAX {
        ScanStep(m.calls[c], looked, seen, PushedBy(m.pushes, c), IsReady(m, p.next));
      } else if Owed(m.calls[c]) != [] {
        assert Owed(m.calls[c])[0] in m.tasks;
        PushKeeps(m, c, Owed(m.calls[c])[0], if p.Pushing? then Returned(true) else Scanning(p.next + 1), looked, seen);
      }
    }
  }

  lemma {:induction false} CallsAreRight(es: seq<Event>, c: nat)
    ensures CallRight(Run(es), Looked(es, c), SeenReady(es, c), c)
  {
    if es != [] {
      var init, e := es[..|es| - 1], es[|es| - 1];
      CallsAreRight(init, c);
      if e.Send? && e.call == c {
        SendKeeps(Run(init), e, c, Looked(init, c), SeenReady(init, c));
      } else if e.Advance? && e.call == c {
        AdvanceKeeps(Run(init), e, c, Looked(init, c), SeenReady(init, c));
      } else {
        OthersKeep(Run(init), e, c, Looked(init, c), SeenReady(init, c));
      }
    }
  }

  lemma UnicastOutcome(call: Call, looked: seq<nat>, seen: seq<nat>, pushed: seq<nat>)
    requires call.dest != TASK_ALL && call.progress.Returned?
    requires LookedRight(call, looked) && PushedRight(call, seen, pushed) && forall t: nat :: t in seen ==> t in looked
    ensures (call.progress.ok <==> pushed == [call.dest]) && (!call.progress.ok <==> pushed == []) && pushed == seen
  {
    assert pushed + [] == pushed;
    if seen != [] {
      assert seen[0] in seen;
      assert seen == [call.dest];
    }
  }

  /** In every run, a unicast call that has returned said RETURNok iff its message was pushed, which happened at
      most once, for its destination alone, and iff that task was ready when the call looked. */
  lemma UnicastOkIffPushed(es: seq<Event>, c: nat)
    requires c in Run(es).calls && Run(es).calls[c].dest != TASK_ALL && Run(es).calls[c].progress.Returned?
    ensures var m, call := Run(es), Run(es).calls[c];
            && (call.progress.ok <==> PushedBy(m.pushes, c) == [call.dest])
            && (!call.progress.ok <==> PushedBy(m.pushes, c) == [])
            && PushedBy(m.pushes, c) == SeenReady(es, c)
            && Looked(es, c) == (if call.dest < TASK_MAX then [call.dest] else [])
  {
    CallsAreRight(es, c);
    SeenIsLooked(es, c);
    UnicastOutcome(Run(es).calls[c], Looked(es, c), SeenReady(es, c), PushedBy(Run(es).pushes, c));
  }

  lemma {:induction false} SeenIsLooked(es: seq<Event>, c: nat)
    ensures forall t: nat :: t in SeenReady(es, c) ==> t in Looked(es, c)
  {
    if es != [] {
      SeenIsLooked(es[..|es| - 1], c);
    }
  }

  /** In every run, a broadcast that has returned looked at every task once and pushed its message, once, for
      exactly those that were ready when it looked. */
  lemma BroadcastReachesReadyOnce(es: seq<Event>, c: nat)
    requires c in Run(es).calls && Run(es).calls[c].dest == TASK_ALL && Run(es).calls[c].progress.Returned?
    ensures var m := Run(es);
            && m.calls[c].progress.ok
            && Looked(es, c) == UpTo(TASK_MAX)
            && PushedBy(m.pushes, c) == SeenReady(es, c)
            && Rising(PushedBy(m.pushes, c))
  {
    CallsAreRight(es, c);
    SeenFollowsLooked(es, c);
  }

  ghost predicate Rising(s: seq<nat>) {
    forall i, j :: 0 <= i < j < |s| ==> s[i] < s[j]
  }

  lemma {:induction false} SeenFollowsLooked(es: seq<Event>, c: nat)
    requires Rising(Looked(es, c))
    ensures Rising(SeenReady(es, c))
  {
    if es != [] {
      var init := es[..|es| - 1];
      assert Looked(init, c) <= Looked(es, c);
      assert Rising(Looked(init, c)) by {
        forall i, j | 0 <= i < j < |Looked(init, c)| ensures Looked(init, c)[i] < Looked(init, c)[j] {
          assert Looked(es, c)[i] < Looked(es, c)[j];
        }
      }
      SeenFollowsLooked(init, c);
      SeenIsLooked(init, c);
      var seen, looked := SeenReady(init, c), Looked(init, c);
      forall i | 0 <= i < |seen| && |Looked(es, c)| > |looked| ensures seen[i] < Looked(es, c)[|looked|] {
        assert seen[i] in seen;
        var k :| 0 <= k < |looked| && looked[k] == seen[i];
        assert Looked(es, c)[k] == looked[k];
      }
    }
  }

  /** A task that is ready whenever a returned broadcast could look at it has been reached. */
  lemma BroadcastReaches(es: seq<Event>, c: nat, t: nat)
    requires c in Run(es).calls && Run(es).calls[c].dest == TASK_ALL && Run(es).calls[c].progress.Returned?
    requires t < TASK_MAX
    requires forall n :: 0 <= n < |es| && LooksAt(Run(es[..n]), es[n], c) == Some(t) ==> IsReady(Run(es[..n]), t)
    ensures t in PushedBy(Run(es).pushes, c)
  {
    BroadcastReachesReadyOnce(es, c);
    assert UpTo(TASK_MAX)[t] == t;
    ReadyWhenLookedIsSeen(es, c, t);
  }

  lemma {:induction false} ReadyWhenLookedIsSeen(es: seq<Event>, c: nat, t: nat)
    requires t in Looked(es, c)
    requires forall n :: 0 <= n < |es| && LooksAt(Run(es[..n]), es[n], c) == Some(t) ==> IsReady(Run(es[..n]), t)
    ensures t in SeenReady(es, c)
  {
    if es != [] {
      var init := es[..|es| - 1];
      assert LooksAt(Run(es[..|es| - 1]), es[|es| - 1], c) == Some(t) ==> IsReady(Run(es[..|es| - 1]), t);
      if t in Looked(init, c) {
        forall n | 0 <= n < |init| && LooksAt(Run(init[..n]), init[n], c) == Some(t)
          ensures IsReady(Run(init[..n]), t)
        {
          assert init[..n] == es[..n] && init[n] == es[n];
        }
        ReadyWhenLookedIsSeen(init, c, t);
      }
    }
  }

  // ---------------------------------------------------------------- what ready means, and what is pushed

  /** Event j creates task t. */
  ghost predicate FirstCreate(es: seq<Event>, t: nat, j: nat) {
    t < TASK_MAX && j < |es| && es[j] == Create(t) && forall m :: 0 <= m < j ==> es[m] != Create(t)
  }

  ghost predicate After(es: seq<Event>, t: nat, e: Event) {
    exists j: nat, i: nat :: FirstCreate(es, t, j) && j < i < |es| && es[i] == e
  }

  ghost predicate Created(es: seq<Event>, t: nat) {
    exists j: nat :: FirstCreate(es, t, j)
  }

  lemma FirstCreateMore(es: seq<Event>, e: Event, t: nat, j: nat)
    requires j < |es|
    ensures FirstCreate(es + [e], t, j) <==> FirstCreate(es, t, j)
  {
    var all := es + [e];
    assert forall m :: 0 <= m < |es| ==> all[m] == es[m];
  }

  lemma CreatedMore(es: seq<Event>, e: Event, t: nat)
    ensures Created(es + [e], t) <==> Created(es, t) || (e == Create(t) && t < TASK_MAX)
  {
    var all := es + [e];
    if Created(es, t) {
      var j: nat :| FirstCreate(es, t, j);
      FirstCreateMore(es, e, t, j);
    } else if e == Create(t) && t < TASK_MAX {
      SomeCreateIsFirst(all, t, |es|);
    }
    if Created(all, t) {
      var j: nat :| FirstCreate(all, t, j);
      if j < |es| {
        FirstCreateMore(es, e, t, j);
      }
    }
  }

  lemma {:induction false} SomeCreateIsFirst(es: seq<Event>, t: nat, k: nat)
    requires k < |es| && es[k] == Create(t) && t < TASK_MAX
    ensures Created(es, t)
  {
    if m: nat :| m < k && es[m] == Create(t) {
      SomeCreateIsFirst(es, t, m);
    } else {
      assert FirstCreate(es, t, k);
    }
  }

  lemma AfterMore(es: seq<Event>, e: Event, t: nat, x: Event)
    ensures After(es + [e], t, x) <==> After(es, t, x) || (Created(es, t) && e == x)
  {
    var all := es + [e];
    if After(es, t, x) {
      var j: nat, i: nat :| FirstCreate(es, t, j) && j < i < |es| && es[i] == x;
      FirstCreateMore(es, e, t, j);
      assert all[i] == x;
    }
    if Created(es, t) && e == x {
      var j: nat :| FirstCreate(es, t, j);
      FirstCreateMore(es, e, t, j);
      assert all[|es|] == x;
    }
    if After(all, t, x) {
      var j: nat, i: nat :| FirstCreate(all, t, j) && j < i < |all| && all[i] == x;
      FirstCreateMore(es, e, t, j);
      assert i < |es| ==> es[i] == x;
    }
  }

  /** The state of a task by what happened to it. */
  ghost predicate StateByEvents(m: Mw, created: bool, announced: bool, ended: bool, t: nat) {
    && (t in m.tasks <==> created)
    && (created ==> m.tasks[t].state == if ended then Ended else if announced then Running else Starting)
  }

  lemma StepsByEvents(m: Mw, e: Event, t: nat, created: bool, announced: bool, ended: bool)
    requires StateByEvents(m, created, announced, ended, t)
    requires e.Create? || e.NotifyReady? || e.End?
    ensures StateByEvents(Step(m, e), created || (e == Create(t) && t < TASK_MAX),
                          announced || (created && e == NotifyReady(t)), ended || (created && e == End(t)), t)
    requires !created ==> !announced && !ended
  {
  }

  lemma CallsLeaveStates(m: Mw, e: Event, t: nat)
    requires e.Send? || e.Advance? || e.Receive?
    ensures (t in Step(m, e).tasks <==> t in m.tasks)
    ensures t in m.tasks ==> Step(m, e).tasks[t].state == m.tasks[t].state
  {
  }

  lemma {:induction false} StatesByEvents(es: seq<Event>, t: nat)
    ensures StateByEvents(Run(es), Created(es, t), After(es, t, NotifyReady(t)), After(es, t, End(t)), t)
  {
    if es != [] {
      var init, e := es[..|es| - 1], es[|es| - 1];
      assert es == init + [e];
      StatesByEvents(init, t);
      CreatedMore(init, e, t);
      AfterMore(init, e, t, NotifyReady(t));
      AfterMore(init, e, t, End(t));
      if e.Send? || e.Advance? || e.Receive? {
        CallsLeaveStates(Run(init), e, t);
      } else {
        StepsByEvents(Run(init), e, t, Created(init, t), After(init, t, NotifyReady(t)), After(init, t, End(t)));
      }
    }
  }

  /** In every run a task counts as ready iff it announced itself after it was created and has not ended since. */
  lemma ReadyIffAnnounced(es: seq<Event>, t: nat)
    ensures IsReady(Run(es), t) <==> After(es, t, NotifyReady(t)) && !After(es, t, End(t))
  {
    StatesByEvents(es, t);
  }

  /** Call c is that of the first send event of its name. */
  ghost predicate SentBy(es: seq<Event>, c: nat, n: nat) {
    n < |es| && es[n].Send? && es[n].call == c && forall m :: 0 <= m < n ==> !(es[m].Send? && es[m].call == c)
  }

  ghost predicate SentAs(es: seq<Event>, c: nat, call: Call) {
    exists n: nat :: SentBy(es, c, n) && es[n].msg == call.msg && es[n].dest == call.dest
  }

  lemma SentMore(es: seq<Event>, e: Event, c: nat, call: Call, call': Call)
    requires SentAs(es, c, call) && call'.msg == call.msg && call'.dest == call.dest
    ensures SentAs(es + [e], c, call')
  {
    var n: nat :| SentBy(es, c, n) && es[n].msg == call.msg && es[n].dest == call.dest;
    var all := es + [e];
    assert forall m :: 0 <= m < |es| ==> all[m] == es[m];
    assert SentBy(all, c, n);
  }

  lemma StepKeepsCall(m: Mw, e: Event, c: nat)
    ensures c in m.calls ==>
              && c in Step(m, e).calls
              && Step(m, e).calls[c].msg == m.calls[c].msg && Step(m, e).calls[c].dest == m.calls[c].dest
    ensures c !in m.calls && c in Step(m, e).calls ==>
              e.Send? && e.call == c && Step(m, e).calls[c].msg == e.msg && Step(m, e).calls[c].dest == e.dest
    ensures e.Send? && e.call == c ==> c in Step(m, e).calls
  {
  }

  lemma {:induction false} CallsAreSent(es: seq<Event>, c: nat)
    ensures c in Run(es).calls ==> SentAs(es, c, Run(es).calls[c])
    ensures c !in Run(es).calls ==> forall n :: 0 <= n < |es| ==> !(es[n].Send? && es[n].call == c)
  {
    if es != [] {
      var init, e := es[..|es| - 1], es[|es| - 1];
      assert es == init + [e];
      CallsAreSent(init, c);
      StepKeepsCall(Run(init), e, c);
      if c in Run(init).calls {
        SentMore(init, e, c, Run(init).calls[c], Run(es).calls[c]);
      } else if c in Run(es).calls {
        assert SentBy(es, c, |init|);
      }
    }
  }

  ghost predicate PushIsOfCall(m: Mw, p: Push) {
    && p.call in m.calls && p.msg == m.calls[p.call].msg
    && (m.calls[p.call].dest != TASK_ALL ==> p.task == m.calls[p.call].dest)
  }

  lemma {:induction false} PushesAreOfCalls(es: seq<Event>)
    ensures forall i :: 0 <= i < |Run(es).pushes| ==> PushIsOfCall(Run(es), Run(es).pushes[i])
  {
    if es != [] {
      var init, e := es[..|es| - 1], es[|es| - 1];
      PushesAreOfCalls(init);
      var m, m' := Run(init), Run(es);
      forall i | 0 <= i < |m'.pushes| ensures PushIsOfCall(m', m'.pushes[i]) {
        if i < |m.pushes| {
          KeepsPush(m, e, i);
        } else {
          CallsAreRight(init, e.call);
          NewPushIsOfCall(m, e, i, Looked(init, e.call), SeenReady(init, e.call));
        }
      }
    }
  }

  lemma KeepsPush(m: Mw, e: Event, i: nat)
    requires i < |m.pushes| && PushIsOfCall(m, m.pushes[i])
    ensures i < |Step(m, e).pushes| && Step(m, e).pushes[i] == m.pushes[i] && PushIsOfCall(Step(m, e), m.pushes[i])
  {
    StepKeepsCall(m, e, m.pushes[i].call);
  }

  lemma NewPushIsOfCall(m: Mw, e: Event, i: nat, looked: seq<nat>, seen: seq<nat>)
    requires |m.pushes| <= i < |Step(m, e).pushes| && e.Advance? && CallRight(m, looked, seen, e.call)
    ensures PushIsOfCall(Step(m, e), Step(m, e).pushes[i])
  {
  }

  /** In every run each push carries the message of the send_msg call that made it, to that call's destination unless it
      was a broadcast. */
  lemma PushesCarryWhatWasSent(es: seq<Event>, i: nat)
    requires i < |Run(es).pushes|
    ensures var p := Run(es).pushes[i];
            exists n: nat ::
              SentBy(es, p.call, n) && es[n].msg == p.msg && (es[n].dest != TASK_ALL ==> es[n].dest == p.task)
  {
    PushesAreOfCalls(es);
    var p := Run(es).pushes[i];
    CallsAreSent(es, p.call);
    var call := Run(es).calls[p.call];
    var n: nat :| SentBy(es, p.call, n) && es[n].msg == call.msg && es[n].dest == call.dest;
  }

  // ---------------------------------------------------------------- the calls, run without interruption

  /** Call c alone makes n steps. */
  function Alone(m: Mw, c: nat, n: nat): Mw {
    if n == 0 then m else OnAdvance(Alone(m, c, n - 1), c)
  }

  class IttiMw {
    var tasks: map<nat, Task>
    ghost var calls: map<nat, Call>
    ghost var pushes: seq<Push>
    ghost var receipts: seq<Receipt>

    ghost function Value(): Mw
      reads this
    {
      Mw(tasks, calls, pushes, receipts)
    }

    constructor ()
      ensures Value() == EMPTY_MW
    {
      tasks, calls, pushes, receipts := map[], map[], [], [];
    }

    /** Whether an itti task was created; its thread then announces itself. */
    method CreateTask(t: nat) returns (ok: bool)
      modifies this
      ensures Value() == Step(old(Value()), Create(t))
      ensures ok <==> t < TASK_MAX && t !in old(tasks)
    {
      ok := false;
      if t < TASK_MAX && t !in tasks {
        tasks := tasks[t := Task(Starting, [])];
        ok := true;
      }
    }

    method NotifyTaskReady(t: nat) returns (ok: bool)
      modifies this
      ensures Value() == Step(old(Value()), NotifyReady(t))
      ensures ok <==> t in old(tasks) && old(tasks)[t].state == Starting
    {
      ok := false;
      if t in tasks && tasks[t].state == Starting {
        tasks := tasks[t := tasks[t].(state := Running)];
        ok := true;
      }
    }

    /** The critical section of a sender. */
    method PushMessage(ghost c: nat, t: nat, msg: nat)
      requires t in tasks && c in calls && calls[c].msg == msg
      modifies this
      ensures Value() == Pushed(old(Value()), c, t)
    {
      tasks := tasks[t := tasks[t].(queue := tasks[t].queue + [msg])];
      pushes := pushes + [Push(c, t, msg)];
    }

    method SendMsg(ghost c: nat, msg: nat, dest: nat) returns (ok: bool, ghost steps: nat)
      requires c !in calls
      modifies this
      ensures Value() == Alone(Step(old(Value()), Send(c, msg, dest)), c, steps)
      ensures c in calls && calls[c].progress == Returned(ok)
    {
      ghost var start := Step(Value(), Send(c, msg, dest));
      calls := start.calls;
      ok, steps := false, 0;
      if dest < TASK_MAX {
        if dest in tasks && tasks[dest].state == Running {
          PushMessage(c, dest, msg);
          calls := calls[c := Call(msg, dest, Returned(true))];
          ok, steps := true, 1;
          assert Alone(start, c, 0) == start;
        }
      } else if dest == TASK_ALL {
        ok, steps := SendBroadcastMsg(c, msg);
      }
    }

    method SendBroadcastMsg(ghost c: nat, msg: nat) returns (ok: bool, ghost steps: nat)
      requires c in calls && calls[c] == Call(msg, TASK_ALL, Scanning(TASK_FIRST))
      modifies this
      ensures Value() == Alone(old(Value()), c, steps)
      ensures ok && c in calls && calls[c].progress == Returned(true)
    {
      ghost var start := Value();
      steps := 0;
      for t := TASK_FIRST to TASK_MAX
        invariant c in calls && calls[c] == Call(msg, TASK_ALL, Scanning(t))
        invariant Value() == Alone(start, c, steps)
      {
        steps := LookAndPush(start, c, t, msg, steps);
      }
      calls := calls[c := Call(msg, TASK_ALL, Returned(true))];
      ok, steps := true, steps + 1;
    }

    /** One round of the broadcast loop. */
    method LookAndPush(ghost start: Mw, ghost c: nat, t: nat, msg: nat, ghost steps0: nat) returns (ghost steps: nat)
      requires t < TASK_MAX && c in calls && calls[c] == Call(msg, TASK_ALL, Scanning(t))
      requires Value() == Alone(start, c, steps0)
      modifies this
      ensures c in calls && calls[c] == Call(msg, TASK_ALL, Scanning(t + 1))
      ensures Value() == Alone(start, c, steps)
    {
      steps := steps0 + 1;
      if t in tasks && tasks[t].state == Running {
        calls := calls[c := Call(msg, TASK_ALL, Delivering(t))];
        assert Value() == Alone(start, c, steps);
        PushMessage(c, t, msg);
        calls := calls[c := Call(msg, TASK_ALL, Scanning(t + 1))];
        steps := steps + 1;
      } else {
        calls := calls[c := Call(msg, TASK_ALL, Scanning(t + 1))];
      }
    }

    /** None for a bad task id or an empty queue. */
    method PollMsg(t: nat) returns (msg: Option<nat>)
      modifies this
      ensures Value() == Step(old(Value()), Receive(t))
      ensures msg == if QueueOf(old(Value()), t) == [] then None else Some(QueueOf(old(Value()), t)[0])
    {
      msg := None;
      if t in tasks && tasks[t].queue != [] {
        msg := Some(tasks[t].queue[0]);
        receipts := receipts + [Receipt(t, tasks[t].queue[0])];
        tasks := tasks[t := tasks[t].(queue := tasks[t].queue[1..])];
      }
    }
  }
}
