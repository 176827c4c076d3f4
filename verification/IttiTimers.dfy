/** The ITTI timer manager: one manager thread, callers of timer_setup and timer_remove, an ordered
    set of pending timers and the single slot `current_timer`.

    Each critical section, each read of the slot, each outcome of a wait and each send is one atomic
    step. Building the time-out message and sending it are two steps, as in the program. */
module IttiTimers {
  import opened Numerals

  const ITTI_INVALID_TIMER_ID: nat := 0
  const TASK_FIRST: int := 0
  const TASK_MAX: int := 8
  const TASK_NONE: int := 9
  const MAX_TIMER_ID: nat := 0xFFFF_FFFF

  datatype Timer = Timer(id: nat, taskId: int, timeOut: nat)

  /** What the manager thread does next. */
  datatype Pc =
    | Idle                     // top of the loop: waits until some timer is pending
    | Taken                    // the first timer is in the slot, due time not yet compared
    | Measuring                // not due yet: the wait length is about to be computed
    | Waiting(until: nat)      // wait_for started; it can time out from `until` on
    | Requeuing                // the wait was cut short
    | Building                 // due: the time-out message is about to be built
    | Sending(msg: Timer)      // the message is built but not sent

  /** Where timer_remove found the timer it reports as removed. */
  datatype Place = WasPending | WasHeld | WasInFlight | WasFired | WasNull

  datatype Obs =
    | Issued(timer: Timer)
    | Dropped(id: nat)
    | Fired(id: nat, at: nat)
    | Removed(id: nat, place: Place)

  datatype State = State(
    timers: seq<Timer>,          // std::set ordered by time_out alone
    slot: Timer,                 // current_timer
    nullTimer: Timer,
    arriving: map<nat, Timer>,   // timer_setup calls between building the timer and the critical section
    lastId: nat,
    now: nat,
    pc: Pc,
    log: seq<Obs>)

  datatype Event =
    | Tick(delta: nat)
    | SetupBegin(taskId: int, delay: nat)
    | SetupInsert(id: nat)
    | Remove(id: nat)
    | Take | CheckDue | Measure | TimeoutOutcome | NotifiedOutcome | Requeue | Build | Send

  // ---------------------------------------------------------------- the ordered set

  ghost predicate Sorted(ts: seq<Timer>) {
    forall i, j :: 0 <= i < j < |ts| ==> ts[i].timeOut < ts[j].timeOut
  }

  ghost predicate Clashes(ts: seq<Timer>, t: Timer) {
    exists i :: 0 <= i < |ts| && ts[i].timeOut == t.timeOut
  }

  /** std::set::insert with timer_comparator: an element with an equal time_out wins over the new one. */
  function Insert(ts: seq<Timer>, t: Timer): seq<Timer> {
    if ts == [] then [t]
    else if t.timeOut < ts[0].timeOut then [t] + ts
    else if t.timeOut == ts[0].timeOut then ts
    else [ts[0]] + Insert(ts[1..], t)
  }

  function CountId(ts: seq<Timer>, id: nat): nat {
    if ts == [] then 0 else (if ts[0].id == id then 1 else 0) + CountId(ts[1..], id)
  }

  function IndexOf(ts: seq<Timer>, id: nat): (k: nat)
    ensures k <= |ts|
    ensures k < |ts| ==> ts[k].id == id
    ensures forall i :: 0 <= i < k ==> ts[i].id != id
  {
    if ts == [] || ts[0].id == id then 0 else 1 + IndexOf(ts[1..], id)
  }

  lemma ClashesInTail(ts: seq<Timer>, t: Timer)
    requires ts != [] && ts[0].timeOut != t.timeOut
    ensures Clashes(ts, t) <==> Clashes(ts[1..], t)
  {
    if Clashes(ts, t) {
      var i :| 0 <= i < |ts| && ts[i].timeOut == t.timeOut;
      assert ts[1..][i - 1].timeOut == t.timeOut;
    }
  }

  lemma {:induction false} InsertKeepsOrder(ts: seq<Timer>, t: Timer)
    requires Sorted(ts)
    ensures Sorted(Insert(ts, t))
    ensures forall u :: u in Insert(ts, t) ==> u in ts || u == t
  {
    if ts != [] && ts[0].timeOut < t.timeOut {
      var r := Insert(ts[1..], t);
      InsertKeepsOrder(ts[1..], t);
      forall j | 0 <= j < |r| ensures ts[0].timeOut < r[j].timeOut {
        assert r[j] in r;
      }
    }
  }

  lemma {:induction false} InsertCounts(ts: seq<Timer>, t: Timer, id: nat)
    requires Sorted(ts)
    ensures CountId(Insert(ts, t), id) == CountId(ts, id) + (if t.id == id && !Clashes(ts, t) then 1 else 0)
    ensures |Insert(ts, t)| == |ts| + (if Clashes(ts, t) then 0 else 1)
  {
    if ts == [] {
      assert [t][1..] == [];
    } else if t.timeOut < ts[0].timeOut {
      assert ([t] + ts)[1..] == ts;
      assert !Clashes(ts, t);
    } else if t.timeOut == ts[0].timeOut {
      assert Clashes(ts, t);
    } else {
      InsertCounts(ts[1..], t, id);
      assert ([ts[0]] + Insert(ts[1..], t))[1..] == Insert(ts[1..], t);
      ClashesInTail(ts, t);
    }
  }

  lemma {:induction false} EraseCounts(ts: seq<Timer>, k: nat, id: nat)
    requires k < |ts|
    ensures CountId(ts, id) == CountId(ts[..k] + ts[k + 1..], id) + (if ts[k].id == id then 1 else 0)
  {
    if k == 0 {
      assert ts[..0] + ts[1..] == ts[1..];
    } else {
      EraseCounts(ts[1..], k - 1, id);
      assert ts[1..][..k - 1] + ts[1..][k..] == (ts[..k] + ts[k + 1..])[1..];
    }
  }

  // ---------------------------------------------------------------- the steps

  function Init(nullTimeOut: nat): State {
    var nul := Timer(ITTI_INVALID_TIMER_ID, TASK_NONE, nullTimeOut);
    State([], nul, nul, map[], 0, 0, Idle, [])
  }

  /** The critical section of timer_setup and the re-insertion by the manager. */
  function InsertTimer(s: State, t: Timer): State {
    var ts := Insert(s.timers, t);
    if |ts| == |s.timers| then s.(log := s.log + [Dropped(t.id)]) else s.(timers := ts)
  }

  function RemoveTimer(s: State, id: nat): State {
    if s.slot.id == id then
      var place := if id == ITTI_INVALID_TIMER_ID then WasNull
                   else if s.pc.Idle? then WasFired
                   else if s.pc.Sending? then WasInFlight
                   else WasHeld;
      s.(slot := s.nullTimer, log := s.log + [Removed(id, place)])
    else
      var k := IndexOf(s.timers, id);
      if k == |s.timers| then s
      else s.(timers := s.timers[..k] + s.timers[k + 1..], log := s.log + [Removed(id, WasPending)])
  }

  /** timer_remove returns RETURNok. */
  predicate RemoveSucceeds(s: State, id: nat) {
    s.slot.id == id || IndexOf(s.timers, id) < |s.timers|
  }

  /** send_msg hands the message to a task only for a task id in range. */
  function SendTimeout(s: State, msg: Timer): State {
    var s1 := s.(pc := Idle);
    if TASK_FIRST <= msg.taskId < TASK_MAX then s1.(log := s1.log + [Fired(msg.id, s.now)]) else s1
  }

  /** One atomic step; an event that is not possible in `s` leaves it unchanged. */
  function Step(s: State, e: Event): State {
    match e
    case Tick(delta) => s.(now := s.now + delta)
    case SetupBegin(taskId, delay) =>
      if TASK_FIRST < taskId < TASK_MAX && s.lastId < MAX_TIMER_ID then
        var t := Timer(s.lastId + 1, taskId, s.now + delay);
        s.(lastId := t.id, arriving := s.arriving[t.id := t], log := s.log + [Issued(t)])
      else s
    case SetupInsert(id) =>
      if id in s.arriving then
        InsertTimer(s.(arriving := s.arriving - {id}), s.arriving[id])
      else s
    case Remove(id) => RemoveTimer(s, id)
    case Take =>
      if s.pc.Idle? && s.timers != [] then s.(slot := s.timers[0], timers := s.timers[1..], pc := Taken) else s
    case CheckDue =>
      if s.pc.Taken? then s.(pc := if s.slot.timeOut > s.now then Measuring else Building) else s
    case Measure =>
      if s.pc.Measuring? then s.(pc := Waiting(s.slot.timeOut)) else s
    case TimeoutOutcome =>
      if s.pc.Waiting? && s.pc.until <= s.now then s.(pc := Building) else s
    case NotifiedOutcome =>
      if s.pc.Waiting? then s.(pc := Requeuing) else s
    case Requeue =>
      if s.pc.Requeuing? then
        var s1 := if s.slot.id != ITTI_INVALID_TIMER_ID then InsertTimer(s, s.slot) else s;
        s1.(slot := s.nullTimer, pc := Idle)
      else s
    case Build =>
      if s.pc.Building? then s.(pc := Sending(s.slot)) else s
    case Send =>
      if s.pc.Sending? then SendTimeout(s, s.pc.msg) else s
  }

  function Run(s: State, es: seq<Event>): State
    decreases |es|
  {
    if es == [] then s else Step(Run(s, es[..|es| - 1]), es[|es| - 1])
  }

  // ---------------------------------------------------------------- where a timer id is

  function CountFired(log: seq<Obs>, id: nat): nat {
    if log == [] then 0
    else CountFired(log[..|log| - 1], id) + (var o := log[|log| - 1]; if o.Fired? && o.id == id then 1 else 0)
  }

  /** Removals that took an unfired timer away from the pending set or from the slot. */
  function CountGone(log: seq<Obs>, id: nat): nat {
    if log == [] then 0
    else CountGone(log[..|log| - 1], id)
         + (var o := log[|log| - 1];
            if o.Removed? && o.id == id && (o.place == WasPending || o.place == WasHeld) then 1 else 0)
  }

  function CountDropped(log: seq<Obs>, id: nat): nat {
    if log == [] then 0
    else CountDropped(log[..|log| - 1], id) + (var o := log[|log| - 1]; if o.Dropped? && o.id == id then 1 else 0)
  }

  function Arriving(s: State, id: nat): nat { if id in s.arriving then 1 else 0 }

  /** Held unfired in the slot. */
  function Held(s: State, id: nat): nat {
    if s.slot.id == id && !s.pc.Idle? && !s.pc.Sending? then 1 else 0
  }

  function InFlight(s: State, id: nat): nat {
    if s.pc.Sending? && s.pc.msg.id == id then 1 else 0
  }

  /** In how many of the seven places the id is. */
  function Places(s: State, id: nat): nat {
    Arriving(s, id) + CountId(s.timers, id) + Held(s, id) + InFlight(s, id)
    + CountFired(s.log, id) + CountGone(s.log, id) + CountDropped(s.log, id)
  }

  // ---------------------------------------------------------------- invariants

  ghost predicate Genuine(s: State, t: Timer) {
    t.id != ITTI_INVALID_TIMER_ID && TASK_FIRST < t.taskId < TASK_MAX && Issued(t) in s.log
  }

  ghost predicate NullOrGenuine(s: State, t: Timer) {
    t == s.nullTimer || Genuine(s, t)
  }

  ghost predicate Shape(s: State) {
    && s.nullTimer.id == ITTI_INVALID_TIMER_ID && s.nullTimer.taskId == TASK_NONE
    && Sorted(s.timers)
    && (forall t :: t in s.timers ==> Genuine(s, t))
    && (forall id :: id in s.arriving ==> s.arriving[id].id == id && Genuine(s, s.arriving[id]))
    && NullOrGenuine(s, s.slot)
    && (s.pc.Waiting? && s.slot != s.nullTimer ==> s.pc.until == s.slot.timeOut)
    && (s.pc.Building? && s.slot != s.nullTimer ==> s.slot.timeOut <= s.now)
    && (s.pc.Sending? ==>
          && NullOrGenuine(s, s.pc.msg)
          && (s.slot == s.nullTimer || s.slot == s.pc.msg)
          && (s.pc.msg != s.nullTimer ==> s.pc.msg.timeOut <= s.now))
  }

  ghost predicate Conserved(s: State) {
    forall id: nat :: id != ITTI_INVALID_TIMER_ID ==> Places(s, id) == if id <= s.lastId then 1 else 0
  }

  ghost predicate FiredAt(log: seq<Obs>, j: int, id: nat) {
    0 <= j < |log| && log[j].Fired? && log[j].id == id
  }

  ghost predicate FiredBetween(log: seq<Obs>, lo: int, hi: int, id: nat) {
    exists j :: lo <= j < hi && FiredAt(log, j, id)
  }

  /** The log agrees with the slot about timers that have fired or are about to. */
  ghost predicate LogShape(s: State) {
    && (s.pc.Idle? && s.slot.id != ITTI_INVALID_TIMER_ID ==> FiredBetween(s.log, 0, |s.log|, s.slot.id))
    && (forall i :: 0 <= i < |s.log| ==> EntryExplained(s, i))
  }

  ghost predicate EntryExplained(s: State, i: nat)
    requires i < |s.log|
  {
    match s.log[i]
    case Fired(id, at) => exists t: Timer :: Issued(t) in s.log[..i] && t.id == id && t.timeOut <= at
    case Removed(id, WasFired) => id != ITTI_INVALID_TIMER_ID && FiredBetween(s.log, 0, i, id)
    case Removed(id, WasInFlight) =>
      && id != ITTI_INVALID_TIMER_ID
      && (InFlight(s, id) == 1 || FiredBetween(s.log, i + 1, |s.log|, id))
    case Removed(id, WasNull) => id == ITTI_INVALID_TIMER_ID
    case Removed(id, place) => id != ITTI_INVALID_TIMER_ID
    case _ => true
  }

  ghost predicate Invariant(s: State) {
    Shape(s) && Conserved(s) && LogShape(s)
  }

  lemma InitInvariant(nullTimeOut: nat)
    ensures Invariant(Init(nullTimeOut))
  {
  }

  lemma ExtendLog(log: seq<Obs>, o: Obs, id: nat)
    ensures CountFired(log + [o], id) == CountFired(log, id) + (if o.Fired? && o.id == id then 1 else 0)
    ensures CountGone(log + [o], id)
         == CountGone(log, id)
            + (if o.Removed? && o.id == id && (o.place == WasPending || o.place == WasHeld) then 1 else 0)
    ensures CountDropped(log + [o], id) == CountDropped(log, id) + (if o.Dropped? && o.id == id then 1 else 0)
  {
    assert (log + [o])[..|log + [o]| - 1] == log;
  }

  /** Whether or not the timer is dropped, one insertion adds its id to exactly one place. */
  lemma InsertTimerPlaces(s: State, t: Timer, id: nat)
    requires Sorted(s.timers)
    ensures var s' := InsertTimer(s, t);
            && Sorted(s'.timers)
            && CountId(s'.timers, id) + CountDropped(s'.log, id)
               == CountId(s.timers, id) + CountDropped(s.log, id) + (if t.id == id then 1 else 0)
            && CountFired(s'.log, id) == CountFired(s.log, id)
            && CountGone(s'.log, id) == CountGone(s.log, id)
  {
    InsertKeepsOrder(s.timers, t);
    InsertCounts(s.timers, t, id);
    ExtendLog(s.log, Dropped(t.id), id);
  }

  lemma SetupMovesIds(s: State, e: Event, id: nat)
    requires forall i :: i in s.arriving ==> s.arriving[i].id == i
    requires Sorted(s.timers) && s.lastId + 1 !in s.arriving
    requires e.SetupBegin? || e.SetupInsert?
    ensures Places(Step(s, e), id)
         == Places(s, id) + (if s.lastId < id <= Step(s, e).lastId then 1 else 0)
  {
    if e.SetupBegin? {
      ExtendLog(s.log, Issued(Timer(s.lastId + 1, e.taskId, s.now + e.delay)), id);
    } else if e.id in s.arriving {
      InsertTimerPlaces(s.(arriving := s.arriving - {e.id}), s.arriving[e.id], id);
    }
  }

  /** Conservation: a step moves an id between places and creates only the newly issued one. */
  lemma StepMovesIds(s: State, e: Event, id: nat)
    requires Shape(s) && id != ITTI_INVALID_TIMER_ID
    requires s.lastId + 1 !in s.arriving
    ensures Places(Step(s, e), id)
         == Places(s, id) + (if s.lastId < id <= Step(s, e).lastId then 1 else 0)
  {
    match e
    case SetupBegin(_, _) => SetupMovesIds(s, e, id);
    case SetupInsert(_) => SetupMovesIds(s, e, id);
    case Remove(i) => RemoveMovesIds(s, i, id);
    case Tick(_) =>
    case _ => ManagerMovesIds(s, e, id);
  }

  lemma ManagerMovesIds(s: State, e: Event, id: nat)
    requires Shape(s) && id != ITTI_INVALID_TIMER_ID
    requires !e.Tick? && !e.SetupBegin? && !e.SetupInsert? && !e.Remove?
    ensures Places(Step(s, e), id) == Places(s, id)
  {
    if e.Requeue? && s.pc.Requeuing? && s.slot.id != ITTI_INVALID_TIMER_ID {
      InsertTimerPlaces(s, s.slot, id);
    } else if e.Send? && s.pc.Sending? {
      ExtendLog(s.log, Fired(s.pc.msg.id, s.now), id);
    }
  }

  lemma RemoveHeldMovesIds(s: State, id: nat)
    requires Shape(s) && id != ITTI_INVALID_TIMER_ID
    ensures Places(RemoveTimer(s, s.slot.id), id) == Places(s, id)
  {
    ExtendLog(s.log, RemoveTimer(s, s.slot.id).log[|s.log|], id);
  }

  lemma RemoveMovesIds(s: State, i: nat, id: nat)
    requires Shape(s) && id != ITTI_INVALID_TIMER_ID
    ensures Places(RemoveTimer(s, i), id) == Places(s, id)
  {
    if s.slot.id == i {
      RemoveHeldMovesIds(s, id);
    } else {
      if IndexOf(s.timers, i) < |s.timers| {
        RemovePendingMovesIds(s, i, id);
      }
    }
  }

  lemma RemovePendingMovesIds(s: State, i: nat, id: nat)
    requires s.slot.id != i && IndexOf(s.timers, i) < |s.timers|
    ensures Places(RemoveTimer(s, i), id) == Places(s, id)
  {
    EraseCounts(s.timers, IndexOf(s.timers, i), id);
    ExtendLog(s.log, Removed(i, WasPending), id);
  }

  lemma InsertTimerShape(s: State, t: Timer)
    requires Shape(s) && Genuine(s, t)
    ensures Shape(InsertTimer(s, t))
  {
    InsertKeepsOrder(s.timers, t);
  }

  lemma LogGrows(s: State, e: Event)
    ensures s.log <= Step(s, e).log
    ensures forall o :: o in s.log ==> o in Step(s, e).log
  {
    if e.Requeue? || e.SetupInsert? {
      assert forall t, s1: State :: s1.log == s.log ==> s.log <= InsertTimer(s1, t).log;
    }
    forall o | o in s.log ensures o in Step(s, e).log {
      var i :| 0 <= i < |s.log| && s.log[i] == o;
      assert Step(s, e).log[i] == o;
    }
  }

  lemma RemoveKeepsShape(s: State, id: nat)
    requires Shape(s)
    ensures Shape(RemoveTimer(s, id))
  {
    var s' := RemoveTimer(s, id);
    assert forall o :: o in s.log ==> o in s'.log;
    forall t | t in s'.timers ensures t in s.timers {
    }
  }

  lemma TakeKeepsShape(s: State)
    requires Shape(s)
    ensures Shape(Step(s, Take))
  {
    if s.pc.Idle? && s.timers != [] {
      assert s.timers[0] in s.timers;
      assert forall t :: t in s.timers[1..] ==> t in s.timers;
    }
  }

  lemma SetupKeepsShape(s: State, e: Event)
    requires Shape(s) && (e.SetupBegin? || e.SetupInsert?)
    ensures Shape(Step(s, e))
  {
    LogGrows(s, e);
    if e.SetupInsert? && e.id in s.arriving {
      InsertTimerShape(s.(arriving := s.arriving - {e.id}), s.arriving[e.id]);
    }
  }

  lemma StepKeepsShape(s: State, e: Event)
    requires Shape(s)
    ensures Shape(Step(s, e))
  {
    match e
    case SetupBegin(_, _) => SetupKeepsShape(s, e);
    case SetupInsert(_) => SetupKeepsShape(s, e);
    case Remove(id) => RemoveKeepsShape(s, id);
    case Take => TakeKeepsShape(s);
    case Requeue =>
      if s.pc.Requeuing? && s.slot.id != ITTI_INVALID_TIMER_ID {
        InsertTimerShape(s, s.slot);
      }
    case _ => LogGrows(s, e);
  }

  lemma StepKeepsConserved(s: State, e: Event)
    requires Shape(s) && Conserved(s)
    ensures Conserved(Step(s, e))
  {
    assert Places(s, s.lastId + 1) == 0;
    forall id: nat | id != ITTI_INVALID_TIMER_ID
      ensures Places(Step(s, e), id) == if id <= Step(s, e).lastId then 1 else 0
    {
      assert Places(s, id) == if id <= s.lastId then 1 else 0;
      StepMovesIds(s, e, id);
    }
  }

  lemma EntryStaysExplained(s: State, e: Event, i: nat)
    requires Shape(s) && i < |s.log| && EntryExplained(s, i)
    ensures |s.log| <= |Step(s, e).log| && EntryExplained(Step(s, e), i)
  {
    var s' := Step(s, e);
    LogGrows(s, e);
    assert s'.log[i] == s.log[i] && s'.log[..i] == s.log[..i];
    var o := s.log[i];
    if o.Removed? && o.place == WasInFlight {
      if FiredBetween(s.log, i + 1, |s.log|, o.id) {
        var j :| i + 1 <= j < |s.log| && FiredAt(s.log, j, o.id);
        assert FiredAt(s'.log, j, o.id);
      } else if e.Send? {
        assert FiredAt(s'.log, |s.log|, o.id);
      }
    } else if o.Removed? && o.place == WasFired {
      var j :| 0 <= j < i && FiredAt(s.log, j, o.id);
      assert FiredAt(s'.log, j, o.id);
    }
  }

  lemma NewEntryExplained(s: State, e: Event, i: nat)
    requires Shape(s) && LogShape(s)
    requires |s.log| <= i < |Step(s, e).log|
    ensures EntryExplained(Step(s, e), i)
  {
    if e.Remove? {
      RemovalExplained(s, e.id, i);
    } else {
      LogGrows(s, e);
      assert i == |s.log| && Step(s, e).log[..i] == s.log;
      if e.Send? {
        assert Genuine(s, s.pc.msg);
      }
    }
  }

  lemma RemovalExplained(s: State, id: nat, i: nat)
    requires Shape(s) && LogShape(s)
    requires |s.log| <= i < |RemoveTimer(s, id).log|
    ensures EntryExplained(RemoveTimer(s, id), i)
  {
    var s' := RemoveTimer(s, id);
    assert i == |s.log| && s'.log[..i] == s.log;
    var o := s'.log[i];
    if o.place == WasFired {
      var j :| 0 <= j < |s.log| && FiredAt(s.log, j, o.id);
      assert FiredAt(s'.log, j, o.id);
    } else if o.place == WasPending {
      assert s.timers[IndexOf(s.timers, o.id)] in s.timers;
    }
  }

  lemma StepKeepsLogShape(s: State, e: Event)
    requires Shape(s) && LogShape(s)
    ensures LogShape(Step(s, e))
  {
    var s' := Step(s, e);
    LogGrows(s, e);
    forall i | 0 <= i < |s'.log| ensures EntryExplained(s', i) {
      if i < |s.log| {
        EntryStaysExplained(s, e, i);
      } else {
        NewEntryExplained(s, e, i);
      }
    }
    IdleSlotHasFired(s, e);
  }

  lemma IdleSlotHasFired(s: State, e: Event)
    requires Shape(s) && LogShape(s)
    ensures var s' := Step(s, e);
            s'.pc.Idle? && s'.slot.id != ITTI_INVALID_TIMER_ID ==> FiredBetween(s'.log, 0, |s'.log|, s'.slot.id)
  {
    var s' := Step(s, e);
    LogGrows(s, e);
    if s'.pc.Idle? && s'.slot.id != ITTI_INVALID_TIMER_ID {
      if s.pc.Idle? {
        var j :| 0 <= j < |s.log| && FiredAt(s.log, j, s.slot.id);
        assert FiredAt(s'.log, j, s.slot.id);
      } else {
        assert s'.slot == s.pc.msg && Genuine(s, s.pc.msg);
        assert FiredAt(s'.log, |s.log|, s'.slot.id);
      }
    }
  }

  lemma {:induction false} RunInvariant(nullTimeOut: nat, es: seq<Event>)
    ensures Invariant(Run(Init(nullTimeOut), es))
    decreases |es|
  {
    if es == [] {
      InitInvariant(nullTimeOut);
    } else {
      var s := Run(Init(nullTimeOut), es[..|es| - 1]);
      RunInvariant(nullTimeOut, es[..|es| - 1]);
      StepKeepsShape(s, es[|es| - 1]);
      StepKeepsConserved(s, es[|es| - 1]);
      StepKeepsLogShape(s, es[|es| - 1]);
    }
  }

  // ---------------------------------------------------------------- main results

  /** In every interleaving each issued id is in exactly one of the seven places: arriving, pending, held
      unfired in the slot, built but not sent, fired, removed unfired, dropped on an equal deadline. */
  lemma EachTimerInExactlyOnePlace(nullTimeOut: nat, es: seq<Event>, id: nat)
    requires id != ITTI_INVALID_TIMER_ID
    ensures var s := Run(Init(nullTimeOut), es);
            Places(s, id) == if id <= s.lastId then 1 else 0
  {
    RunInvariant(nullTimeOut, es);
  }

  lemma {:induction false} FiredCountedOnce(log: seq<Obs>, i: nat, id: nat)
    requires FiredAt(log, i, id)
    ensures CountFired(log, id) >= 1
    ensures forall j :: i < j < |log| && FiredAt(log, j, id) ==> CountFired(log, id) >= 2
    decreases |log|
  {
    var init := log[..|log| - 1];
    if i < |init| {
      assert FiredAt(init, i, id);
      FiredCountedOnce(init, i, id);
      forall j | i < j < |log| && FiredAt(log, j, id) ensures CountFired(log, id) >= 2 {
        if j < |init| {
          assert FiredAt(init, j, id);
        }
      }
    }
  }

  lemma {:induction false} GoneCounted(log: seq<Obs>, i: nat, id: nat)
    requires i < |log| && (log[i] == Removed(id, WasPending) || log[i] == Removed(id, WasHeld))
    ensures CountGone(log, id) >= 1
    decreases |log|
  {
    if i < |log| - 1 {
      GoneCounted(log[..|log| - 1], i, id);
    }
  }

  /** A timer fires at most once and never before its deadline. */
  lemma FiresOnceAndNotEarly(nullTimeOut: nat, es: seq<Event>, i: nat, id: nat)
    requires FiredAt(Run(Init(nullTimeOut), es).log, i, id)
    ensures var log := Run(Init(nullTimeOut), es).log;
            && (forall j :: FiredAt(log, j, id) ==> j == i)
            && (exists t: Timer :: Issued(t) in log[..i] && t.id == id && t.timeOut <= log[i].at)
  {
    var s := Run(Init(nullTimeOut), es);
    RunInvariant(nullTimeOut, es);
    assert EntryExplained(s, i);
    var t: Timer :| Issued(t) in s.log[..i] && t.id == id && t.timeOut <= s.log[i].at;
    IssuedIsValid(nullTimeOut, es, t);
    assert Places(s, id) <= 1;
    forall j | FiredAt(s.log, j, id) ensures j == i {
      FiredCountedOnce(s.log, if j < i then j else i, id);
    }
  }

  lemma {:induction false} IssuedIsValid(nullTimeOut: nat, es: seq<Event>, t: Timer)
    requires Issued(t) in Run(Init(nullTimeOut), es).log
    ensures t.id != ITTI_INVALID_TIMER_ID
    decreases |es|
  {
    var s := Run(Init(nullTimeOut), es[..|es| - 1]);
    if Issued(t) in s.log {
      IssuedIsValid(nullTimeOut, es[..|es| - 1], t);
    }
  }

  /** When a time-out follows a successful timer_remove. The removal at position i of the log is followed by
      a time-out of the same id iff it found the message built but not yet sent and that send has happened. */
  lemma FiresAfterRemoveIffInFlight(nullTimeOut: nat, es: seq<Event>, i: nat)
    requires i < |Run(Init(nullTimeOut), es).log|
    requires Run(Init(nullTimeOut), es).log[i].Removed?
    requires Run(Init(nullTimeOut), es).log[i].id != ITTI_INVALID_TIMER_ID
    ensures var s := Run(Init(nullTimeOut), es);
            var o := s.log[i];
            FiredBetween(s.log, i + 1, |s.log|, o.id) <==> o.place == WasInFlight && InFlight(s, o.id) == 0
  {
    var s := Run(Init(nullTimeOut), es);
    var o := s.log[i];
    RunInvariant(nullTimeOut, es);
    assert EntryExplained(s, i);
    assert Places(s, o.id) <= 1;
    if FiredBetween(s.log, i + 1, |s.log|, o.id) {
      var j :| i + 1 <= j < |s.log| && FiredAt(s.log, j, o.id);
      FiredCountedOnce(s.log, j, o.id);
      if o.place == WasPending || o.place == WasHeld {
        GoneCounted(s.log, i, o.id);
        assert false;
      } else if o.place == WasFired {
        var k :| 0 <= k < i && FiredAt(s.log, k, o.id);
        FiredCountedOnce(s.log, k, o.id);
        assert false;
      }
    }
  }

  // ---------------------------------------------------------------- equal deadlines

  /** The two insertion steps lose the timer iff a pending one has the same deadline. */
  lemma InsertDropsIffEqualDeadline(s: State, t: Timer)
    requires Sorted(s.timers)
    ensures InsertTimer(s, t).log == s.log + [Dropped(t.id)] <==> Clashes(s.timers, t)
    ensures t in InsertTimer(s, t).timers <==> !Clashes(s.timers, t) || t in s.timers
  {
    InsertCounts(s.timers, t, t.id);
    InsertedIfNew(s.timers, t);
  }

  lemma {:induction false} InsertedIfNew(ts: seq<Timer>, t: Timer)
    requires Sorted(ts)
    ensures t in Insert(ts, t) <==> t in ts || !Clashes(ts, t)
  {
    if ts != [] && ts[0].timeOut < t.timeOut {
      InsertedIfNew(ts[1..], t);
      ClashesInTail(ts, t);
      assert ts == [ts[0]] + ts[1..];
    } else if ts != [] && ts[0].timeOut == t.timeOut {
      assert Clashes(ts, t);
    }
  }

  ghost predicate SharesDeadline(log: seq<Obs>, id: nat) {
    exists t: Timer, u: Timer ::
      Issued(t) in log && Issued(u) in log && t.id == id && u.id != id && t.timeOut == u.timeOut
  }

  lemma DropSharesDeadline(s: State, t: Timer)
    requires Shape(s) && Genuine(s, t)
    requires Clashes(s.timers, t) && CountId(s.timers, t.id) == 0
    ensures SharesDeadline(s.log, t.id)
  {
    var i :| 0 <= i < |s.timers| && s.timers[i].timeOut == t.timeOut;
    var u := s.timers[i];
    assert u in s.timers;
    EraseCounts(s.timers, i, t.id);
  }

  lemma NewDropSharesDeadline(s: State, e: Event, id: nat)
    requires Invariant(s)
    requires Dropped(id) in Step(s, e).log && Dropped(id) !in s.log
    ensures SharesDeadline(s.log, id)
  {
    var s1 := if e.SetupInsert? then s.(arriving := s.arriving - {e.id}) else s;
    var t := if e.SetupInsert? then s.arriving[e.id] else s.slot;
    assert Places(s, t.id) == 1;
    assert Step(s, e).log == InsertTimer(s1, t).log;
    assert InsertTimer(s1, t).log == s.log + [Dropped(t.id)] && t.id == id;
    InsertDropsIffEqualDeadline(s1, t);
    DropSharesDeadline(s1, t);
  }

  /** Only timers whose deadline equals another timer's are ever lost: in a run in which all deadlines
      differ, every issued id is in one of the other six places. */
  lemma {:induction false} DroppedOnlyOnEqualDeadline(nullTimeOut: nat, es: seq<Event>, id: nat)
    requires Dropped(id) in Run(Init(nullTimeOut), es).log
    ensures SharesDeadline(Run(Init(nullTimeOut), es).log, id)
    decreases |es|
  {
    var e := es[|es| - 1];
    var s := Run(Init(nullTimeOut), es[..|es| - 1]);
    if Dropped(id) in s.log {
      DroppedOnlyOnEqualDeadline(nullTimeOut, es[..|es| - 1], id);
    } else {
      RunInvariant(nullTimeOut, es[..|es| - 1]);
      NewDropSharesDeadline(s, e, id);
    }
    LogGrows(s, e);
  }

  lemma RunSnoc(s: State, es: seq<Event>, e: Event)
    ensures Run(s, es + [e]) == Step(Run(s, es), e)
  {
    assert (es + [e])[..|es + [e]| - 1] == es;
  }

  lemma {:induction false} CountedAtLeastOnce(log: seq<Obs>, o: Obs)
    requires o in log
    ensures o.Dropped? ==> CountDropped(log, o.id) >= 1
    ensures o.Fired? ==> CountFired(log, o.id) >= 1
  {
    var n := |log| - 1;
    if o != log[n] {
      assert log == log[..n] + [log[n]];
      CountedAtLeastOnce(log[..n], o);
    }
  }

  /** A dropped timer never fires. */
  lemma DroppedNeverFires(nullTimeOut: nat, es: seq<Event>, id: nat, at: nat)
    requires id != ITTI_INVALID_TIMER_ID && Dropped(id) in Run(Init(nullTimeOut), es).log
    ensures Fired(id, at) !in Run(Init(nullTimeOut), es).log
  {
    var log := Run(Init(nullTimeOut), es).log;
    EachTimerInExactlyOnePlace(nullTimeOut, es, id);
    CountedAtLeastOnce(log, Dropped(id));
    if Fired(id, at) in log {
      CountedAtLeastOnce(log, Fired(id, at));
    }
  }

  lemma {:induction false} LogOnlyGrows(s: State, es: seq<Event>, more: seq<Event>, o: Obs)
    requires o in Run(s, es).log
    ensures o in Run(s, es + more).log
    decreases |more|
  {
    if more == [] {
      assert es + more == es;
    } else {
      var n := |more| - 1;
      LogOnlyGrows(s, es, more[..n], o);
      assert es + more == es + more[..n] + [more[n]];
      RunSnoc(s, es + more[..n], more[n]);
      LogGrows(Run(s, es + more[..n]), more[n]);
    }
  }

  /** The timer was dropped, and does not fire however the run goes on. */
  ghost predicate LostForGood(nullTimeOut: nat, es: seq<Event>, id: nat) {
    && Dropped(id) in Run(Init(nullTimeOut), es).log
    && forall more: seq<Event>, at: nat :: Fired(id, at) !in Run(Init(nullTimeOut), es + more).log
  }

  lemma DroppedIsLost(nullTimeOut: nat, es: seq<Event>, id: nat)
    requires id != ITTI_INVALID_TIMER_ID && Dropped(id) in Run(Init(nullTimeOut), es).log
    ensures LostForGood(nullTimeOut, es, id)
  {
    forall more: seq<Event>, at: nat ensures Fired(id, at) !in Run(Init(nullTimeOut), es + more).log {
      LogOnlyGrows(Init(nullTimeOut), es, more, Dropped(id));
      DroppedNeverFires(nullTimeOut, es + more, id, at);
    }
  }

  lemma SecondOfTwoIsDropped() returns (es: seq<Event>)
    ensures Dropped(2) in Run(Init(1000), es).log
  {
    var e1, e2 := [SetupBegin(3, 5)], [SetupBegin(3, 5), SetupBegin(4, 5)];
    var e3 := e2 + [SetupInsert(1)];
    es := e3 + [SetupInsert(2)];
    RunSnoc(Init(1000), [], SetupBegin(3, 5));
    RunSnoc(Init(1000), e1, SetupBegin(4, 5));
    assert [] + [SetupBegin(3, 5)] == e1 && e1 + [SetupBegin(4, 5)] == e2;
    RunSnoc(Init(1000), e2, SetupInsert(1));
    RunSnoc(Init(1000), e3, SetupInsert(2));
    var s := Run(Init(1000), es);
    assert s.log[|s.log| - 1] == Dropped(2);
  }

  /** A run in which the second of two timers is lost because both have the same deadline: it never fires. */
  lemma EqualDeadlineLosesTimer()
    ensures exists es :: LostForGood(1000, es, 2)
  {
    var es := SecondOfTwoIsDropped();
    DroppedIsLost(1000, es, 2);
  }

  lemma InsertedFirst(s: State, t: Timer)
    requires s == Init(1000).(arriving := map[1 := t], lastId := 1, log := [Issued(t)]) && t.id == 1
    ensures Step(s, SetupInsert(1)) == Init(1000).(timers := [t], lastId := 1, log := [Issued(t)])
  {
    assert s.arriving - {1} == map[];
    assert Insert([], t) == [t];
  }

  lemma SetUpFirst(t: Timer) returns (es: seq<Event>)
    requires t == Timer(1, 3, 0)
    ensures Run(Init(1000), es) == Init(1000).(timers := [t], lastId := 1, log := [Issued(t)])
  {
    es := [] + [SetupBegin(3, 0)];
    RunSnoc(Init(1000), [], SetupBegin(3, 0));
    var s1 := Run(Init(1000), es);
    assert s1 == Init(1000).(arriving := map[1 := t], lastId := 1, log := [Issued(t)]);
    InsertedFirst(s1, t);
    RunSnoc(Init(1000), es, SetupInsert(1));
    es := es + [SetupInsert(1)];
  }

  /** Taken, found due and its message built. */
  lemma TakenAndBuilt(s: State, t: Timer)
    requires s == Init(1000).(timers := [t], lastId := 1, log := [Issued(t)]) && t == Timer(1, 3, 0)
    ensures Step(Step(Step(s, Take), CheckDue), Build)
         == Init(1000).(slot := t, lastId := 1, pc := Sending(t), log := [Issued(t)])
  {
  }

  lemma RunToBuiltMessage(t: Timer) returns (es: seq<Event>)
    requires t == Timer(1, 3, 0)
    ensures Run(Init(1000), es) == Init(1000).(slot := t, lastId := 1, pc := Sending(t), log := [Issued(t)])
  {
    es := SetUpFirst(t);
    RunSnoc(Init(1000), es, Take);
    RunSnoc(Init(1000), es + [Take], CheckDue);
    RunSnoc(Init(1000), es + [Take] + [CheckDue], Build);
    TakenAndBuilt(Run(Init(1000), es), t);
    es := es + [Take] + [CheckDue] + [Build];
  }

  /** A run in which a timer fires although timer_remove has returned RETURNok for it. */
  lemma LateRemoveDoesNotStopTimer()
    ensures exists es, i ::
              var log := Run(Init(1000), es).log;
              0 <= i < |log| && log[i] == Removed(1, WasInFlight) && FiredBetween(log, i + 1, |log|, 1)
  {
    var s0 := Init(1000);
    var t := Timer(1, 3, 0);
    var es := RunToBuiltMessage(t);
    RunSnoc(s0, es, Remove(1));
    RunSnoc(s0, es + [Remove(1)], Send);
    var log := Run(s0, es + [Remove(1)] + [Send]).log;
    assert log[1] == Removed(1, WasInFlight);
    assert FiredAt(log, 2, 1);
  }

  // ---------------------------------------------------------------- what the manager gets done

  lemma FirstIsEarliest(ts: seq<Timer>)
    requires Sorted(ts) && ts != []
    ensures ts[0] in ts && forall u :: u in ts ==> ts[0].timeOut <= u.timeOut
    ensures forall u :: u in ts[1..] <==> u in ts && u != ts[0]
  {
    assert ts == [ts[0]] + ts[1..];
    forall u | u in ts[1..] ensures u.timeOut > ts[0].timeOut {
      var i :| 0 <= i < |ts[1..]| && ts[1..][i] == u;
      assert ts[i + 1] == u;
    }
  }

  /** In every run the manager takes the pending timer of the earliest deadline, and leaves exactly the others. */
  lemma TakesEarliest(nullTimeOut: nat, es: seq<Event>)
    requires var s := Run(Init(nullTimeOut), es); s.pc.Idle? && s.timers != []
    ensures var s, s' := Run(Init(nullTimeOut), es), Step(Run(Init(nullTimeOut), es), Take);
            && s'.slot in s.timers && (forall u :: u in s.timers ==> s'.slot.timeOut <= u.timeOut)
            && (forall u :: u in s'.timers <==> u in s.timers && u != s'.slot)
            && |s'.timers| == |s.timers| - 1
  {
    RunInvariant(nullTimeOut, es);
    FirstIsEarliest(Run(Init(nullTimeOut), es).timers);
  }

  function Later(a: nat, b: nat): nat {
    if a < b then b else a
  }

  lemma ServeDue(s: State) returns (es: seq<Event>)
    requires s.pc.Idle? && s.timers != [] && TASK_FIRST <= s.timers[0].taskId < TASK_MAX
    requires s.timers[0].timeOut <= s.now
    ensures var t := s.timers[0];
            Run(s, es) == s.(timers := s.timers[1..], slot := t, log := s.log + [Fired(t.id, s.now)])
  {
    es := [] + [Take];
    RunSnoc(s, [], Take);
    RunSnoc(s, es, CheckDue);
    RunSnoc(s, es + [CheckDue], Build);
    RunSnoc(s, es + [CheckDue] + [Build], Send);
    es := es + [CheckDue] + [Build] + [Send];
  }

  lemma WaitStarts(s: State) returns (es: seq<Event>)
    requires s.pc.Idle? && s.timers != [] && s.timers[0].timeOut > s.now
    ensures var t := s.timers[0]; Run(s, es) == s.(timers := s.timers[1..], slot := t, pc := Waiting(t.timeOut))
  {
    es := [] + [Take];
    RunSnoc(s, [], Take);
    RunSnoc(s, es, CheckDue);
    RunSnoc(s, es + [CheckDue], Measure);
    es := es + [CheckDue] + [Measure];
  }

  lemma WaitEnds(s: State) returns (es: seq<Event>)
    requires s.pc == Waiting(s.slot.timeOut) && s.slot.timeOut > s.now && TASK_FIRST <= s.slot.taskId < TASK_MAX
    ensures Run(s, es) == s.(now := s.slot.timeOut, pc := Idle, log := s.log + [Fired(s.slot.id, s.slot.timeOut)])
  {
    var tick := Tick(s.slot.timeOut - s.now);
    es := [] + [tick];
    RunSnoc(s, [], tick);
    RunSnoc(s, es, TimeoutOutcome);
    RunSnoc(s, es + [TimeoutOutcome], Build);
    RunSnoc(s, es + [TimeoutOutcome] + [Build], Send);
    es := es + [TimeoutOutcome] + [Build] + [Send];
  }

  lemma ServeLater(s: State) returns (es: seq<Event>)
    requires s.pc.Idle? && s.timers != [] && TASK_FIRST <= s.timers[0].taskId < TASK_MAX
    requires s.timers[0].timeOut > s.now
    ensures var t := s.timers[0];
            Run(s, es)
            == s.(timers := s.timers[1..], slot := t, now := t.timeOut, log := s.log + [Fired(t.id, t.timeOut)])
  {
    es := WaitStarts(s);
    var more := WaitEnds(Run(s, es));
    RunOn(s, es, more);
    es := es + more;
  }

  lemma {:induction false} RunOn(s: State, es: seq<Event>, more: seq<Event>)
    ensures Run(s, es + more) == Run(Run(s, es), more)
    decreases |more|
  {
    if more == [] {
      assert es + more == es;
    } else {
      var n := |more| - 1;
      RunOn(s, es, more[..n]);
      assert es + more == es + more[..n] + [more[n]];
      RunSnoc(s, es + more[..n], more[n]);
    }
  }

  /** The observations are those of the timers firing one after the other, each at its deadline or, where that has
      passed, at once. */
  ghost predicate FiredInOrder(log: seq<Obs>, before: seq<Obs>, ts: seq<Timer>, now: nat) {
    && |log| == |before| + |ts| && log[..|before|] == before
    && forall i :: 0 <= i < |ts| ==> log[|before| + i] == Fired(ts[i].id, Later(now, ts[i].timeOut))
  }

  lemma FiredFirst(log: seq<Obs>, before: seq<Obs>, ts: seq<Timer>, now: nat)
    requires ts != [] && Sorted(ts)
    requires var at := Later(now, ts[0].timeOut); FiredInOrder(log, before + [Fired(ts[0].id, at)], ts[1..], at)
    ensures FiredInOrder(log, before, ts, now)
  {
    var at := Later(now, ts[0].timeOut);
    var one := before + [Fired(ts[0].id, at)];
    assert log[..|one|][..|before|] == log[..|before|] && log[|before|] == log[..|one|][|before|];
    forall i | 0 <= i < |ts| ensures log[|before| + i] == Fired(ts[i].id, Later(now, ts[i].timeOut)) {
      if i > 0 {
        assert log[|one| + (i - 1)] == Fired(ts[1..][i - 1].id, Later(at, ts[1..][i - 1].timeOut));
      }
    }
  }

  lemma {:induction false} PendingFire(s: State) returns (es: seq<Event>)
    requires s.pc.Idle? && Sorted(s.timers) && forall t :: t in s.timers ==> TASK_FIRST <= t.taskId < TASK_MAX
    ensures Run(s, es).timers == [] && FiredInOrder(Run(s, es).log, s.log, s.timers, s.now)
    decreases |s.timers|
  {
    es := [];
    if s.timers != [] {
      var t := s.timers[0];
      assert t in s.timers;
      if t.timeOut <= s.now {
        es := ServeDue(s);
      } else {
        es := ServeLater(s);
      }
      var s1 := Run(s, es);
      var more := PendingFire(s1);
      RunOn(s, es, more);
      FiredFirst(Run(s1, more).log, s.log, s.timers, s.now);
      es := es + more;
    }
  }

  /** Left alone from any point of any run at which it is idle, with the clock going on, the manager fires every pending
      timer, in the order of their deadlines, each at its deadline or, where that has passed, at once. */
  lemma LeftAloneAllFire(nullTimeOut: nat, es: seq<Event>) returns (more: seq<Event>)
    requires Run(Init(nullTimeOut), es).pc.Idle?
    ensures var s, s' := Run(Init(nullTimeOut), es), Run(Init(nullTimeOut), es + more);
            s'.timers == [] && FiredInOrder(s'.log, s.log, s.timers, s.now)
  {
    RunInvariant(nullTimeOut, es);
    more := PendingFire(Run(Init(nullTimeOut), es));
    RunOn(Init(nullTimeOut), es, more);
  }

  /** Where the insertion happens. */
  lemma {:induction false} InsertAt(ts: seq<Timer>, k: nat, t: Timer)
    requires k <= |ts| && forall i :: 0 <= i < k ==> ts[i].timeOut < t.timeOut
    ensures k == |ts| || t.timeOut < ts[k].timeOut ==> Insert(ts, t) == ts[..k] + [t] + ts[k..]
    ensures k < |ts| && t.timeOut == ts[k].timeOut ==> Insert(ts, t) == ts
  {
    if k > 0 {
      InsertAt(ts[1..], k - 1, t);
      assert ts == [ts[0]] + ts[1..];
      assert ts[..k] + [t] + ts[k..] == [ts[0]] + (ts[1..][..k - 1] + [t] + ts[1..][k - 1..]);
    }
  }

  // ---------------------------------------------------------------- the shared object

  /** The fields of itti_mw that timers use. Every method is one atomic step of `Step`. */
  class TimerManager {
    var timers: seq<Timer>
    var currentTimer: Timer
    var timerId: uint32
    var clock: nat
    const nullTimer: Timer
    ghost var arriving: map<nat, Timer>
    ghost var pc: Pc
    ghost var log: seq<Obs>

    ghost function Abstract(): State
      reads this
    {
      State(timers, currentTimer, nullTimer, arriving, timerId, clock, pc, log)
    }

    constructor (nullTimeOut: nat)
      ensures Abstract() == Init(nullTimeOut)
    {
      nullTimer := Timer(ITTI_INVALID_TIMER_ID, TASK_NONE, nullTimeOut);
      currentTimer := Timer(ITTI_INVALID_TIMER_ID, TASK_NONE, nullTimeOut);
      timers, timerId, clock := [], 0, 0;
      arriving, pc, log := map[], Idle, [];
    }

    /** timer_setup up to the critical section; the caller gets id 0 for a task that takes no timers. So does the call
        in which the 32-bit id wraps, but its timer is set up. */
    method BeginSetup(taskId: int, delay: nat) returns (t: Timer)
      modifies this
      ensures !(TASK_FIRST < taskId < TASK_MAX && old(timerId) == MAX_TIMER_ID) ==>
                Abstract() == Step(old(Abstract()), SetupBegin(taskId, delay))
      ensures old(timerId) == MAX_TIMER_ID || !(TASK_FIRST < taskId < TASK_MAX) ==> t.id == ITTI_INVALID_TIMER_ID
      ensures TASK_FIRST < taskId < TASK_MAX ==>
                && arriving == old(arriving)[t.id := t] && t.id == timerId == (old(timerId) + 1) % UINT_RANGE
                && t.taskId == taskId && t.timeOut == clock + delay
    {
      t := nullTimer.(id := ITTI_INVALID_TIMER_ID);
      if TASK_FIRST < taskId < TASK_MAX {
        timerId := (timerId + 1) % UINT_RANGE;
        t := Timer(timerId, taskId, clock + delay);
        arriving := arriving[t.id := t];
        log := log + [Issued(t)];
      }
    }

    /** std::set::insert, searching the position from the front. */
    method InsertOrdered(t: Timer)
      requires Sorted(timers)
      modifies this`timers
      ensures timers == Insert(old(timers), t)
    {
      var k := 0;
      while k < |timers| && timers[k].timeOut < t.timeOut
        invariant k <= |timers| && forall i :: 0 <= i < k ==> timers[i].timeOut < t.timeOut
      {
        k := k + 1;
      }
      InsertAt(timers, k, t);
      if k == |timers| || t.timeOut < timers[k].timeOut {
        timers := timers[..k] + [t] + timers[k..];
      }
    }

    /** The critical section of timer_setup. */
    method FinishSetup(t: Timer) returns (id: nat)
      requires Sorted(timers) && t.id in arriving && arriving[t.id] == t
      modifies this
      ensures Abstract() == Step(old(Abstract()), SetupInsert(t.id))
      ensures id == t.id
    {
      arriving := arriving - {t.id};
      ghost var before := timers;
      InsertOrdered(t);
      InsertCounts(before, t, t.id);
      if |timers| == |before| {
        InsertIsUnchanged(before, t);
        log := log + [Dropped(t.id)];
      }
      id := t.id;
    }

    /** timer_remove. */
    method Remove(timerToRemove: nat) returns (ok: bool)
      modifies this
      ensures Abstract() == Step(old(Abstract()), Event.Remove(timerToRemove))
      ensures ok == RemoveSucceeds(old(Abstract()), timerToRemove)
    {
      if currentTimer.id == timerToRemove {
        log := log + [RemoveTimer(Abstract(), timerToRemove).log[|log|]];
        currentTimer := nullTimer;
        return true;
      }
      var it := 0;
      while it < |timers|
        invariant it <= |timers|
        invariant forall k :: 0 <= k < it ==> timers[k].id != timerToRemove
      {
        if timers[it].id == timerToRemove {
          assert IndexOf(timers, timerToRemove) == it;
          timers := timers[..it] + timers[it + 1..];
          log := log + [Removed(timerToRemove, WasPending)];
          return true;
        }
        it := it + 1;
      }
      assert IndexOf(timers, timerToRemove) == |timers|;
      return false;
    }

    /** The manager's first critical section; the caller waits while no timer is pending. */
    method TakeFirst()
      requires pc.Idle? && timers != [] && Sorted(timers)
      modifies this
      ensures Abstract() == Step(old(Abstract()), Take)
      ensures currentTimer in old(timers) && forall u :: u in old(timers) ==> currentTimer.timeOut <= u.timeOut
      ensures forall u :: u in timers <==> u in old(timers) && u != currentTimer
    {
      FirstIsEarliest(timers);
      currentTimer, timers, pc := timers[0], timers[1..], Taken;
    }

    method CompareDueTime() returns (wait: bool)
      requires pc.Taken?
      modifies this
      ensures Abstract() == Step(old(Abstract()), CheckDue)
      ensures wait <==> pc.Measuring?
    {
      wait := currentTimer.timeOut > clock;
      pc := if wait then Measuring else Building;
    }

    /** The length handed to wait_for; it is negative when the timer has become due meanwhile. */
    method MeasureWait() returns (diff: int)
      requires pc.Measuring?
      modifies this
      ensures Abstract() == Step(old(Abstract()), Measure)
      ensures pc.Waiting? && pc.until == clock + diff
    {
      diff := currentTimer.timeOut - clock;
      pc := Waiting(currentTimer.timeOut);
    }

    /** The branch taken when wait_for returned before its time. */
    method PutBack()
      requires pc.Requeuing? && Sorted(timers)
      modifies this
      ensures Abstract() == Step(old(Abstract()), Event.Requeue)
    {
      if currentTimer.id != ITTI_INVALID_TIMER_ID {
        ghost var before := timers;
        InsertOrdered(currentTimer);
        InsertCounts(before, currentTimer, currentTimer.id);
        if |timers| == |before| {
          InsertIsUnchanged(before, currentTimer);
          log := log + [Dropped(currentTimer.id)];
        }
      }
      currentTimer, pc := nullTimer, Idle;
    }

    method BuildTimeout() returns (msg: Timer)
      requires pc.Building?
      modifies this
      ensures Abstract() == Step(old(Abstract()), Build)
      ensures pc == Sending(msg)
    {
      msg := currentTimer;
      pc := Sending(msg);
    }

    method SendBuilt(msg: Timer) returns (delivered: bool)
      requires pc == Sending(msg)
      modifies this
      ensures Abstract() == Step(old(Abstract()), Send)
      ensures delivered <==> |log| == |old(log)| + 1
    {
      delivered := TASK_FIRST <= msg.taskId < TASK_MAX;
      pc := Idle;
      if delivered {
        log := log + [Fired(msg.id, clock)];
      }
    }
  }

  lemma {:induction false} InsertIsUnchanged(ts: seq<Timer>, t: Timer)
    requires |Insert(ts, t)| == |ts|
    ensures Insert(ts, t) == ts
  {
    if ts != [] && ts[0].timeOut < t.timeOut {
      InsertIsUnchanged(ts[1..], t);
    }
  }
}
