/** The N2 task as a state machine: gNB lifecycle, UE contexts, and handover. Each handler except NG Setup runs to its
    end as one step; how the SMF answers is part of the event. */
module N2Handlers {
  import opened Numerals
  import opened Responses
  import opened GnbLifecycle
  import opened UeContexts
  import Slices

  /** `sessions` leads from (SUPI, PDU session id) to a session context, of which `accepted` holds is_ho_accepted;
      two UE contexts may share a session context. `halted`: an exception that nothing catches has ended the process. */
  datatype N2 = N2(core: Core, t: Tables, sessions: map<(string, nat), nat>, accepted: seq<bool>, halted: bool)

  ghost predicate Sane(s: N2) {
    Valid(s.t) && forall k :: k in s.sessions ==> s.sessions[k] < |s.accepted|
  }

  datatype HoState = Preparing | Prepared | Completed

  datatype Output =
    | SmUpdate(amf: nat, ran: nat, id: nat, ho: HoState)                  // to the SMF of the session
    | HandoverRequest(assoc: int, amf: nat, ncc: uint8, ids: seq<nat>)    // to the target gNB
    | HandoverCommand(assoc: int, amf: nat, ran: nat, ids: seq<nat>)      // to the source gNB
    | ReleaseCommand(assoc: int, amf: nat, ran: nat)

  /** One entry of the connection list of a partial NG Reset. */
  datatype Connection = Connection(amf: Option<nat>, ran: Option<nat>)

  datatype N2Event =
    | Lifecycle(l: GnbLifecycle.Event)                                    // NG Reset here is of the whole interface
    | PartReset(a: int, connections: seq<Connection>)
    | InitialUe(a: int, ran: nat)
    | AssignAmfId(ran: nat, amf: nat)
    | DlNas(ran: nat, amf: nat)
    | ContextSetup(ran: nat)
    | Required(a: int, amf: nat, ran: nat, intra5gs: bool, target: int, items: seq<nat>, replies: map<nat, Reply>)
    | Ack(a: int, amf: nat, ran: nat, admitted: Option<seq<nat>>, replies: map<nat, Reply>)
    | Notify(a: int, amf: nat, ran: nat, located: bool)
    | NasChange(nasByAmf: map<nat, NasContext>, nasByImsi: map<string, NasContext>)
    | AddSession(supi: string, id: nat)
    | ShareSession(supi: string, id: nat, from: (string, nat))
    | RemoveSession(supi: string, id: nat)

  // ---------------------------------------------------------------- UE contexts

  function Put(t: Tables, u: nat, c: UeContext): Tables
    requires u < |t.contexts|
  {
    t.(contexts := t.contexts[u := c])
  }

  function OnInitialUe(s: N2, a: int, ran: nat): (s': N2)
    requires Sane(s)
    ensures Sane(s')
  {
    if a !in s.core.assocs || s.core.assocs[a].ngState.NgapInit? then s
    else if ran in s.t.byRan then
      var u := s.t.byRan[ran];
      s.(t := Put(s.t, u, s.t.contexts[u].(ranId := ran, assoc := a)))
    else
      s.(t := s.t.(contexts := s.t.contexts + [NEW_UE_CONTEXT.(ranId := ran, assoc := a)],
                   byRan := s.t.byRan[ran := |s.t.contexts|]))
  }

  function OnAssignAmfId(s: N2, ran: nat, amf: nat): (s': N2)
    requires Sane(s)
    ensures Sane(s')
  {
    if ran !in s.t.byRan then s
    else
      var u := s.t.byRan[ran];
      s.(t := Put(s.t, u, s.t.contexts[u].(amfId := amf)).(byAmf := s.t.byAmf[amf := u]))
  }

  function OnDlNas(s: N2, ran: nat, amf: nat): (s': N2)
    requires Sane(s)
    ensures Sane(s')
  {
    if ran !in s.t.byRan || s.t.contexts[s.t.byRan[ran]].assoc !in s.core.assocs then s
    else
      var u := s.t.byRan[ran];
      s.(t := Put(s.t, u, s.t.contexts[u].(amfId := amf, state := UeConnected)).(byAmf := s.t.byAmf[amf := u]))
  }

  function OnContextSetup(s: N2, ran: nat): (s': N2)
    requires Sane(s)
    ensures Sane(s')
  {
    if ran !in s.t.byRan then s
    else s.(t := Put(s.t, s.t.byRan[ran], s.t.contexts[s.t.byRan[ran]].(ncc := 1)))
  }

  function ReleaseConnection(t: Tables, c: Connection): (t': Tables)
    requires Valid(t)
    ensures Valid(t') && t'.contexts == t.contexts
  {
    if c.amf.Some? then RemoveByAmf(t, c.amf.value)
    else if c.ran.Some? then RemoveByRan(t, c.ran.value)
    else t
  }

  /** The loop of a partial NG Reset: by AMF id where one is given, else by RAN id. */
  function ReleaseConnections(t: Tables, cs: seq<Connection>): (t': Tables)
    requires Valid(t)
    ensures Valid(t') && t'.contexts == t.contexts
  {
    if cs == [] then t else ReleaseConnection(ReleaseConnections(t, cs[..|cs| - 1]), cs[|cs| - 1])
  }

  function OnPartReset(s: N2, a: int, connections: seq<Connection>): (s': N2)
    requires Sane(s)
    ensures Sane(s')
  {
    if a !in s.core.assocs then s
    else s.(core := NgReset(s.core, a), t := ReleaseConnections(s.t, connections))
  }

  /** NG Reset of the interface, and Shutdown, of a known association. */
  predicate Releases(s: N2, l: GnbLifecycle.Event) {
    (l.Reset? || l.Shutdown?) && Taken(s.core, l) && l.a in s.core.assocs
  }

  function OnLifecycle(s: N2, l: GnbLifecycle.Event): (s': N2)
    requires Sane(s)
    ensures Sane(s')
  {
    var s1 := s.(core := GnbLifecycle.Step(s.core, l));
    if Releases(s, l) then s1.(t := ReleaseAll(s.t, l.a)) else s1
  }

  // ---------------------------------------------------------------- handover

  /** The SMF's reply is there in time and is not empty. */
  predicate Answered(replies: map<nat, Reply>, id: nat) {
    id in replies && replies[id].Ready? && |replies[id].body| > 0
  }

  function AnsweredOf(ids: seq<nat>, replies: map<nat, Reply>): seq<nat> {
    if ids == [] then []
    else
      var init, last := AnsweredOf(ids[..|ids| - 1], replies), ids[|ids| - 1];
      if Answered(replies, last) then init + [last] else init
  }

  /** The ids of a list that are waited for: one response each. */
  function Waited(ids: seq<nat>): seq<nat> {
    SortedKeys(IdSet(ids))
  }

  function IdSet(ids: seq<nat>): set<nat> {
    set id | id in ids
  }

  function Updates(amf: nat, ran: nat, ids: seq<nat>, ho: HoState): seq<Output> {
    if ids == [] then [] else Updates(amf, ran, ids[..|ids| - 1], ho) + [SmUpdate(amf, ran, ids[|ids| - 1], ho)]
  }

  /** The listed sessions that exist. */
  function Existing(sessions: map<(string, nat), nat>, supi: string, ids: seq<nat>): seq<nat> {
    if ids == [] then []
    else
      var init, last := Existing(sessions, supi, ids[..|ids| - 1]), ids[|ids| - 1];
      if (supi, last) in sessions then init + [last] else init
  }

  predicate RequiredAccepted(s: N2, a: int, amf: nat, ran: nat, intra5gs: bool)
    requires Sane(s)
  {
    a in s.core.assocs && ran in s.t.byRan && s.t.contexts[s.t.byRan[ran]].amfId == amf && intra5gs
  }

  function Started(c: UeContext, a: int): UeContext {
    c.(assoc := a, ncc := (c.ncc + 1) % 0x100, state := UeHandover)
  }

  /** Handover Required once the UE is accepted and its context written. */
  function Prepare(s: N2, u: nat, amf: nat, ran: nat, target: int, items: seq<nat>, replies: map<nat, Reply>):
    (r: (N2, seq<Output>))
    requires Sane(s) && u < |s.t.contexts|
    ensures Sane(r.0)
  {
    if amf !in s.t.nasByAmf || !s.t.nasByAmf[amf].hasSecurity then (s, [])
    else
      var ids := Existing(s.sessions, ImsiKey(s.t.nasByAmf[amf]), items);
      var updates := Updates(amf, ran, ids, Preparing);
      if target !in s.core.gnbIds then (s.(halted := true), updates)   // map::at throws
      else
        var to := s.core.gnbIds[target];
        (s.(t := Put(s.t, u, s.t.contexts[u].(targetAssoc := to))),
         updates + [HandoverRequest(to, amf, s.t.contexts[u].ncc, AnsweredOf(Waited(ids), replies))])
  }

  function OnRequired(s: N2, a: int, amf: nat, ran: nat, intra5gs: bool, target: int, items: seq<nat>,
                      replies: map<nat, Reply>): (r: (N2, seq<Output>))
    requires Sane(s)
    ensures Sane(r.0)
  {
    if !RequiredAccepted(s, a, amf, ran, intra5gs) then (s, [])
    else
      var u := s.t.byRan[ran];
      Prepare(s.(t := Put(s.t, u, Started(s.t.contexts[u], a))), u, amf, ran, target, items, replies)
  }

  function MarkAccepted(accepted: seq<bool>, sessions: map<(string, nat), nat>, supi: string, ids: seq<nat>):
    (r: seq<bool>)
    requires forall k :: k in sessions ==> sessions[k] < |accepted|
    ensures |r| == |accepted|
  {
    if ids == [] then accepted
    else
      var init, last := MarkAccepted(accepted, sessions, supi, ids[..|ids| - 1]), ids[|ids| - 1];
      if (supi, last) in sessions then init[sessions[(supi, last)] := true] else init
  }

  predicate AckHandled(s: N2, a: int, amf: nat, admitted: Option<seq<nat>>) {
    a in s.core.assocs && amf in s.t.byAmf && admitted.Some? && amf in s.t.nasByAmf
  }

  /** Handover Request Ack once the target RAN id is stored. */
  function Command(s: N2, u: nat, amf: nat, ran: nat, admitted: seq<nat>, replies: map<nat, Reply>):
    (r: (N2, seq<Output>))
    requires Sane(s) && u < |s.t.contexts| && amf in s.t.nasByAmf
    ensures Sane(r.0)
  {
    var ids := AnsweredOf(Waited(admitted), replies);
    (s.(accepted := MarkAccepted(s.accepted, s.sessions, ImsiKey(s.t.nasByAmf[amf]), ids)),
     Updates(amf, ran, admitted, Prepared) + [HandoverCommand(s.t.contexts[u].assoc, amf, s.t.contexts[u].ranId, ids)])
  }

  function OnAck(s: N2, a: int, amf: nat, ran: nat, admitted: Option<seq<nat>>, replies: map<nat, Reply>):
    (r: (N2, seq<Output>))
    requires Sane(s)
    ensures Sane(r.0)
  {
    if a !in s.core.assocs || amf !in s.t.byAmf then (s, [])
    else
      var u := s.t.byAmf[amf];
      var s1 := s.(t := Put(s.t, u, s.t.contexts[u].(targetRanId := ran)));
      if !AckHandled(s, a, amf, admitted) then (s1, []) else Command(s1, u, amf, ran, admitted.value, replies)
  }

  /** The ids of the sessions of a UE whose handover was accepted. */
  function AcceptedIds(s: N2, supi: string): set<nat>
    requires Sane(s)
  {
    set k | k in s.sessions.Keys && k.0 == supi && s.accepted[s.sessions[k]] :: k.1
  }

  predicate NotifyHandled(s: N2, a: int, amf: nat, located: bool) {
    a in s.core.assocs && amf in s.t.byAmf && located && amf in s.t.nasByAmf
  }

  /** The new RAN key is added; the old one is kept. */
  function Switched(t: Tables, u: nat, a: int, ran: nat): Tables
    requires u < |t.contexts|
  {
    var c := t.contexts[u].(ranId := ran, targetRanId := 0, state := UeConnected, assoc := a);
    Put(t, u, c).(byRan := t.byRan[ran := u])
  }

  /** The replies to the COMPLETED reports are waited for, and not used. */
  function OnNotify(s: N2, a: int, amf: nat, ran: nat, located: bool): (r: (N2, seq<Output>))
    requires Sane(s)
    ensures Sane(r.0)
  {
    if !NotifyHandled(s, a, amf, located) then (s, [])
    else
      var u := s.t.byAmf[amf];
      var c := s.t.contexts[u];
      (s.(t := Switched(s.t, u, a, ran)),
       Updates(amf, ran, SortedKeys(AcceptedIds(s, ImsiKey(s.t.nasByAmf[amf]))), Completed)
       + [ReleaseCommand(c.assoc, amf, c.ranId)])
  }

  // ---------------------------------------------------------------- sessions

  /** A session context is created only where none is; is_ho_accepted starts false. */
  function OnAddSession(s: N2, supi: string, id: nat): (s': N2)
    requires Sane(s)
    ensures Sane(s')
  {
    if (supi, id) in s.sessions then s
    else s.(sessions := s.sessions[(supi, id) := |s.accepted|], accepted := s.accepted + [false])
  }

  // ---------------------------------------------------------------- the machine

  /** Messages of the N2 task; those of the gNB lifecycle say themselves when they are taken. */
  predicate OnN2Task(e: N2Event) {
    e.PartReset? || e.InitialUe? || e.DlNas? || e.ContextSetup? || e.Required? || e.Ack? || e.Notify?
  }

  /** The process runs, and the N2 task is not inside NG Setup where the event is one of its messages. An event that is
      not handled does not happen. */
  predicate Handled(s: N2, e: N2Event) {
    !s.halted && !(OnN2Task(e) && Busy(s.core))
  }

  function StepOut(s: N2, e: N2Event): (r: (N2, seq<Output>))
    requires Sane(s)
    ensures Sane(r.0)
  {
    if !Handled(s, e) then (s, []) else
    match e
    case Lifecycle(l) => (OnLifecycle(s, l), [])
    case PartReset(a, connections) => (OnPartReset(s, a, connections), [])
    case InitialUe(a, ran) => (OnInitialUe(s, a, ran), [])
    case AssignAmfId(ran, amf) => (OnAssignAmfId(s, ran, amf), [])
    case DlNas(ran, amf) => (OnDlNas(s, ran, amf), [])
    case ContextSetup(ran) => (OnContextSetup(s, ran), [])
    case Required(a, amf, ran, intra, target, items, replies) =>
      OnRequired(s, a, amf, ran, intra, target, items, replies)
    case Ack(a, amf, ran, admitted, replies) => OnAck(s, a, amf, ran, admitted, replies)
    case Notify(a, amf, ran, located) => OnNotify(s, a, amf, ran, located)
    case NasChange(byAmf, byImsi) => (s.(t := s.t.(nasByAmf := byAmf, nasByImsi := byImsi)), [])
    case AddSession(supi, id) => (OnAddSession(s, supi, id), [])
    case ShareSession(supi, id, from) =>
      (if from in s.sessions then s.(sessions := s.sessions[(supi, id) := s.sessions[from]]) else s, [])
    case RemoveSession(supi, id) => (s.(sessions := s.sessions - {(supi, id)}), [])
  }

  function N2Step(s: N2, e: N2Event): (s': N2)
    requires Sane(s)
    ensures Sane(s')
  {
    StepOut(s, e).0
  }

  function Start(plmnList: seq<Slices.PlmnItem>): (s: N2)
    ensures Sane(s)
  {
    N2(Init(plmnList), EMPTY_TABLES, map[], [], false)
  }

  function N2Run(s: N2, es: seq<N2Event>): (s': N2)
    requires Sane(s)
    ensures Sane(s')
  {
    if es == [] then s else N2Step(N2Run(s, es[..|es| - 1]), es[|es| - 1])
  }

  /** The state before event n. */
  function Before(s: N2, es: seq<N2Event>, n: nat): (s': N2)
    requires Sane(s) && n <= |es|
    ensures Sane(s')
  {
    N2Run(s, es[..n])
  }

  lemma BeforeNext(s: N2, es: seq<N2Event>, n: nat)
    requires Sane(s) && n < |es|
    ensures Before(s, es, n + 1) == N2Step(Before(s, es, n), es[n])
  {
    assert es[..n + 1][..n] == es[..n];
  }

  lemma BeforeAll(s: N2, es: seq<N2Event>)
    requires Sane(s)
    ensures Before(s, es, |es|) == N2Run(s, es) && Before(s, es, 0) == s
  {
    assert es[..|es|] == es;
  }
}
