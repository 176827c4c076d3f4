/** The life of a gNB association and the configuration lock: SCTP association, NG Setup, NG Reset, Shutdown and
    configuration update (NG Setup is section 8.7.1 of 3GPP TS 38.413). Three threads take part: the N2 task handles
    the NGAP messages, the application task the updates, and the SCTP receiver new associations. NG Setup and update
    are two steps each, and the other threads may take steps in between. Message encoding always succeeds. */
module GnbLifecycle {
  import opened Numerals
  import opened Slices

  datatype NgState = NgapInit | NgapReseting | NgapReady | NgapShutdown

  /** gnb_context; `globalRanNodeId` of a new one is zero. */
  datatype GnbContext = GnbContext(ngState: NgState, globalRanNodeId: int, taList: seq<TaItem>)

  datatype SetupRequest = SetupRequest(gnbId: Option<uint32>, pagingDrx: bool, taList: Option<seq<TaItem>>)

  /** What from_json reads: a PLMN list if one is present, and whether a later member makes it fail. */
  datatype ConfigJson = ConfigJson(plmnList: Option<seq<PlmnItem>>, ok: bool)

  /** An NG Setup request that was found to share a slice and has not been answered. */
  datatype Pending = Pending(assoc: int, gnbId: uint32)

  datatype Core = Core(
    plmnList: seq<PlmnItem>,             // amf_cfg.plmn_list
    assocs: map<int, GnbContext>,        // assoc2gnbContext; a context is known by its association id
    gnbIds: map<int, int>,               // gnbid2gnbContext: gNB id to association id
    stats: map<int, seq<TaItem>>,        // statistics::gnbs
    open: Option<Pending>,               // where the N2 task is inside NG Setup
    update: Option<ConfigJson>)          // where the application task is between the gate and the write

  // ---------------------------------------------------------------- the handlers

  function Init(plmnList: seq<PlmnItem>): Core {
    Core(plmnList, map[], map[], map[], None, None)
  }

  function NewAssociation(c: Core, a: int): Core {
    var gc := if a in c.assocs then c.assocs[a] else GnbContext(NgapInit, 0, []);
    c.(assocs := c.assocs[a := gc.(ngState := NgapInit)])
  }

  predicate Complete(req: SetupRequest) {
    req.gnbId.Some? && req.pagingDrx && req.taList.Some?
  }

  /** NG Setup ends with a setup response. */
  predicate SetupAccepted(c: Core, a: int, req: SetupRequest) {
    a in c.assocs && Complete(req) && StoredSlices(CommonItems(c.plmnList, req.taList.value)) != []
  }

  /** NG Setup up to the intersection with the configured list. What is common is appended to the list of the context,
      whatever comes of the request. */
  function BeginSetup(c: Core, a: int, req: SetupRequest): Core {
    if a !in c.assocs || req.gnbId.None? then c
    else
      var gc1 := c.assocs[a].(globalRanNodeId := req.gnbId.value);
      if !Complete(req) then c.(assocs := c.assocs[a := gc1])
      else
        var gc2 := gc1.(taList := gc1.taList + CommonItems(c.plmnList, req.taList.value));
        c.(assocs := c.assocs[a := gc2],
           open := if SetupAccepted(c, a, req) then Some(Pending(a, req.gnbId.value)) else c.open)
  }

  /** The N2 task is inside NG Setup; the context of an association is never erased. */
  predicate Busy(c: Core) {
    c.open.Some? && c.open.value.assoc in c.assocs
  }

  /** The end of an accepted NG Setup: the response, the state, and the record in the statistics. */
  function EndSetup(c: Core): Core {
    if !Busy(c) then c
    else
      var a, g := c.open.value.assoc, c.open.value.gnbId;
      c.(assocs := c.assocs[a := c.assocs[a].(ngState := NgapReady)],
         gnbIds := c.gnbIds[g := a],
         stats := if g in c.stats then c.stats else c.stats[g := c.assocs[a].taList],
         open := None)
  }

  /** NG Setup when nothing comes in between. */
  function NgSetup(c: Core, a: int, req: SetupRequest): Core {
    EndSetup(BeginSetup(c, a, req))
  }

  function NgReset(c: Core, a: int): Core {
    if a in c.assocs then c.(assocs := c.assocs[a := c.assocs[a].(ngState := NgapReseting)]) else c
  }

  /** The context stays under its association id: remove_gnb_context erases from the gNB-id map, and is
      called with the association id. */
  function NgShutdown(c: Core, a: int): Core {
    if a in c.assocs then
      c.(assocs := c.assocs[a := c.assocs[a].(ngState := NgapShutdown)],
         gnbIds := c.gnbIds - {a},
         stats := c.stats - {c.assocs[a].globalRanNodeId})
    else c
  }

  /** get_number_connected_gnbs() is zero. */
  predicate UpdateAllowed(c: Core) {
    c.stats.Keys == {}
  }

  /** The gate of update_amf_configuration. */
  function CheckUpdate(c: Core, json: ConfigJson): Core {
    if UpdateAllowed(c) then c.(update := Some(json)) else c
  }

  function WriteUpdate(c: Core): Core {
    if c.update.None? then c
    else c.(plmnList := if c.update.value.plmnList.Some? then c.update.value.plmnList.value else c.plmnList,
            update := None)
  }

  /** An update when nothing comes in between. */
  function UpdateConfig(c: Core, json: ConfigJson): Core {
    WriteUpdate(CheckUpdate(c, json))
  }

  /** An update has passed the gate and is about to write a list. */
  predicate Writing(c: Core) {
    c.update.Some? && c.update.value.plmnList.Some?
  }

  // ---------------------------------------------------------------- safety of one state

  predicate Live(c: Core, a: int) {
    a in c.assocs && !c.assocs[a].ngState.NgapShutdown?
  }

  function Stored(c: Core, a: int): seq<SNssai>
    requires a in c.assocs
  {
    StoredSlices(c.assocs[a].taList)
  }

  /** Every entry stored for a gNB that is not shut down is configured, for its own PLMN and TA. */
  ghost predicate Safe(c: Core) {
    forall a :: Live(c, a) ==> Backed(c.plmnList, c.assocs[a].taList)
  }

  /** No gNB that is not shut down stores a slice. */
  ghost predicate Quiet(c: Core) {
    forall a :: Live(c, a) ==> Stored(c, a) == []
  }

  /** NG Setup is under way for the association. */
  predicate Opens(c: Core, a: int) {
    Busy(c) && c.open.value.assoc == a
  }

  /** While the configuration may change, no gNB that is not shut down stores a slice, except one whose NG Setup is
      under way: that one is not recorded yet. */
  ghost predicate GateSound(c: Core) {
    UpdateAllowed(c) ==> forall a :: Live(c, a) && !Opens(c, a) ==> Stored(c, a) == []
  }

  lemma NothingStoredIsBacked(cfg: seq<PlmnItem>, items: seq<TaItem>)
    requires StoredSlices(items) == []
    ensures Backed(cfg, items)
  {
    NothingStoredIff(items);
  }

  lemma BackedByNothing(items: seq<TaItem>)
    requires Backed([], items)
    ensures StoredSlices(items) == []
  {
    NothingStoredIff(items);
    forall e: Entry ensures !ConfiguredEntry([], e) {
    }
  }

  lemma QuietIsBacked(c: Core, cfg: seq<PlmnItem>, a: int)
    requires Quiet(c) && Live(c, a)
    ensures Backed(cfg, c.assocs[a].taList)
  {
    NothingStoredIsBacked(cfg, c.assocs[a].taList);
  }

  lemma QuietByEmpty(c: Core)
    requires forall a :: Live(c, a) ==> Backed([], c.assocs[a].taList)
    ensures Quiet(c)
  {
    forall a | Live(c, a) ensures Stored(c, a) == [] {
      BackedByNothing(c.assocs[a].taList);
    }
  }

  /** What a pending update may write leaves the state safe, whatever it is, iff no live gNB stores a slice. */
  lemma WritesSafeIffQuiet(c: Core)
    ensures (forall list :: Safe(WriteUpdate(c.(update := Some(ConfigJson(Some(list), true)))))) <==> Quiet(c)
  {
    if Quiet(c) {
      forall list ensures Safe(WriteUpdate(c.(update := Some(ConfigJson(Some(list), true))))) {
        var c' := WriteUpdate(c.(update := Some(ConfigJson(Some(list), true))));
        forall a | Live(c', a) ensures Backed(list, c'.assocs[a].taList) {
          QuietIsBacked(c, list, a);
        }
      }
    }
    var c' := WriteUpdate(c.(update := Some(ConfigJson(Some([]), true))));
    if Safe(c') {
      assert forall a :: Live(c, a) ==> Live(c', a);
      QuietByEmpty(c);
    }
  }

  /** The gate protects safety against every update that is not interrupted iff nothing is stored while it is open. */
  lemma UpdatesSafeIffGateSound(c: Core)
    requires Safe(c) && c.update.None?
    ensures (forall json :: Safe(UpdateConfig(c, json))) <==> (UpdateAllowed(c) ==> Quiet(c))
  {
    if UpdateAllowed(c) ==> Quiet(c) {
      forall json ensures Safe(UpdateConfig(c, json)) {
        var c' := UpdateConfig(c, json);
        forall a | Live(c', a) ensures Backed(c'.plmnList, c'.assocs[a].taList) {
          assert Live(c, a);
          if UpdateAllowed(c) {
            QuietIsBacked(c, c'.plmnList, a);
          }
        }
      }
    }
    var c' := UpdateConfig(c, ConfigJson(Some([]), true));
    if UpdateAllowed(c) && Safe(c') {
      assert forall a :: Live(c, a) ==> Live(c', a);
      QuietByEmpty(c);
    }
  }

  /** A Shutdown keeps the gate sound iff another gNB stays recorded or no other live gNB stores a slice. */
  lemma ShutdownKeepsGateIff(c: Core, a: int)
    requires GateSound(c) && a in c.assocs && !Busy(c)
    ensures GateSound(NgShutdown(c, a))
       <==> || c.stats.Keys - {c.assocs[a].globalRanNodeId} != {}
            || (forall b :: b != a && Live(c, b) ==> Stored(c, b) == [])
  {
    var c' := NgShutdown(c, a);
    assert c'.stats.Keys == c.stats.Keys - {c.assocs[a].globalRanNodeId};
    assert forall b :: Live(c', b) <==> b != a && Live(c, b);
    assert forall b :: Live(c', b) ==> Stored(c', b) == Stored(c, b);
  }

  lemma BeginAccepted(c: Core, a: int, req: SetupRequest)
    requires SetupAccepted(c, a, req)
    ensures var gc, g := c.assocs[a], req.gnbId.value;
            BeginSetup(c, a, req)
            == c.(assocs := c.assocs[a := gc.(globalRanNodeId := g,
                                              taList := gc.taList + CommonItems(c.plmnList, req.taList.value))],
                  open := Some(Pending(a, g)))
  {
  }

  /** All that an accepted NG Setup writes. */
  lemma SetupWrites(c: Core, a: int, req: SetupRequest)
    requires SetupAccepted(c, a, req)
    ensures var g, list := req.gnbId.value, c.assocs[a].taList + CommonItems(c.plmnList, req.taList.value);
            NgSetup(c, a, req)
            == c.(assocs := c.assocs[a := GnbContext(NgapReady, g, list)], gnbIds := c.gnbIds[g := a],
                  stats := if g in c.stats then c.stats else c.stats[g := list], open := None)
  {
    BeginAccepted(c, a, req);
    var c1 := BeginSetup(c, a, req);
    assert EndSetup(c1).assocs == c.assocs[a := c1.assocs[a].(ngState := NgapReady)];
  }

  lemma SetupList(c: Core, a: int, req: SetupRequest)
    requires SetupAccepted(c, a, req)
    ensures a in NgSetup(c, a, req).assocs
    ensures NgSetup(c, a, req).assocs[a].taList == c.assocs[a].taList + CommonItems(c.plmnList, req.taList.value)
    ensures Live(NgSetup(c, a, req), a) && NgSetup(c, a, req).plmnList == c.plmnList
    ensures forall b :: b != a && Live(NgSetup(c, a, req), b) ==>
              Live(c, b) && NgSetup(c, a, req).assocs[b].taList == c.assocs[b].taList
  {
    SetupWrites(c, a, req);
  }

  /** An accepted NG Setup leaves a safe state iff what the association already stored is configured:
      the stored list is extended, never cleared. */
  lemma SetupSafeIff(c: Core, a: int, req: SetupRequest)
    requires Safe(c) && SetupAccepted(c, a, req)
    ensures Safe(NgSetup(c, a, req)) <==> Backed(c.plmnList, c.assocs[a].taList)
  {
    SetupList(c, a, req);
    CommonItemsAreBacked(c.plmnList, req.taList.value);
    BackedAppend(c.plmnList, c.assocs[a].taList, CommonItems(c.plmnList, req.taList.value));
  }

  // ---------------------------------------------------------------- runs

  datatype Event =
    | Associate(a: int)
    | SetupBegin(a: int, req: SetupRequest)
    | SetupEnd
    | Reset(a: int)
    | Shutdown(a: int)
    | UpdateCheck(json: ConfigJson)
    | UpdateWrite

  /** The thread of the event can take it: the N2 task takes no message inside NG Setup, and the application task none
      inside an update. */
  predicate Taken(c: Core, e: Event) {
    match e
    case Associate(_) => true
    case SetupBegin(_, _) => !Busy(c)
    case SetupEnd => Busy(c)
    case Reset(_) => !Busy(c)
    case Shutdown(_) => !Busy(c)
    case UpdateCheck(_) => c.update.None?
    case UpdateWrite => c.update.Some?
  }

  /** An event that its thread cannot take does not happen. */
  function Step(c: Core, e: Event): Core {
    if !Taken(c, e) then c
    else match e
      case Associate(a) => NewAssociation(c, a)
      case SetupBegin(a, req) => BeginSetup(c, a, req)
      case SetupEnd => EndSetup(c)
      case Reset(a) => NgReset(c, a)
      case Shutdown(a) => NgShutdown(c, a)
      case UpdateCheck(json) => CheckUpdate(c, json)
      case UpdateWrite => WriteUpdate(c)
  }

  function Run(c: Core, es: seq<Event>): Core {
    if es == [] then c else Step(Run(c, es[..|es| - 1]), es[|es| - 1])
  }

  lemma RunNext(c: Core, es: seq<Event>, n: nat)
    requires n < |es|
    ensures Run(c, es[..n + 1]) == Step(Run(c, es[..n]), es[n])
  {
    assert es[..n + 1][..n] == es[..n];
  }

  // ---------------------------------------------------------------- exactly when a run is safe

  /** What has to hold before an event for the state after a safe one to be safe. */
  ghost predicate KeepsSafe(c: Core, e: Event) {
    Taken(c, e) ==>
      match e
      case Associate(a) => a in c.assocs ==> Backed(c.plmnList, c.assocs[a].taList)
      case Reset(a) => a in c.assocs ==> Backed(c.plmnList, c.assocs[a].taList)
      case SetupBegin(_, _) => true
      case SetupEnd => Backed(c.plmnList, c.assocs[c.open.value.assoc].taList)
      case UpdateWrite =>
        Writing(c) ==> forall a :: Live(c, a) ==> Backed(c.update.value.plmnList.value, c.assocs[a].taList)
      case _ => true
  }

  /** NG Setup appends only what is configured at that moment. */
  lemma BeginBacked(c: Core, a: int, req: SetupRequest)
    requires a in c.assocs
    ensures a in BeginSetup(c, a, req).assocs && BeginSetup(c, a, req).plmnList == c.plmnList
    ensures Backed(c.plmnList, BeginSetup(c, a, req).assocs[a].taList) <==> Backed(c.plmnList, c.assocs[a].taList)
  {
    if req.gnbId.Some? && Complete(req) {
      CommonItemsAreBacked(c.plmnList, req.taList.value);
      BackedAppend(c.plmnList, c.assocs[a].taList, CommonItems(c.plmnList, req.taList.value));
    }
  }

  /** One association is live afterwards, with the list it had; the others are as before. */
  lemma ReviveSafeIff(c: Core, c': Core, a: int)
    requires Safe(c) && c'.plmnList == c.plmnList && a in c'.assocs && Live(c', a)
    requires c'.assocs[a].taList == if a in c.assocs then c.assocs[a].taList else []
    requires forall b :: b != a ==>
               (b in c'.assocs <==> b in c.assocs) && (b in c.assocs ==> c'.assocs[b] == c.assocs[b])
    ensures Safe(c') <==> (a in c.assocs ==> Backed(c.plmnList, c.assocs[a].taList))
  {
    assert forall b :: b != a ==> (Live(c', b) <==> Live(c, b));
    assert StoredSlices([]) == [];
    NothingStoredIsBacked(c.plmnList, []);
  }

  lemma BeginSafe(c: Core, a: int, req: SetupRequest)
    requires Safe(c)
    ensures Safe(BeginSetup(c, a, req))
  {
    var c' := BeginSetup(c, a, req);
    forall b | Live(c', b) ensures Backed(c'.plmnList, c'.assocs[b].taList) {
      assert Live(c, b);
      if b == a {
        BeginBacked(c, a, req);
      }
    }
  }

  lemma StepSafeIff(c: Core, e: Event)
    requires Safe(c)
    ensures Safe(Step(c, e)) <==> KeepsSafe(c, e)
  {
    if Taken(c, e) {
      var c' := Step(c, e);
      match e
      case Associate(a) => ReviveSafeIff(c, c', a);
      case Reset(a) => if a in c.assocs { ReviveSafeIff(c, c', a); }
      case SetupBegin(a, req) => BeginSafe(c, a, req);
      case SetupEnd => ReviveSafeIff(c, c', c.open.value.assoc);
      case Shutdown(a) => assert forall b :: Live(c', b) ==> Live(c, b) && c'.assocs[b].taList == c.assocs[b].taList;
      case UpdateCheck(_) => assert forall b :: Live(c', b) <==> Live(c, b);
      case UpdateWrite => assert forall b :: Live(c', b) <==> Live(c, b);
    }
  }

  /** In any run the stored slices are configured all along iff every association that becomes live, and every write of
      a list, finds what is stored configured. */
  lemma RunSafeIff(c: Core, es: seq<Event>)
    requires Safe(c)
    ensures (forall n :: 0 <= n <= |es| ==> Safe(Run(c, es[..n])))
       <==> (forall n :: 0 <= n < |es| ==> KeepsSafe(Run(c, es[..n]), es[n]))
  {
    var good := seq(|es| + 1, n requires 0 <= n <= |es| => Safe(Run(c, es[..n])));
    var met := seq(|es|, n requires 0 <= n < |es| => KeepsSafe(Run(c, es[..n]), es[n]));
    forall n | 0 <= n < |es| ensures Tied(good, met, n) {
      RunNext(c, es, n);
      if good[n] {
        StepSafeIff(Run(c, es[..n]), es[n]);
      }
    }
    AllIff(good, met);
    assert forall n :: 0 <= n <= |es| ==> good[n] == Safe(Run(c, es[..n]));
    assert forall n :: 0 <= n < |es| ==> met[n] == KeepsSafe(Run(c, es[..n]), es[n]);
  }

  // ---------------------------------------------------------------- exactly when the gate protects a run

  /** Safe now; safe from any update that passes the gate; and safe from what an update that has passed it writes. */
  ghost predicate Secure(c: Core) {
    Safe(c) && GateSound(c) && (Writing(c) ==> Quiet(c))
  }

  /** The association may be brought to life: what it stores is configured, and is nothing while an update may come. */
  ghost predicate Revivable(c: Core, a: int) {
    a in c.assocs ==>
      && Backed(c.plmnList, c.assocs[a].taList)
      && ((UpdateAllowed(c) && !Opens(c, a)) || Writing(c) ==> Stored(c, a) == [])
  }

  /** What has to hold before an event for the state after it to be secure. */
  ghost predicate Harmless(c: Core, e: Event) {
    Taken(c, e) ==>
      match e
      case Associate(a) => Revivable(c, a)
      case Reset(a) => Revivable(c, a)
      case SetupBegin(a, req) => SetupAccepted(c, a, req) && Live(c, a) ==> !Writing(c)
      case SetupEnd =>
        var a := c.open.value.assoc;
        Backed(c.plmnList, c.assocs[a].taList) && (Writing(c) ==> Stored(c, a) == [])
      case Shutdown(a) =>
        a in c.assocs ==>
          || c.stats.Keys - {c.assocs[a].globalRanNodeId} != {}
          || (forall b :: b != a && Live(c, b) ==> Stored(c, b) == [])
      case UpdateCheck(json) =>
        UpdateAllowed(c) && json.plmnList.Some? ==> forall a :: Live(c, a) && Opens(c, a) ==> Stored(c, a) == []
      case UpdateWrite => true
  }

  lemma ReviveSecureIff(c: Core, c': Core, a: int)
    requires Secure(c) && c'.plmnList == c.plmnList && c'.stats == c.stats && a in c'.assocs && Live(c', a)
    requires c'.assocs[a].taList == if a in c.assocs then c.assocs[a].taList else []
    requires c'.open == c.open && c'.update == c.update
    requires forall b :: b != a ==>
               (b in c'.assocs <==> b in c.assocs) && (b in c.assocs ==> c'.assocs[b] == c.assocs[b])
    requires c.open.Some? ==> Busy(c)
    ensures Secure(c') <==> Revivable(c, a)
  {
    ReviveSafeIff(c, c', a);
    assert forall b :: b != a ==> (Live(c', b) <==> Live(c, b));
    assert forall b :: Opens(c', b) <==> Opens(c, b);
    assert StoredSlices([]) == [];
  }

  lemma BeginStored(c: Core, a: int, req: SetupRequest)
    requires a in c.assocs
    ensures a in BeginSetup(c, a, req).assocs
    ensures var c' := BeginSetup(c, a, req);
            if SetupAccepted(c, a, req) then Stored(c', a) != [] && Opens(c', a)
            else Stored(c', a) == Stored(c, a) && c'.open == c.open
  {
    if Complete(req) {
      var items := CommonItems(c.plmnList, req.taList.value);
      StoredSlicesAppend(c.assocs[a].taList, items);
      assert Stored(c, a) + [] == Stored(c, a);
    }
  }

  lemma BeginSecureIff(c: Core, a: int, req: SetupRequest)
    requires Secure(c) && c.open.None?
    ensures Secure(BeginSetup(c, a, req)) <==> (SetupAccepted(c, a, req) && Live(c, a) ==> !Writing(c))
  {
    if a in c.assocs {
      BeginSafe(c, a, req);
      BeginStored(c, a, req);
      BeginElsewhere(c, a, req);
    }
  }

  lemma BeginElsewhere(c: Core, a: int, req: SetupRequest)
    requires a in c.assocs
    ensures var c' := BeginSetup(c, a, req);
            && c'.stats == c.stats && c'.update == c.update
            && (forall b :: Live(c', b) <==> Live(c, b))
            && (forall b :: b != a && Live(c', b) ==> Stored(c', b) == Stored(c, b))
  {
  }

  lemma EndSecureIff(c: Core)
    requires Secure(c) && Busy(c)
    ensures Secure(EndSetup(c)) <==> Harmless(c, SetupEnd)
  {
    var c', a := EndSetup(c), c.open.value.assoc;
    ReviveSafeIff(c, c', a);
    assert c.open.value.gnbId in c'.stats.Keys;
    assert forall b :: b != a ==> (Live(c', b) <==> Live(c, b));
    assert Live(c', a) && Stored(c', a) == Stored(c, a);
  }

  lemma ShutdownSecureIff(c: Core, a: int)
    requires Secure(c) && !Busy(c)
    ensures Secure(NgShutdown(c, a)) <==> Harmless(c, Shutdown(a))
  {
    if a in c.assocs {
      ShutdownKeepsGateIff(c, a);
      var c' := NgShutdown(c, a);
      assert forall b :: Live(c', b) ==> Live(c, b) && c'.assocs[b].taList == c.assocs[b].taList;
    }
  }

  lemma CheckSecureIff(c: Core, json: ConfigJson)
    requires Secure(c) && c.update.None?
    ensures Secure(CheckUpdate(c, json)) <==> Harmless(c, UpdateCheck(json))
  {
    var c' := CheckUpdate(c, json);
    assert forall a :: Live(c', a) <==> Live(c, a);
    assert forall a :: Opens(c', a) <==> Opens(c, a);
    assert forall a :: Live(c, a) ==> Stored(c', a) == Stored(c, a);
  }

  lemma WriteIsSecure(c: Core)
    requires Secure(c)
    ensures Secure(WriteUpdate(c))
  {
    var c' := WriteUpdate(c);
    assert forall a :: Opens(c', a) <==> Opens(c, a);
    forall a | Live(c', a) ensures Backed(c'.plmnList, c'.assocs[a].taList) && Stored(c', a) == Stored(c, a) {
      assert Live(c, a);
      if Writing(c) {
        QuietIsBacked(c, c'.plmnList, a);
      }
    }
  }

  /** An open NG Setup is that of an association. */
  ghost predicate Coherent(c: Core) {
    c.open.Some? ==> Busy(c)
  }

  lemma StepCoherent(c: Core, e: Event)
    requires Coherent(c)
    ensures Coherent(Step(c, e))
  {
  }

  /** From a secure state, an event leads to one iff it meets its condition. */
  lemma StepSecureIff(c: Core, e: Event)
    requires Secure(c) && Coherent(c)
    ensures Secure(Step(c, e)) <==> Harmless(c, e)
  {
    if Taken(c, e) {
      match e
      case Associate(a) => ReviveSecureIff(c, NewAssociation(c, a), a);
      case Reset(a) => if a in c.assocs { ReviveSecureIff(c, NgReset(c, a), a); }
      case SetupBegin(a, req) => BeginSecureIff(c, a, req);
      case SetupEnd => EndSecureIff(c);
      case Shutdown(a) => ShutdownSecureIff(c, a);
      case UpdateCheck(json) => CheckSecureIff(c, json);
      case UpdateWrite => WriteIsSecure(c);
    }
  }

  lemma {:induction false} RunCoherent(c: Core, es: seq<Event>)
    requires Coherent(c)
    ensures Coherent(Run(c, es))
  {
    if es != [] {
      RunCoherent(c, es[..|es| - 1]);
      StepCoherent(Run(c, es[..|es| - 1]), es[|es| - 1]);
    }
  }

  /** A run is secure all along iff each of its events meets its condition. */
  lemma RunSecureIff(c: Core, es: seq<Event>)
    requires Secure(c) && Coherent(c)
    ensures (forall n :: 0 <= n <= |es| ==> Secure(Run(c, es[..n])))
       <==> (forall n :: 0 <= n < |es| ==> Harmless(Run(c, es[..n]), es[n]))
  {
    var good := seq(|es| + 1, n requires 0 <= n <= |es| => Secure(Run(c, es[..n])));
    var met := seq(|es|, n requires 0 <= n < |es| => Harmless(Run(c, es[..n]), es[n]));
    forall n | 0 <= n < |es| ensures Tied(good, met, n) {
      RunNext(c, es, n);
      RunCoherent(c, es[..n]);
      if good[n] {
        StepSecureIff(Run(c, es[..n]), es[n]);
      }
    }
    AllIff(good, met);
    assert forall n :: 0 <= n <= |es| ==> good[n] == Secure(Run(c, es[..n]));
    assert forall n :: 0 <= n < |es| ==> met[n] == Harmless(Run(c, es[..n]), es[n]);
  }

  lemma InitIsSecure(plmnList: seq<PlmnItem>)
    ensures Secure(Init(plmnList)) && Coherent(Init(plmnList))
  {
  }

  // ---------------------------------------------------------------- disciplined runs

  /** The gNB id with which the event presents association a, if it does. */
  function NewId(c: Core, e: Event, a: int): set<int> {
    if e.SetupBegin? && Taken(c, e) && e.a == a && a in c.assocs && e.req.gnbId.Some? then {e.req.gnbId.value} else {}
  }

  /** The gNB id with which the event completes NG Setup of association a, if it does. */
  function DoneId(c: Core, e: Event, a: int): set<int> {
    if e.SetupEnd? && Opens(c, a) then {c.open.value.gnbId} else {}
  }

  /** The supported TA list that the event brings from association a. */
  function NewList(c: Core, e: Event, a: int): seq<TaItem> {
    if e.SetupBegin? && Taken(c, e) && e.a == a && e.req.taList.Some? then e.req.taList.value else []
  }

  /** The gNB ids an association has presented in a run. */
  function Presented(c: Core, es: seq<Event>, a: int): set<int> {
    if es == [] then {}
    else Presented(c, es[..|es| - 1], a) + NewId(Run(c, es[..|es| - 1]), es[|es| - 1], a)
  }

  /** The gNB ids with which an association has completed NG Setup. */
  function Accepted(c: Core, es: seq<Event>, a: int): set<int> {
    if es == [] then {}
    else Accepted(c, es[..|es| - 1], a) + DoneId(Run(c, es[..|es| - 1]), es[|es| - 1], a)
  }

  /** The supported TA lists an association has sent in a run. */
  function Sent(c: Core, es: seq<Event>, a: int): seq<TaItem> {
    if es == [] then []
    else Sent(c, es[..|es| - 1], a) + NewList(Run(c, es[..|es| - 1]), es[|es| - 1], a)
  }

  predicate Concerns(e: Event, a: int) {
    match e
    case Associate(b) => b == a
    case SetupBegin(b, _) => b == a
    case Reset(b) => b == a
    case Shutdown(b) => b == a
    case _ => false
  }

  /** The next event uses no association after its Shutdown, and presents no gNB id that is zero or that another
      association which is not shut down has presented. */
  ghost predicate Disciplined(c: Core, es: seq<Event>, e: Event) {
    var now := Run(c, es);
    Taken(now, e) ==>
      && (forall a :: Concerns(e, a) && a in now.assocs ==> Live(now, a))
      && (e.SetupBegin? && e.req.gnbId.Some? ==>
            && e.req.gnbId.value != 0
            && forall b :: b != e.a && Live(now, b) ==> e.req.gnbId.value !in Presented(c, es, b))
  }

  ghost predicate DisciplinedRun(c: Core, es: seq<Event>) {
    forall n :: 0 <= n < |es| ==> Disciplined(c, es[..n], es[n])
  }

  /** An update of the list passes the gate inside an accepted NG Setup, or an accepted NG Setup begins between the gate
      and the write. */
  predicate Raced(c: Core, e: Event) {
    match e
    case UpdateCheck(json) => c.update.None? && UpdateAllowed(c) && json.plmnList.Some? && Busy(c)
    case SetupBegin(a, req) => !Busy(c) && SetupAccepted(c, a, req) && Writing(c)
    case _ => false
  }

  predicate Unraced(c: Core, es: seq<Event>) {
    forall n :: 0 <= n < |es| ==> !Raced(Run(c, es[..n]), es[n])
  }

  /** What holds of one association that is not shut down. */
  ghost predicate Sound(c: Core, es: seq<Event>, a: int) {
    var now := Run(c, es);
    Live(now, a) ==>
      && now.assocs[a].globalRanNodeId in Presented(c, es, a) + {0}
      && Accepted(c, es, a) <= Presented(c, es, a) * now.stats.Keys
      && (Stored(now, a) != [] ==> Accepted(c, es, a) != {} || Opens(now, a))
      && (forall e: Entry :: Holds(now.assocs[a].taList, e) ==> Holds(Sent(c, es, a), e))
  }

  /** The association whose NG Setup is under way is live, presented its id, and stores a slice. */
  ghost predicate OpenSound(c: Core, es: seq<Event>) {
    var now := Run(c, es);
    Coherent(now) &&
    (Busy(now) ==>
       var a := now.open.value.assoc;
       Live(now, a) && now.open.value.gnbId in Presented(c, es, a) && Stored(now, a) != [])
  }

  ghost predicate RunInvariant(c: Core, es: seq<Event>) {
    var now := Run(c, es);
    && OpenSound(c, es)
    && (forall a :: Sound(c, es, a))
    && (forall a :: 0 !in Presented(c, es, a))
    && (forall a :: a !in now.assocs ==> Accepted(c, es, a) == {})
    && (forall a, b :: a != b && Live(now, a) && Live(now, b) ==> Presented(c, es, a) !! Presented(c, es, b))
  }

  lemma Unfold(c: Core, es: seq<Event>, e: Event, a: int)
    ensures Run(c, es + [e]) == Step(Run(c, es), e)
    ensures Presented(c, es + [e], a) == Presented(c, es, a) + NewId(Run(c, es), e, a)
    ensures Accepted(c, es + [e], a) == Accepted(c, es, a) + DoneId(Run(c, es), e, a)
    ensures Sent(c, es + [e], a) == Sent(c, es, a) + NewList(Run(c, es), e, a)
  {
    assert (es + [e])[..|es + [e]| - 1] == es;
  }

  /** What NG Setup adds to the list was offered. */
  lemma BeginOffered(c: Core, a: int, req: SetupRequest, x: Entry)
    requires a in c.assocs
    ensures a in BeginSetup(c, a, req).assocs
    ensures Holds(BeginSetup(c, a, req).assocs[a].taList, x) ==>
              Holds(c.assocs[a].taList, x) || (req.taList.Some? && Holds(req.taList.value, x))
  {
    if Complete(req) {
      var items := CommonItems(c.plmnList, req.taList.value);
      CommonItemsAreBacked(c.plmnList, req.taList.value);
      HoldsAppend(c.assocs[a].taList, items, x);
    }
  }

  lemma BeginKeepsSound(c: Core, es: seq<Event>, e: Event, a: int)
    requires Sound(c, es, a) && (a in Run(c, es).assocs ==> Live(Run(c, es), a))
    requires e.SetupBegin? && e.a == a && Taken(Run(c, es), e) && Coherent(Run(c, es))
    ensures Sound(c, es + [e], a)
  {
    var now := Run(c, es);
    Unfold(c, es, e, a);
    if a in now.assocs {
      BeginStored(now, a, e.req);
      forall x: Entry ensures Holds(Step(now, e).assocs[a].taList, x) ==> Holds(Sent(c, es + [e], a), x) {
        BeginOffered(now, a, e.req, x);
        HoldsAppend(Sent(c, es, a), NewList(now, e, a), x);
      }
    }
  }

  lemma EndKeepsSound(c: Core, es: seq<Event>, e: Event, a: int)
    requires OpenSound(c, es) && Sound(c, es, a) && e.SetupEnd? && Taken(Run(c, es), e)
    ensures Sound(c, es + [e], a)
  {
    Unfold(c, es, e, a);
    assert Sent(c, es, a) + [] == Sent(c, es, a);
  }

  /** An association whose context the event does not change stays sound if its ids stay recorded. */
  lemma CarrySound(c: Core, es: seq<Event>, e: Event, a: int)
    requires Sound(c, es, a) && !(e.SetupBegin? && e.a == a) && !e.SetupEnd?
    requires var now, next := Run(c, es), Step(Run(c, es), e);
             && Live(now, a) && a in next.assocs
             && next.assocs[a].globalRanNodeId == now.assocs[a].globalRanNodeId
             && next.assocs[a].taList == now.assocs[a].taList
             && (Opens(now, a) ==> Opens(next, a))
             && Accepted(c, es, a) <= next.stats.Keys
    ensures Sound(c, es + [e], a)
  {
    Unfold(c, es, e, a);
    assert Sent(c, es, a) + [] == Sent(c, es, a);
  }

  lemma BystanderContext(c: Core, e: Event, a: int)
    requires a in c.assocs && !(e.SetupBegin? && e.a == a) && !e.SetupEnd?
    ensures a in Step(c, e).assocs
    ensures Step(c, e).assocs[a].globalRanNodeId == c.assocs[a].globalRanNodeId
    ensures Step(c, e).assocs[a].taList == c.assocs[a].taList
    ensures Opens(c, a) ==> Opens(Step(c, e), a)
    ensures !e.Shutdown? ==> c.stats.Keys <= Step(c, e).stats.Keys
  {
  }

  lemma ShutdownKeepsSound(c: Core, es: seq<Event>, e: Event, a: int)
    requires e.Shutdown? && e.a != a && Sound(c, es, a) && Sound(c, es, e.a) && Live(Run(c, es), a)
    requires e.a in Run(c, es).assocs ==> Live(Run(c, es), e.a)
    requires e.a in Run(c, es).assocs ==> Presented(c, es, e.a) !! Presented(c, es, a)
    requires 0 !in Presented(c, es, a)
    ensures Sound(c, es + [e], a)
  {
    var now := Run(c, es);
    if e.a in now.assocs {
      assert now.assocs[e.a].globalRanNodeId !in Accepted(c, es, a);
    }
    BystanderContext(now, e, a);
    CarrySound(c, es, e, a);
  }

  /** Only Associate makes an association appear, and it appears with an empty list. */
  lemma FreshIsSound(c: Core, es: seq<Event>, e: Event, a: int)
    requires a !in Run(c, es).assocs && Accepted(c, es, a) == {}
    ensures Sound(c, es + [e], a)
  {
    Unfold(c, es, e, a);
    assert StoredSlices([]) == [];
    NothingStoredIff([]);
  }

  lemma IdleKeepsSound(c: Core, es: seq<Event>, e: Event, a: int)
    requires Sound(c, es, a) && !Taken(Run(c, es), e)
    ensures Sound(c, es + [e], a)
  {
    Unfold(c, es, e, a);
    assert Sent(c, es, a) + [] == Sent(c, es, a);
  }

  lemma OthersKeepSound(c: Core, es: seq<Event>, e: Event, a: int)
    requires RunInvariant(c, es) && Disciplined(c, es, e) && Taken(Run(c, es), e)
    requires !(e.SetupBegin? && e.a == a) && !e.SetupEnd? && a in Run(c, es).assocs
    ensures Sound(c, es + [e], a)
  {
    var now := Run(c, es);
    assert Sound(c, es, a);
    if Live(now, a) {
      if e.Shutdown? {
        assert Concerns(e, e.a) && Sound(c, es, e.a);
        if e.a == a {
          Unfold(c, es, e, a);
        } else {
          ShutdownKeepsSound(c, es, e, a);
        }
      } else {
        BystanderContext(now, e, a);
        CarrySound(c, es, e, a);
      }
    } else {
      StaysDead(now, e, a);
      Unfold(c, es, e, a);
    }
  }

  lemma StaysDead(c: Core, e: Event, a: int)
    requires a in c.assocs && !Live(c, a) && !Concerns(e, a) && !e.SetupEnd?
    ensures !Live(Step(c, e), a)
  {
  }

  lemma SoundStep(c: Core, es: seq<Event>, e: Event, a: int)
    requires RunInvariant(c, es) && Disciplined(c, es, e)
    ensures Sound(c, es + [e], a)
  {
    assert Sound(c, es, a);
    if !Taken(Run(c, es), e) {
      IdleKeepsSound(c, es, e, a);
    } else if a !in Run(c, es).assocs {
      FreshIsSound(c, es, e, a);
    } else if e.SetupBegin? && e.a == a {
      assert Concerns(e, a);
      BeginKeepsSound(c, es, e, a);
    } else if e.SetupEnd? {
      EndKeepsSound(c, es, e, a);
    } else {
      OthersKeepSound(c, es, e, a);
    }
  }

  lemma OpenStep(c: Core, es: seq<Event>, e: Event)
    requires OpenSound(c, es) && Disciplined(c, es, e)
    ensures OpenSound(c, es + [e])
  {
    var now := Run(c, es);
    Unfold(c, es, e, 0);
    StepCoherent(now, e);
    if Taken(now, e) && e.SetupBegin? && e.a in now.assocs {
      assert Concerns(e, e.a);
      Unfold(c, es, e, e.a);
      OpenBegun(now, e.a, e.req);
    } else if Busy(now) {
      Unfold(c, es, e, now.open.value.assoc);
      OpenStays(now, e);
    }
  }

  /** While an NG Setup is under way, its association stays live and keeps its list. */
  lemma OpenStays(c: Core, e: Event)
    requires Busy(c) && Live(c, c.open.value.assoc)
    ensures var a := c.open.value.assoc;
            Busy(Step(c, e)) ==>
              Step(c, e).open == c.open && Live(Step(c, e), a) && Stored(Step(c, e), a) == Stored(c, a)
  {
  }

  lemma OpenBegun(c: Core, a: int, req: SetupRequest)
    requires c.open.None? && Live(c, a)
    ensures var c' := BeginSetup(c, a, req);
            Busy(c') ==>
              && c'.open.value.assoc == a && Live(c', a) && Stored(c', a) != []
              && req.gnbId.Some? && c'.open.value.gnbId == req.gnbId.value
  {
    BeginStored(c, a, req);
    BeginElsewhere(c, a, req);
  }

  lemma IdsStep(c: Core, es: seq<Event>, e: Event, a: int)
    requires 0 !in Presented(c, es, a) && (a !in Run(c, es).assocs ==> Accepted(c, es, a) == {})
    requires Disciplined(c, es, e)
    ensures 0 !in Presented(c, es + [e], a) && (a !in Run(c, es + [e]).assocs ==> Accepted(c, es + [e], a) == {})
  {
    Unfold(c, es, e, a);
  }

  lemma StepKeepsInvariant(c: Core, es: seq<Event>, e: Event)
    requires RunInvariant(c, es) && Disciplined(c, es, e)
    ensures RunInvariant(c, es + [e])
  {
    var next := Run(c, es + [e]);
    OpenStep(c, es, e);
    forall a ensures Sound(c, es + [e], a) {
      SoundStep(c, es, e, a);
    }
    forall a ensures 0 !in Presented(c, es + [e], a) && (a !in next.assocs ==> Accepted(c, es + [e], a) == {}) {
      IdsStep(c, es, e, a);
    }
    forall a, b | a != b && Live(next, a) && Live(next, b)
      ensures Presented(c, es + [e], a) !! Presented(c, es + [e], b)
    {
      PresentedStayDisjoint(c, es, e, a, b);
    }
  }

  lemma LiveOrNothingPresented(c: Core, es: seq<Event>, e: Event, a: int)
    requires OpenSound(c, es) && Disciplined(c, es, e) && Live(Step(Run(c, es), e), a)
    ensures Live(Run(c, es), a) || Presented(c, es, a) == {}
  {
    if a in Run(c, es).assocs {
      assert Taken(Run(c, es), e) && Concerns(e, a) ==> Live(Run(c, es), a);
    } else {
      PresentedOnlyByAssociations(c, es, a);
    }
  }

  lemma PresentedStayDisjoint(c: Core, es: seq<Event>, e: Event, a: int, b: int)
    requires Live(Run(c, es), a) && Live(Run(c, es), b) ==> Presented(c, es, a) !! Presented(c, es, b)
    requires OpenSound(c, es) && Disciplined(c, es, e)
    requires a != b && Live(Run(c, es + [e]), a) && Live(Run(c, es + [e]), b)
    ensures Presented(c, es + [e], a) !! Presented(c, es + [e], b)
  {
    Unfold(c, es, e, a);
    Unfold(c, es, e, b);
    LiveOrNothingPresented(c, es, e, a);
    LiveOrNothingPresented(c, es, e, b);
  }

  lemma {:induction false} PresentedOnlyByAssociations(c: Core, es: seq<Event>, a: int)
    requires a !in Run(c, es).assocs
    ensures Presented(c, es, a) == {} && a !in c.assocs
  {
    if es != [] {
      PresentedOnlyByAssociations(c, es[..|es| - 1], a);
    }
  }

  lemma {:induction false} DisciplinedRunInvariant(plmnList: seq<PlmnItem>, es: seq<Event>)
    requires DisciplinedRun(Init(plmnList), es)
    ensures RunInvariant(Init(plmnList), es)
    decreases |es|
  {
    if es != [] {
      var init := es[..|es| - 1];
      assert es == init + [es[|es| - 1]];
      forall n | 0 <= n < |init| ensures Disciplined(Init(plmnList), init[..n], init[n]) {
        assert init[..n] == es[..n];
      }
      DisciplinedRunInvariant(plmnList, init);
      StepKeepsInvariant(Init(plmnList), init, es[|es| - 1]);
    }
  }

  // ---------------------------------------------------------------- main results

  lemma OtherStaysRecorded(c: Core, es: seq<Event>, a: int, b: int)
    requires RunInvariant(c, es) && a != b && Live(Run(c, es), a) && Live(Run(c, es), b) && Stored(Run(c, es), b) != []
    requires !Busy(Run(c, es))
    ensures Run(c, es).stats.Keys - {Run(c, es).assocs[a].globalRanNodeId} != {}
  {
    var now := Run(c, es);
    assert Sound(c, es, a) && Sound(c, es, b);
    var g := SomeElement(Accepted(c, es, b));
    assert g in now.stats.Keys - {now.assocs[a].globalRanNodeId};
  }

  lemma ShutdownIsHarmless(c: Core, es: seq<Event>, a: int)
    requires RunInvariant(c, es) && Disciplined(c, es, Shutdown(a)) && !Busy(Run(c, es))
    ensures Harmless(Run(c, es), Shutdown(a))
  {
    var now := Run(c, es);
    if a in now.assocs {
      assert Concerns(Shutdown(a), a);
      forall b | b != a && Live(now, b) && Stored(now, b) != []
        ensures now.stats.Keys - {now.assocs[a].globalRanNodeId} != {}
      {
        OtherStaysRecorded(c, es, a, b);
      }
    }
  }

  /** In a disciplined run only a race can do harm. */
  lemma DisciplinedHarmlessIff(c: Core, es: seq<Event>, e: Event)
    requires RunInvariant(c, es) && Disciplined(c, es, e) && Secure(Run(c, es))
    ensures Harmless(Run(c, es), e) <==> !Raced(Run(c, es), e)
  {
    var now := Run(c, es);
    if Taken(now, e) {
      assert forall a :: Concerns(e, a) && a in now.assocs ==> Live(now, a);
      match e
      case Associate(a) => assert Concerns(e, a);
      case Reset(a) => assert Concerns(e, a);
      case SetupBegin(a, req) => assert Concerns(e, a);
      case Shutdown(a) => ShutdownIsHarmless(c, es, a);
      case _ =>
    }
  }

  lemma DisciplinedPrefix(c: Core, es: seq<Event>, n: nat)
    requires DisciplinedRun(c, es) && n <= |es|
    ensures DisciplinedRun(c, es[..n])
  {
    var init := es[..n];
    forall m | 0 <= m < |init| ensures Disciplined(c, init[..m], init[m]) {
      assert init[..m] == es[..m] && init[m] == es[m];
    }
  }

  /** A disciplined run is secure all along iff no update races with an NG Setup. */
  lemma DisciplinedRunSecureIff(plmnList: seq<PlmnItem>, es: seq<Event>)
    requires DisciplinedRun(Init(plmnList), es)
    ensures (forall n :: 0 <= n <= |es| ==> Secure(Run(Init(plmnList), es[..n]))) <==> Unraced(Init(plmnList), es)
  {
    var c := Init(plmnList);
    InitIsSecure(plmnList);
    var good := seq(|es| + 1, n requires 0 <= n <= |es| => Secure(Run(c, es[..n])));
    var met := seq(|es|, n requires 0 <= n < |es| => !Raced(Run(c, es[..n]), es[n]));
    forall n | 0 <= n < |es| ensures Tied(good, met, n) {
      RunNext(c, es, n);
      RunCoherent(c, es[..n]);
      if good[n] {
        DisciplinedPrefix(c, es, n);
        DisciplinedRunInvariant(plmnList, es[..n]);
        StepSecureIff(Run(c, es[..n]), es[n]);
        DisciplinedHarmlessIff(c, es[..n], es[n]);
      }
    }
    AllIff(good, met);
    assert forall n :: 0 <= n <= |es| ==> good[n] == Secure(Run(c, es[..n]));
    assert forall n :: 0 <= n < |es| ==> met[n] == !Raced(Run(c, es[..n]), es[n]);
  }

  /** Every event of a disciplined run without a race meets its condition. */
  lemma DisciplinedRunIsHarmless(plmnList: seq<PlmnItem>, es: seq<Event>, n: nat)
    requires DisciplinedRun(Init(plmnList), es) && Unraced(Init(plmnList), es) && n < |es|
    ensures Harmless(Run(Init(plmnList), es[..n]), es[n])
  {
    DisciplinedRunSecureIff(plmnList, es);
    DisciplinedPrefix(Init(plmnList), es, n);
    DisciplinedRunInvariant(plmnList, es[..n]);
    DisciplinedHarmlessIff(Init(plmnList), es[..n], es[n]);
  }

  /** In every disciplined run without a race each entry stored for a gNB that is not shut down is configured now, for
      the same PLMN and TA, and was offered for them by that gNB; and so is the NSSAI derived from it. */
  lemma StoredSlicesStayConfigured(plmnList: seq<PlmnItem>, es: seq<Event>, a: int)
    requires DisciplinedRun(Init(plmnList), es) && Unraced(Init(plmnList), es)
    requires Live(Run(Init(plmnList), es), a)
    ensures var now := Run(Init(plmnList), es);
            && (forall e: Entry :: Holds(now.assocs[a].taList, e) ==>
                  ConfiguredEntry(now.plmnList, e) && Holds(Sent(Init(plmnList), es, a), e))
            && (forall n :: n in CommonNssai(now.assocs[a].taList) ==>
                  NasServed(now.plmnList, now.assocs[a].taList, n) && NasConfigured(now.plmnList, n))
  {
    var c := Init(plmnList);
    DisciplinedRunSecureIff(plmnList, es);
    assert Secure(Run(c, es[..|es|])) && es[..|es|] == es;
    DisciplinedRunInvariant(plmnList, es);
    assert Sound(c, es, a);
    CommonNssaiServed(Run(c, es).plmnList, Run(c, es).assocs[a].taList);
  }

  predicate Presents(c: Core, e: Event) {
    e.SetupBegin? && Taken(c, e) && e.a in c.assocs && e.req.gnbId.Some?
  }

  /** No association changes its gNB id. */
  ghost predicate KeepsIds(c: Core, es: seq<Event>) {
    forall n :: 0 <= n < |es| && Presents(Run(c, es[..n]), es[n])
            ==> Presented(c, es[..n], es[n].a) <= {es[n].req.gnbId.value}
  }

  /** Every recorded gNB is one that is attached. */
  ghost predicate RecordedAreAttached(c: Core, es: seq<Event>) {
    forall g :: g in Run(c, es).stats ==> exists a :: Live(Run(c, es), a) && g in Accepted(c, es, a)
  }

  /** Only the Shutdown of an association takes it out of the live ones, and that erases the record of its gNB. */
  lemma RecordKeepsLive(c: Core, e: Event, a: int)
    requires Live(c, a) && c.assocs[a].globalRanNodeId in Step(c, e).stats
    ensures Live(Step(c, e), a)
  {
  }

  lemma RecordedStaysAttached(c: Core, es: seq<Event>, e: Event, g: int, a: int)
    requires Sound(c, es, a)
    requires Live(Run(c, es), a) && g in Accepted(c, es, a) && g in Step(Run(c, es), e).stats
    requires Presented(c, es, a) <= {Run(c, es).assocs[a].globalRanNodeId}
    ensures Live(Run(c, es + [e]), a) && g in Accepted(c, es + [e], a)
  {
    Unfold(c, es, e, a);
    assert g in Presented(c, es, a);
    RecordKeepsLive(Run(c, es), e, a);
  }

  lemma NewRecordIsAttached(c: Core, es: seq<Event>, e: Event, g: int)
    requires g in Step(Run(c, es), e).stats && g !in Run(c, es).stats
    ensures Busy(Run(c, es))
    ensures var a := Run(c, es).open.value.assoc; Live(Run(c, es + [e]), a) && g in Accepted(c, es + [e], a)
  {
    NewRecord(Run(c, es), e, g);
    Unfold(c, es, e, Run(c, es).open.value.assoc);
  }

  lemma NewRecord(c: Core, e: Event, g: int)
    requires g in Step(c, e).stats && g !in c.stats
    ensures e.SetupEnd? && Busy(c) && c.open.value.gnbId == g && Live(Step(c, e), c.open.value.assoc)
  {
  }

  lemma StepKeepsRecorded(c: Core, es: seq<Event>, e: Event)
    requires RunInvariant(c, es) && Disciplined(c, es, e) && RecordedAreAttached(c, es)
    requires forall a :: a in Run(c, es).assocs ==> Presented(c, es, a) <= {Run(c, es).assocs[a].globalRanNodeId}
    ensures RecordedAreAttached(c, es + [e])
  {
    Unfold(c, es, e, 0);
    forall g | g in Run(c, es + [e]).stats
      ensures exists a :: Live(Run(c, es + [e]), a) && g in Accepted(c, es + [e], a)
    {
      if g in Run(c, es).stats {
        var a :| Live(Run(c, es), a) && g in Accepted(c, es, a);
        assert Sound(c, es, a);
        RecordedStaysAttached(c, es, e, g, a);
      } else {
        NewRecordIsAttached(c, es, e, g);
      }
    }
  }

  lemma IdStaysCurrent(c: Core, e: Event, a: int, ids: set<int>)
    requires a in Step(c, e).assocs && (if a in c.assocs then ids <= {c.assocs[a].globalRanNodeId} else ids == {})
    requires Presents(c, e) && e.a == a ==> ids <= {e.req.gnbId.value}
    ensures ids + NewId(c, e, a) <= {Step(c, e).assocs[a].globalRanNodeId}
  {
  }

  lemma KeepsIdsBefore(c: Core, es: seq<Event>)
    requires KeepsIds(c, es) && es != []
    ensures KeepsIds(c, es[..|es| - 1])
  {
    var init := es[..|es| - 1];
    forall n | 0 <= n < |init| && Presents(Run(c, init[..n]), init[n])
      ensures Presented(c, init[..n], init[n].a) <= {init[n].req.gnbId.value}
    {
      assert init[..n] == es[..n] && init[n] == es[n];
    }
  }

  lemma {:induction false} IdsStayCurrent(c: Core, es: seq<Event>, a: int)
    requires KeepsIds(c, es) && a in Run(c, es).assocs && c.assocs == map[]
    ensures Presented(c, es, a) <= {Run(c, es).assocs[a].globalRanNodeId}
    decreases |es|
  {
    if es != [] {
      var init, e := es[..|es| - 1], es[|es| - 1];
      KeepsIdsBefore(c, es);
      if a in Run(c, init).assocs {
        IdsStayCurrent(c, init, a);
      } else {
        PresentedOnlyByAssociations(c, init, a);
      }
      IdStaysCurrent(Run(c, init), e, a, Presented(c, init, a));
    }
  }

  lemma {:induction false} RecordedAreAttachedInRun(plmnList: seq<PlmnItem>, es: seq<Event>)
    requires DisciplinedRun(Init(plmnList), es) && KeepsIds(Init(plmnList), es)
    ensures RecordedAreAttached(Init(plmnList), es)
    decreases |es|
  {
    if es != [] {
      var c := Init(plmnList);
      var init, e := es[..|es| - 1], es[|es| - 1];
      assert es == init + [e];
      assert DisciplinedRun(c, init) && KeepsIds(c, init) by {
        assert forall n :: 0 <= n < |init| ==> init[..n] == es[..n] && init[n] == es[n];
      }
      RecordedAreAttachedInRun(plmnList, init);
      DisciplinedRunInvariant(plmnList, init);
      forall a | a in Run(c, init).assocs
        ensures Presented(c, init, a) <= {Run(c, init).assocs[a].globalRanNodeId}
      {
        IdsStayCurrent(c, init, a);
      }
      StepKeepsRecorded(c, init, e);
    }
  }

  lemma AcceptedAreRecorded(c: Core, es: seq<Event>, a: int)
    requires RunInvariant(c, es) && Live(Run(c, es), a)
    ensures Accepted(c, es, a) <= Run(c, es).stats.Keys
  {
    assert Sound(c, es, a);
  }

  /** The configuration may be changed exactly while no gNB is attached. */
  lemma UpdateAllowedIffNoneAttached(plmnList: seq<PlmnItem>, es: seq<Event>)
    requires DisciplinedRun(Init(plmnList), es) && KeepsIds(Init(plmnList), es)
    ensures var c := Init(plmnList);
            UpdateAllowed(Run(c, es)) <==> forall a :: Live(Run(c, es), a) ==> Accepted(c, es, a) == {}
  {
    var c := Init(plmnList);
    var now := Run(c, es);
    DisciplinedRunInvariant(plmnList, es);
    RecordedAreAttachedInRun(plmnList, es);
    if UpdateAllowed(now) {
      forall a | Live(now, a) ensures Accepted(c, es, a) == {} {
        AcceptedAreRecorded(c, es, a);
      }
    } else {
      var g := SomeElement(now.stats.Keys);
      var a :| Live(now, a) && g in Accepted(c, es, a);
    }
  }

  // ---------------------------------------------------------------- what the state of an association says

  /** NG Setup is answered with a setup response iff the association is known, the request has its gNB id, paging DRX
      and list, and gNB and AMF share a slice. */
  lemma SetupAcceptedIff(c: Core, a: int, req: SetupRequest)
    ensures SetupAccepted(c, a, req)
       <==> a in c.assocs && req.gnbId.Some? && req.pagingDrx && req.taList.Some?
            && exists x :: Shared(c.plmnList, req.taList.value, x)
  {
    if req.taList.Some? {
      SetupSucceedsIffShared(c.plmnList, req.taList.value);
    }
  }

  /** One item per matching triple where the request is complete, and nothing where it is not. */
  ghost predicate AddsCommon(c: Core, req: SetupRequest, added: seq<TaItem>) {
    if req.gnbId.Some? && req.pagingDrx && req.taList.Some? then
      exists ts: seq<Triple> ::
        && Pictures(c.plmnList, req.taList.value, ts, added)
        && forall t: Triple :: t in ts <==> Matching(c.plmnList, req.taList.value, t)
    else added == []
  }

  lemma BeginAdds(c: Core, a: int, req: SetupRequest) returns (added: seq<TaItem>)
    requires a in c.assocs
    ensures AddsCommon(c, req, added) && BeginSetup(c, a, req).assocs[a].taList == c.assocs[a].taList + added
  {
    added := [];
    if Complete(req) {
      added := CommonItems(c.plmnList, req.taList.value);
      OneItemPerMatchingTriple(c.plmnList, req.taList.value);
    } else {
      assert c.assocs[a].taList + [] == c.assocs[a].taList;
    }
  }

  /** What the first part of NG Setup writes, whatever comes of it: the gNB id when it is there, and the common
      items. */
  lemma BeginWrites(c: Core, a: int, req: SetupRequest)
    requires a in c.assocs
    ensures var c' := BeginSetup(c, a, req);
            && c'.assocs.Keys == c.assocs.Keys && c'.stats == c.stats && c'.gnbIds == c.gnbIds
            && (forall b :: b in c.assocs && b != a ==> c'.assocs[b] == c.assocs[b])
            && c'.assocs[a].ngState == c.assocs[a].ngState
            && c'.assocs[a].globalRanNodeId
               == (if req.gnbId.Some? then req.gnbId.value else c.assocs[a].globalRanNodeId)
            && exists added: seq<TaItem> ::
                 AddsCommon(c, req, added) && c'.assocs[a].taList == c.assocs[a].taList + added
  {
    var added := BeginAdds(c, a, req);
  }

  /** The state that the event leaves association a in, if it is an event of a. */
  function LeftIn(c: Core, e: Event, a: int): Option<NgState> {
    if e == Associate(a) then Some(NgapInit)
    else if e == SetupEnd && Opens(c, a) then Some(NgapReady)
    else if e == Reset(a) && !Busy(c) && a in c.assocs then Some(NgapReseting)
    else if e == Shutdown(a) && !Busy(c) && a in c.assocs then Some(NgapShutdown)
    else None
  }

  /** In every run the state of an association is what the last event that leaves it in some state left it in. */
  lemma {:induction false} StateIsLastLeftIn(plmnList: seq<PlmnItem>, es: seq<Event>, a: int, n: nat, state: NgState)
    requires n < |es| && LeftIn(Run(Init(plmnList), es[..n]), es[n], a) == Some(state)
    requires forall m :: n < m < |es| ==> LeftIn(Run(Init(plmnList), es[..m]), es[m], a) == None
    ensures a in Run(Init(plmnList), es).assocs && Run(Init(plmnList), es).assocs[a].ngState == state
  {
    var c, last := Init(plmnList), |es| - 1;
    RunNext(c, es, last);
    assert es[..last + 1] == es;
    if n == last {
      LeavesState(Run(c, es[..last]), es[last], a);
    } else {
      var init := es[..last];
      forall m | n < m < |init| ensures LeftIn(Run(c, init[..m]), init[m], a) == None {
        assert init[..m] == es[..m] && init[m] == es[m];
      }
      assert init[..n] == es[..n] && init[n] == es[n];
      StateIsLastLeftIn(plmnList, init, a, n, state);
      LeavesState(Run(c, init), es[last], a);
    }
  }

  lemma LeavesState(c: Core, e: Event, a: int)
    ensures LeftIn(c, e, a).Some? ==> a in Step(c, e).assocs && Step(c, e).assocs[a].ngState == LeftIn(c, e, a).value
    ensures LeftIn(c, e, a).None? && a in c.assocs ==>
              a in Step(c, e).assocs && Step(c, e).assocs[a].ngState == c.assocs[a].ngState
  {
  }

  /** The gNB id leads to the association whose NG Setup with it was the last to end, unless a Shutdown since erased the
      key because the id was its association id. */
  lemma {:induction false} GnbIdLeadsToLast(plmnList: seq<PlmnItem>, es: seq<Event>, g: int, n: nat, a: int)
    requires n < |es| && EndsAs(Run(Init(plmnList), es[..n]), es[n], a, g)
    requires forall m :: n < m < |es| ==>
               (forall b :: !EndsAs(Run(Init(plmnList), es[..m]), es[m], b, g)) && es[m] != Shutdown(g)
    ensures g in Run(Init(plmnList), es).gnbIds && Run(Init(plmnList), es).gnbIds[g] == a
  {
    var c, last := Init(plmnList), |es| - 1;
    RunNext(c, es, last);
    assert es[..last + 1] == es;
    if n < last {
      var init := es[..last];
      forall m | n < m < |init|
        ensures (forall b :: !EndsAs(Run(c, init[..m]), init[m], b, g)) && init[m] != Shutdown(g)
      {
        assert init[..m] == es[..m] && init[m] == es[m];
      }
      assert init[..n] == es[..n] && init[n] == es[n];
      GnbIdLeadsToLast(plmnList, init, g, n, a);
      GnbIdStays(Run(c, init), es[last], g);
    }
  }

  ghost predicate EndsAs(c: Core, e: Event, a: int, g: int) {
    e == SetupEnd && Opens(c, a) && c.open.value.gnbId == g
  }

  lemma GnbIdStays(c: Core, e: Event, g: int)
    requires g in c.gnbIds && (forall b :: !EndsAs(c, e, b, g)) && e != Shutdown(g)
    ensures g in Step(c, e).gnbIds && Step(c, e).gnbIds[g] == c.gnbIds[g]
  {
    if e.SetupEnd? && Busy(c) {
      assert !EndsAs(c, e, c.open.value.assoc, g);
    }
  }

  // ---------------------------------------------------------------- a race is enough

  /** The one gNB, with a slice stored, against an empty configuration. */
  lemma EmptiedIsUnsafe(c: Core, a: int)
    requires Live(c, a) && Stored(c, a) != [] && c.plmnList == []
    ensures !Safe(c)
  {
    if Backed([], c.assocs[a].taList) {
      BackedByNothing(c.assocs[a].taList);
    }
  }

  const EMPTY_CONFIG := ConfigJson(Some([]), true)

  lemma FiveSteps(c: Core, es: seq<Event>)
    requires |es| == 5
    ensures Run(c, es) == Step(Step(Step(Step(Step(c, es[0]), es[1]), es[2]), es[3]), es[4])
  {
    FirstSteps(c, es);
    RunNext(c, es, 3);
    RunNext(c, es, 4);
    assert es[..5] == es;
  }

  lemma FirstSteps(c: Core, es: seq<Event>)
    requires |es| >= 3
    ensures Run(c, es[..3]) == Step(Step(Step(c, es[0]), es[1]), es[2])
  {
    RunNext(c, es, 0);
    RunNext(c, es, 1);
    RunNext(c, es, 2);
  }

  /** One gNB on a fresh association, with an id that is not zero. */
  lemma OneGnbIsDisciplined(c: Core, a: int, g: uint32, list: seq<TaItem>, es: seq<Event>)
    requires g != 0 && c.assocs == map[]
    requires forall n :: 0 <= n < |es| ==>
               es[n] in {Associate(a), SetupBegin(a, SetupRequest(Some(g), true, Some(list))), SetupEnd,
                         UpdateCheck(EMPTY_CONFIG), UpdateWrite}
    ensures DisciplinedRun(c, es)
  {
    forall n | 0 <= n < |es| ensures Disciplined(c, es[..n], es[n]) {
      OnlyOneAssociation(c, a, es, n);
    }
  }

  lemma {:induction false} OnlyOneAssociation(c: Core, a: int, es: seq<Event>, n: nat)
    requires c.assocs == map[] && n <= |es|
    requires forall m :: 0 <= m < |es| ==>
               (es[m].Associate? || es[m].SetupBegin? ==> es[m].a == a) && !es[m].Shutdown? && !es[m].Reset?
    ensures forall b :: b in Run(c, es[..n]).assocs ==> b == a && Live(Run(c, es[..n]), a)
  {
    if n > 0 {
      OnlyOneAssociation(c, a, es, n - 1);
      RunNext(c, es, n - 1);
    }
  }

  /** What both races leave: the gNB is attached and recorded, and its slices are not configured. */
  ghost predicate AttachedUnconfigured(c: Core, a: int, g: int) {
    && a in c.assocs && c.assocs[a].ngState == NgapReady && g in c.stats
    && Stored(c, a) != [] && c.plmnList == [] && !Safe(c)
  }

  lemma FirstBegin(c: Core, cfg: seq<PlmnItem>, a: int, g: uint32, list: seq<TaItem>, x: SNssai) returns (c': Core)
    requires Shared(cfg, list, x) && c.plmnList == cfg && c.open.None? && c.stats == map[]
    requires c.assocs == map[a := GnbContext(NgapInit, 0, [])]
    ensures c' == Step(c, SetupBegin(a, SetupRequest(Some(g), true, Some(list))))
    ensures c' == c.(assocs := map[a := GnbContext(NgapInit, g, CommonItems(cfg, list))], open := Some(Pending(a, g)))
    ensures Stored(c', a) != []
  {
    var req := SetupRequest(Some(g), true, Some(list));
    var items := CommonItems(cfg, list);
    FirstAccepted(c, a, req, x);
    BeginAccepted(c, a, req);
    c' := Step(c, SetupBegin(a, req));
    assert [] + items == items;
    assert c.assocs[a := GnbContext(NgapInit, g, items)] == map[a := GnbContext(NgapInit, g, items)];
  }

  lemma FirstAccepted(c: Core, a: int, req: SetupRequest, x: SNssai)
    requires a in c.assocs && Complete(req) && Shared(c.plmnList, req.taList.value, x) && c.open.None?
    ensures SetupAccepted(c, a, req) && Step(c, SetupBegin(a, req)) == BeginSetup(c, a, req)
  {
    StoredIffShared(c.plmnList, req.taList.value, x);
  }

  /** An update inside NG Setup: it passes the gate, because the gNB is recorded only at the end. */
  lemma UpdateInsideSetupBreaksSafety(cfg: seq<PlmnItem>, a: int, g: uint32, list: seq<TaItem>, x: SNssai)
    requires Shared(cfg, list, x) && g != 0
    ensures var es := [Associate(a), SetupBegin(a, SetupRequest(Some(g), true, Some(list))),
                       UpdateCheck(EMPTY_CONFIG), UpdateWrite, SetupEnd];
            DisciplinedRun(Init(cfg), es) && AttachedUnconfigured(Run(Init(cfg), es), a, g)
  {
    var c := Init(cfg);
    var begin := SetupBegin(a, SetupRequest(Some(g), true, Some(list)));
    var es := [Associate(a), begin, UpdateCheck(EMPTY_CONFIG), UpdateWrite, SetupEnd];
    OneGnbIsDisciplined(c, a, g, list, es);
    FiveSteps(c, es);
    var c2 := FirstBegin(NewAssociation(c, a), cfg, a, g, list, x);
    var c4 := Step(Step(c2, UpdateCheck(EMPTY_CONFIG)), UpdateWrite);
    assert c4 == c2.(plmnList := []);
    assert Stored(EndSetup(c4), a) == Stored(c2, a);
    EmptiedIsUnsafe(EndSetup(c4), a);
  }

  /** An NG Setup inside an update: it begins and ends between the gate and the write. */
  lemma SetupInsideUpdateBreaksSafety(cfg: seq<PlmnItem>, a: int, g: uint32, list: seq<TaItem>, x: SNssai)
    requires Shared(cfg, list, x) && g != 0
    ensures var es := [Associate(a), UpdateCheck(EMPTY_CONFIG),
                       SetupBegin(a, SetupRequest(Some(g), true, Some(list))), SetupEnd, UpdateWrite];
            DisciplinedRun(Init(cfg), es) && AttachedUnconfigured(Run(Init(cfg), es), a, g)
  {
    var c := Init(cfg);
    var begin := SetupBegin(a, SetupRequest(Some(g), true, Some(list)));
    var es := [Associate(a), UpdateCheck(EMPTY_CONFIG), begin, SetupEnd, UpdateWrite];
    OneGnbIsDisciplined(c, a, g, list, es);
    FiveSteps(c, es);
    var c1 := Step(NewAssociation(c, a), UpdateCheck(EMPTY_CONFIG));
    var c3 := FirstBegin(c1, cfg, a, g, list, x);
    EndedAndWritten(c3, a, g);
  }

  lemma EndedAndWritten(c: Core, a: int, g: uint32)
    requires c.open == Some(Pending(a, g)) && a in c.assocs && Stored(c, a) != [] && c.update == Some(EMPTY_CONFIG)
    ensures Taken(c, SetupEnd) && Taken(EndSetup(c), UpdateWrite)
    ensures AttachedUnconfigured(WriteUpdate(EndSetup(c)), a, g)
  {
    var c' := WriteUpdate(EndSetup(c));
    assert c'.plmnList == [] && Stored(c', a) == Stored(c, a);
    EmptiedIsUnsafe(c', a);
  }

  // ---------------------------------------------------------------- the discipline is needed

  /** An attached gNB that stores a slice, none recorded: an empty configuration makes the state unsafe. */
  lemma UnlockedIsUnsafe(c: Core, a: int)
    requires Live(c, a) && Stored(c, a) != [] && c.stats.Keys == {}
    ensures !Safe(UpdateConfig(c, ConfigJson(Some([]), true)))
  {
    var c' := UpdateConfig(c, ConfigJson(Some([]), true));
    assert UpdateAllowed(c) && Live(c', a);
    if Backed([], c.assocs[a].taList) {
      BackedByNothing(c.assocs[a].taList);
    }
  }

  /** A complete NG Setup adds what is common. */
  lemma SetupStores(c: Core, a: int, req: SetupRequest)
    requires SetupAccepted(c, a, req)
    ensures a in NgSetup(c, a, req).assocs
    ensures Stored(NgSetup(c, a, req), a) == Stored(c, a) + StoredSlices(CommonItems(c.plmnList, req.taList.value))
  {
    SetupWrites(c, a, req);
    StoredSlicesAppend(c.assocs[a].taList, CommonItems(c.plmnList, req.taList.value));
  }

  lemma SetupRecords(c: Core, a: int, req: SetupRequest)
    requires SetupAccepted(c, a, req)
    ensures var c', g := NgSetup(c, a, req), req.gnbId.value;
            && c'.assocs.Keys == c.assocs.Keys && c'.assocs[a].globalRanNodeId == g && Live(c', a)
            && c'.stats.Keys == c.stats.Keys + {g}
  {
    SetupWrites(c, a, req);
  }

  lemma AttachFirst(cfg: seq<PlmnItem>, list: seq<TaItem>, g: uint32, x: SNssai) returns (c1: Core)
    requires Shared(cfg, list, x)
    ensures c1 == NgSetup(NewAssociation(Init(cfg), 1), 1, SetupRequest(Some(g), true, Some(list)))
    ensures Live(c1, 1) && x in Stored(c1, 1) && c1.assocs.Keys == {1} && c1.stats.Keys == {g}
    ensures c1.plmnList == cfg && c1.assocs[1].globalRanNodeId == g
  {
    var req := SetupRequest(Some(g), true, Some(list));
    var c0 := NewAssociation(Init(cfg), 1);
    assert c0 == Init(cfg).(assocs := map[1 := GnbContext(NgapInit, 0, [])]);
    StoredIffShared(cfg, list, x);
    SetupStores(c0, 1, req);
    SetupRecords(c0, 1, req);
    SetupWrites(c0, 1, req);
    c1 := NgSetup(c0, 1, req);
  }

  /** Two associations with one gNB id: when one shuts down, the configuration can change under the other. */
  lemma SharedGnbIdBreaksSafety(cfg: seq<PlmnItem>, list: seq<TaItem>, g: uint32, x: SNssai)
    requires Shared(cfg, list, x)
    ensures var req := SetupRequest(Some(g), true, Some(list));
            var c1 := NgSetup(NewAssociation(Init(cfg), 1), 1, req);
            var c2 := NgSetup(NewAssociation(c1, 2), 2, req);
            !Safe(UpdateConfig(NgShutdown(c2, 2), ConfigJson(Some([]), true)))
  {
    var c1 := AttachFirst(cfg, list, g, x);
    var c2 := NgSetup(NewAssociation(c1, 2), 2, SetupRequest(Some(g), true, Some(list)));
    assert c2.stats.Keys == {g} && c2.assocs[2].globalRanNodeId == g;
    assert Stored(NgShutdown(c2, 2), 1) == Stored(c1, 1);
    UnlockedIsUnsafe(NgShutdown(c2, 2), 1);
  }

  /** A gNB with id zero loses its record when an association that never set up is shut down. */
  lemma GnbIdZeroBreaksSafety(cfg: seq<PlmnItem>, list: seq<TaItem>, x: SNssai)
    requires Shared(cfg, list, x)
    ensures var c1 := NgSetup(NewAssociation(Init(cfg), 1), 1, SetupRequest(Some(0), true, Some(list)));
            !Safe(UpdateConfig(NgShutdown(NewAssociation(c1, 2), 2), ConfigJson(Some([]), true)))
  {
    var c1 := AttachFirst(cfg, list, 0, x);
    var c2 := NgShutdown(NewAssociation(c1, 2), 2);
    assert c2.stats.Keys == {};
    UnlockedIsUnsafe(c2, 1);
  }

  /** An association id used again after Shutdown brings back the slices stored before it: with a single gNB and
      one gNB id a slice that is no longer configured is stored for the attached gNB. */
  lemma ReuseAfterShutdownBreaksSafety(cfg: seq<PlmnItem>, list: seq<TaItem>, cfg2: seq<PlmnItem>,
                                       list2: seq<TaItem>, g: uint32, x: SNssai, y: SNssai)
    requires Shared(cfg, list, x) && Shared(cfg2, list2, y) && !Configured(cfg2, x)
    ensures var c1 := NgSetup(NewAssociation(Init(cfg), 1), 1, SetupRequest(Some(g), true, Some(list)));
            var c2 := UpdateConfig(NgShutdown(c1, 1), ConfigJson(Some(cfg2), true));
            var c3 := NgSetup(NewAssociation(c2, 1), 1, SetupRequest(Some(g), true, Some(list2)));
            c3.assocs[1].ngState == NgapReady && !Safe(c3)
  {
    var c1 := AttachFirst(cfg, list, g, x);
    assert c1.assocs[1].globalRanNodeId == g && NgShutdown(c1, 1).stats.Keys == {};
    assert UpdateAllowed(NgShutdown(c1, 1));
    var c2 := UpdateConfig(NgShutdown(c1, 1), ConfigJson(Some(cfg2), true));
    var req2 := SetupRequest(Some(g), true, Some(list2));
    StoredIffShared(cfg2, list2, y);
    SetupStores(NewAssociation(c2, 1), 1, req2);
    var c3 := NgSetup(NewAssociation(c2, 1), 1, req2);
    assert Live(c3, 1) && x in Stored(c3, 1);
    if Backed(cfg2, c3.assocs[1].taList) {
      BackedSlicesAreConfigured(cfg2, c3.assocs[1].taList);
    }
  }

  /** A gNB that changes its id leaves its old record behind, and the configuration stays locked with no gNB. */
  lemma ChangedIdLocksConfiguration(cfg: seq<PlmnItem>, list: seq<TaItem>, g: uint32, h: uint32, x: SNssai)
    requires Shared(cfg, list, x) && g != h
    ensures var c1 := NgSetup(NewAssociation(Init(cfg), 1), 1, SetupRequest(Some(g), true, Some(list)));
            var c2 := NgShutdown(NgSetup(c1, 1, SetupRequest(Some(h), true, Some(list))), 1);
            (forall a :: !Live(c2, a)) && !UpdateAllowed(c2)
  {
    var c1 := AttachFirst(cfg, list, g, x);
    StoredIffShared(cfg, list, x);
    SetupRecords(c1, 1, SetupRequest(Some(h), true, Some(list)));
  }

  /** After a Shutdown the gNB can still be found by its id, unless the id equals the association id; and the gNB
      whose id equals the association id can no longer be found. */
  lemma ShutdownForgetsWrongGnb(c: Core, a: int, g: int)
    requires a in c.assocs && g in c.gnbIds
    ensures g in NgShutdown(c, a).gnbIds <==> g != a
    ensures g != a ==> NgShutdown(c, a).gnbIds[g] == c.gnbIds[g]
  {
  }
}
