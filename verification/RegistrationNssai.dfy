/** Slices at registration: whether this AMF can serve the UE (check_subscribed_nssai), and the Allowed and Rejected
    NSSAI of the Registration Accept. */
module RegistrationNssai {
  import opened Numerals
  import opened Slices
  import opened N2Handlers
  import N2Runs

  // ---------------------------------------------------------------- check_subscribed_nssai

  /** A subscribed slice as the UDM sends it (model::Snssai). */
  datatype Subscribed = Subscribed(sst: int32, sd: string)

  datatype Tai = Tai(mcc: string, mnc: string, tac: uint32)

  predicate Wants(r: NasSlice, n: Subscribed) {
    r.sst == n.sst && SdValue(n.sd) == ToUint32(r.sd)
  }

  predicate InPlmn(tai: Tai, p: PlmnItem) {
    tai.mcc == p.mcc && tai.mnc == p.mnc && tai.tac == p.tac
  }

  ghost predicate Served(p: PlmnItem, n: Subscribed) {
    exists s: Slice :: s in p.slices && s.sst == n.sst && s.sd == SdValue(n.sd)
  }

  ghost predicate WantedBy(requested: seq<NasSlice>, n: Subscribed) {
    exists r: NasSlice :: r in requested && Wants(r, n)
  }

  /** Some requested slice is subscribed. */
  ghost predicate AnyCommon(requested: seq<NasSlice>, defaults: seq<Subscribed>, others: seq<Subscribed>) {
    exists n: Subscribed :: n in defaults + others && WantedBy(requested, n)
  }

  /** One configured PLMN can serve the UE: all slices both requested and subscribed, or all default slices when
      there is none. */
  ghost predicate Serves(p: PlmnItem, requested: seq<NasSlice>, defaults: seq<Subscribed>, others: seq<Subscribed>) {
    if AnyCommon(requested, defaults, others)
    then forall n: Subscribed :: n in defaults + others && WantedBy(requested, n) ==> Served(p, n)
    else forall n: Subscribed :: n in defaults ==> Served(p, n)
  }

  /** The last configured PLMN that matches the TAI decides; without one the answer is no. */
  ghost predicate CanServe(tai: Tai, cfg: seq<PlmnItem>, requested: seq<NasSlice>, defaults: seq<Subscribed>,
                           others: seq<Subscribed>) {
    exists i :: 0 <= i < |cfg| && InPlmn(tai, cfg[i]) && (forall j :: i < j < |cfg| ==> !InPlmn(tai, cfg[j]))
                && Serves(cfg[i], requested, defaults, others)
  }

  /** The first subscribed slice of a list that is wanted, if any. */
  method FirstWanted(r: NasSlice, list: seq<Subscribed>) returns (found: Option<Subscribed>)
    ensures found.Some? ==> found.value in list && Wants(r, found.value)
    ensures found.None? ==> forall n: Subscribed :: n in list ==> !Wants(r, n)
  {
    for i := 0 to |list|
      invariant forall j :: 0 <= j < i ==> !Wants(r, list[j])
    {
      if r.sst == list[i].sst {
        var sd := SdValue(list[i].sd);
        if sd == ToUint32(r.sd) {
          return Some(list[i]);
        }
      }
    }
    found := None;
  }

  ghost predicate SameAs(m: Subscribed, n: Subscribed) {
    m.sst == n.sst && SdValue(m.sd) == SdValue(n.sd)
  }

  ghost predicate StoodFor(common: seq<Subscribed>, n: Subscribed) {
    exists m: Subscribed :: m in common && SameAs(m, n)
  }

  ghost predicate OnlyWanted(common: seq<Subscribed>, requested: seq<NasSlice>, subs: seq<Subscribed>) {
    forall m: Subscribed :: m in common ==> m in subs && WantedBy(requested, m)
  }

  ghost predicate AllWanted(common: seq<Subscribed>, requested: seq<NasSlice>, subs: seq<Subscribed>) {
    forall n: Subscribed :: n in subs && WantedBy(requested, n) ==> StoodFor(common, n)
  }

  lemma OnlyWantedMore(common: seq<Subscribed>, done: seq<NasSlice>, r: NasSlice, more: seq<Subscribed>,
                       subs: seq<Subscribed>)
    requires OnlyWanted(common, done, subs)
    requires forall m: Subscribed :: m in more ==> m in subs && Wants(r, m)
    ensures OnlyWanted(common + more, done + [r], subs)
  {
    var all := done + [r];
    forall m: Subscribed | m in common + more ensures m in subs && WantedBy(all, m) {
      if m in common {
        var r0: NasSlice :| r0 in done && Wants(r0, m);
        assert r0 in all;
      } else {
        assert r in all;
      }
    }
  }

  /** What one requested slice wants is one slice, so one of its matches stands for all. */
  lemma AllWantedMore(common: seq<Subscribed>, done: seq<NasSlice>, r: NasSlice, more: seq<Subscribed>,
                      subs: seq<Subscribed>)
    requires AllWanted(common, done, subs)
    requires forall m: Subscribed :: m in more ==> Wants(r, m)
    requires forall n: Subscribed :: n in subs && Wants(r, n) ==> more != []
    ensures AllWanted(common + more, done + [r], subs)
  {
    var all := done + [r];
    forall n: Subscribed | n in subs && WantedBy(all, n) ensures StoodFor(common + more, n) {
      if Wants(r, n) {
        assert more[0] in more && more[0] in common + more && SameAs(more[0], n);
      } else {
        var r0: NasSlice :| r0 in all && Wants(r0, n);
        assert r0 in done;
        assert WantedBy(done, n);
        var m: Subscribed :| m in common && SameAs(m, n);
        assert m in common + more;
      }
    }
  }

  /** What one requested slice adds: the first of the defaults and the first of the others that it wants. */
  method WantedOf(r: NasSlice, defaults: seq<Subscribed>, others: seq<Subscribed>) returns (more: seq<Subscribed>)
    ensures forall m: Subscribed :: m in more ==> m in defaults + others && Wants(r, m)
    ensures forall n: Subscribed :: n in defaults + others && Wants(r, n) ==> more != []
  {
    more := [];
    var default := FirstWanted(r, defaults);
    if default.Some? {
      more := more + [default.value];
    }
    var other := FirstWanted(r, others);
    if other.Some? {
      more := more + [other.value];
    }
  }

  /** The slices both requested and subscribed. */
  method CommonSubscribed(requested: seq<NasSlice>, defaults: seq<Subscribed>, others: seq<Subscribed>)
    returns (common: seq<Subscribed>)
    ensures OnlyWanted(common, requested, defaults + others) && AllWanted(common, requested, defaults + others)
  {
    common := [];
    ghost var subs := defaults + others;
    for i := 0 to |requested|
      invariant OnlyWanted(common, requested[..i], subs) && AllWanted(common, requested[..i], subs)
    {
      var more := WantedOf(requested[i], defaults, others);
      OnlyWantedMore(common, requested[..i], requested[i], more, subs);
      AllWantedMore(common, requested[..i], requested[i], more, subs);
      assert requested[..i + 1] == requested[..i] + [requested[i]];
      common := common + more;
    }
    assert requested[..|requested|] == requested;
  }

  method IsServed(p: PlmnItem, n: Subscribed) returns (found: bool)
    ensures found <==> Served(p, n)
  {
    found := false;
    for i := 0 to |p.slices|
      invariant forall j :: 0 <= j < i ==> !(p.slices[j].sst == n.sst && p.slices[j].sd == SdValue(n.sd))
    {
      if p.slices[i].sst == n.sst {
        var sd := SdValue(n.sd);
        if sd == p.slices[i].sd {
          assert p.slices[i] in p.slices;
          return true;
        }
      }
    }
  }

  method AllServed(p: PlmnItem, list: seq<Subscribed>) returns (ok: bool)
    ensures ok <==> forall n: Subscribed :: n in list ==> Served(p, n)
  {
    ok := true;
    for i := 0 to |list|
      invariant forall j :: 0 <= j < i ==> Served(p, list[j])
    {
      var found := IsServed(p, list[i]);
      if !found {
        assert list[i] in list;
        return false;
      }
    }
  }

  lemma ServedAlike(p: PlmnItem, m: Subscribed, n: Subscribed)
    requires SameAs(m, n)
    ensures Served(p, m) <==> Served(p, n)
  {
  }

  lemma CommonIffAny(common: seq<Subscribed>, requested: seq<NasSlice>, subs: seq<Subscribed>)
    requires OnlyWanted(common, requested, subs) && AllWanted(common, requested, subs)
    ensures common != [] <==> exists n: Subscribed :: n in subs && WantedBy(requested, n)
  {
    if common != [] {
      assert common[0] in common;
    }
    if n: Subscribed :| n in subs && WantedBy(requested, n) {
      assert StoodFor(common, n);
    }
  }

  /** All slices that are both requested and subscribed are served iff those of the common list are. */
  lemma ServesByCommon(p: PlmnItem, common: seq<Subscribed>, requested: seq<NasSlice>, subs: seq<Subscribed>)
    requires OnlyWanted(common, requested, subs) && AllWanted(common, requested, subs)
    ensures (forall n: Subscribed :: n in common ==> Served(p, n))
       <==> forall n: Subscribed :: n in subs && WantedBy(requested, n) ==> Served(p, n)
  {
    if forall n: Subscribed :: n in common ==> Served(p, n) {
      forall n: Subscribed | n in subs && WantedBy(requested, n) ensures Served(p, n) {
        assert StoodFor(common, n);
        var m: Subscribed :| m in common && SameAs(m, n);
        ServedAlike(p, m, n);
      }
    }
  }

  /** One round of the loop over the configured PLMNs that match. */
  method PlmnServes(p: PlmnItem, requested: seq<NasSlice>, defaults: seq<Subscribed>, others: seq<Subscribed>)
    returns (ok: bool)
    ensures ok <==> Serves(p, requested, defaults, others)
  {
    var common := CommonSubscribed(requested, defaults, others);
    CommonIffAny(common, requested, defaults + others);
    ServesByCommon(p, common, requested, defaults + others);
    assert |requested| == 0 ==> !AnyCommon(requested, defaults, others);
    if |requested| == 0 || |common| == 0 {
      ok := AllServed(p, defaults);
    } else {
      ok := AllServed(p, common);
    }
  }

  /** check_subscribed_nssai; `tai` is that of the UE context, if there is one. */
  method CheckSubscribedNssai(tai: Option<Tai>, cfg: seq<PlmnItem>, requested: seq<NasSlice>,
                              defaults: seq<Subscribed>, others: seq<Subscribed>) returns (result: bool)
    ensures result <==> tai.Some? && CanServe(tai.value, cfg, requested, defaults, others)
  {
    result := false;
    if tai.None? {
      return;
    }
    for i := 0 to |cfg|
      invariant result <==> CanServe(tai.value, cfg[..i], requested, defaults, others)
    {
      assert cfg[..i + 1] == cfg[..i] + [cfg[i]];
      if InPlmn(tai.value, cfg[i]) {
        result := PlmnServes(cfg[i], requested, defaults, others);
        assert CanServe(tai.value, cfg[..i + 1], requested, defaults, others)
            <==> Serves(cfg[..i + 1][i], requested, defaults, others);
      } else {
        SkipPlmn(tai.value, cfg[..i], cfg[i], requested, defaults, others);
      }
    }
    assert cfg[..|cfg|] == cfg;
  }

  lemma SkipPlmn(tai: Tai, cfg: seq<PlmnItem>, p: PlmnItem, requested: seq<NasSlice>, defaults: seq<Subscribed>,
                 others: seq<Subscribed>)
    requires !InPlmn(tai, p)
    ensures CanServe(tai, cfg + [p], requested, defaults, others) <==> CanServe(tai, cfg, requested, defaults, others)
  {
    var all := cfg + [p];
    if CanServe(tai, cfg, requested, defaults, others) {
      var i :| 0 <= i < |cfg| && InPlmn(tai, cfg[i]) && (forall j :: i < j < |cfg| ==> !InPlmn(tai, cfg[j]))
               && Serves(cfg[i], requested, defaults, others);
      assert all[i] == cfg[i] && forall j :: i < j < |all| ==> !InPlmn(tai, all[j]);
    }
    if CanServe(tai, all, requested, defaults, others) {
      var i :| 0 <= i < |all| && InPlmn(tai, all[i]) && (forall j :: i < j < |all| ==> !InPlmn(tai, all[j]))
               && Serves(all[i], requested, defaults, others);
      assert cfg[i] == all[i] && forall j :: i < j < |cfg| ==> cfg[j] == all[j];
    }
  }

  // ---------------------------------------------------------------- Registration Accept

  datatype AllowedSlice = AllowedSlice(sst: uint8, sd: int32, length: nat)
  datatype RejectedSlice = RejectedSlice(sst: uint8, sd: Option<int32>, cause: nat)

  const SST_LENGTH := 1
  const SD_LENGTH := 3
  const NOT_AVAILABLE_IN_AREA := 1

  function Allow(s: NasSlice): AllowedSlice {
    AllowedSlice(s.sst, s.sd, if s.sd == SD_NO_VALUE then SST_LENGTH else SST_LENGTH + SD_LENGTH)
  }

  function Reject(s: NasSlice): RejectedSlice {
    RejectedSlice(s.sst, if s.sd == SD_NO_VALUE then None else Some(s.sd), NOT_AVAILABLE_IN_AREA)
  }

  function AllowAll(common: seq<NasSlice>): seq<AllowedSlice> {
    seq(|common|, i requires 0 <= i < |common| => Allow(common[i]))
  }

  function Rejections(asked: seq<NasSlice>, common: seq<NasSlice>): seq<RejectedSlice> {
    if asked == [] then []
    else
      var init, last := Rejections(asked[..|asked| - 1], common), asked[|asked| - 1];
      if last in common then init else init + [Reject(last)]
  }

  /** The requested slices, or the subscribed ones when none are requested. */
  function Asked(requested: seq<NasSlice>, subscribed: seq<NasSlice>): seq<NasSlice> {
    if |requested| > 0 then requested else subscribed
  }

  /** The NSSAI part of initialize_registration_accept; `stored0` is the NAS context's list of allowed slices, which
      is only ever appended to. */
  method InitializeNssai(requested: seq<NasSlice>, subscribed: seq<NasSlice>, common: seq<NasSlice>,
                         stored0: seq<AllowedSlice>)
    returns (allowed: seq<AllowedSlice>, rejected: seq<RejectedSlice>, stored: seq<AllowedSlice>)
    ensures allowed == AllowAll(common) && stored == stored0 + AllowAll(common)
    ensures rejected == Rejections(Asked(requested, subscribed), common)
  {
    var asked := if |requested| > 0 then requested else subscribed;
    allowed, rejected, stored := [], [], stored0;
    for i := 0 to |common|
      invariant allowed == AllowAll(common)[..i] && stored == stored0 + AllowAll(common)[..i]
    {
      var s := common[i];
      var length := if s.sd == SD_NO_VALUE then SST_LENGTH else SST_LENGTH + SD_LENGTH;
      allowed := allowed + [AllowedSlice(s.sst, s.sd, length)];
      stored := stored + [AllowedSlice(s.sst, s.sd, length)];
    }
    for i := 0 to |asked|
      invariant rejected == Rejections(asked[..i], common)
    {
      assert asked[..i + 1][..i] == asked[..i];
      var found := IsCommon(asked[i], common);
      if !found {
        rejected := rejected +
          [RejectedSlice(asked[i].sst, if asked[i].sd != SD_NO_VALUE then Some(asked[i].sd) else None,
                         NOT_AVAILABLE_IN_AREA)];
      }
    }
    assert asked[..|asked|] == asked;
  }

  method IsCommon(r: NasSlice, common: seq<NasSlice>) returns (found: bool)
    ensures found <==> r in common
  {
    found := false;
    for i := 0 to |common|
      invariant r !in common[..i]
    {
      if r.sst == common[i].sst && r.sd == common[i].sd {
        return true;
      }
    }
    assert common[..|common|] == common;
  }

  lemma {:induction false} RejectionsExact(asked: seq<NasSlice>, common: seq<NasSlice>, r: NasSlice)
    ensures Reject(r) in Rejections(asked, common) <==> r in asked && r !in common
  {
    if asked != [] {
      var init, last := asked[..|asked| - 1], asked[|asked| - 1];
      RejectionsExact(init, common, r);
      assert asked == init + [last];
      assert Reject(last) == Reject(r) ==> last == r;
    }
  }

  lemma AllowedExact(common: seq<NasSlice>, s: NasSlice)
    ensures Allow(s) in AllowAll(common) <==> s in common
  {
    if s in common {
      var i :| 0 <= i < |common| && common[i] == s;
      assert AllowAll(common)[i] == Allow(s);
    }
    if Allow(s) in AllowAll(common) {
      var i :| 0 <= i < |common| && AllowAll(common)[i] == Allow(s);
      assert common[i] == s;
    }
  }

  /** Each asked slice is either allowed or rejected, and not both; it is rejected iff it is not common; and nothing
      that was not asked is rejected. */
  lemma AskedSlicesAreSplit(requested: seq<NasSlice>, subscribed: seq<NasSlice>, common: seq<NasSlice>, r: NasSlice)
    ensures var asked := Asked(requested, subscribed);
            var allowed, rejected := AllowAll(common), Rejections(asked, common);
            && (r in asked ==> (Reject(r) in rejected <==> r !in common))
            && (r in asked ==> (Reject(r) in rejected <==> Allow(r) !in allowed))
            && (Reject(r) in rejected ==> r in asked && Allow(r) !in allowed)
            && (Allow(r) in allowed <==> r in common)
  {
    RejectionsExact(Asked(requested, subscribed), common, r);
    AllowedExact(common, r);
  }

  // ---------------------------------------------------------------- end to end

  /** A subscribed slice with a printed SD is wanted by the request for that very slice, and served by a PLMN that has
      it configured. */
  lemma PrintedSliceIsMet(r: NasSlice, p: PlmnItem, sst: int32, sd: uint32)
    ensures Wants(r, Subscribed(sst, ToDecimal(sd))) <==> r.sst == sst && r.sd == ToInt32(sd)
    ensures Served(p, Subscribed(sst, ToDecimal(sd)))
       <==> exists s: Slice :: s in p.slices && s.sst == sst && s.sd == sd
  {
    SdRoundTripUnsigned(sd);
    assert SdValue(ToDecimal(sd)) == sd;
    SignedIsUnsigned(r.sd, sd);
  }

  lemma SignedIsUnsigned(x: int32, y: uint32)
    ensures ToUint32(x) == y <==> x == ToInt32(y)
  {
  }

  /** A single configured PLMN decides iff it has the MCC, MNC and TAC of the TAI. */
  lemma OnePlmnDecides(tai: Tai, p: PlmnItem, requested: seq<NasSlice>, defaults: seq<Subscribed>,
                       others: seq<Subscribed>)
    ensures CanServe(tai, [p], requested, defaults, others)
       <==> tai.mcc == p.mcc && tai.mnc == p.mnc && tai.tac == p.tac && Serves(p, requested, defaults, others)
  {
    if InPlmn(tai, p) && Serves(p, requested, defaults, others) {
      assert InPlmn(tai, [p][0]);
    }
  }

  /** The contents of the Registration Accept, field by field: an allowed slice has length 1 where it has no SD, else 4;
      a slice that was asked for and is not common is rejected with cause 1 (not available in the registration area),
      and with its SD if it has one. */
  lemma AcceptContents(requested: seq<NasSlice>, subscribed: seq<NasSlice>, common: seq<NasSlice>, x: RejectedSlice)
    ensures |AllowAll(common)| == |common|
    ensures forall i :: 0 <= i < |common| ==>
              var a := AllowAll(common)[i];
              a.sst == common[i].sst && a.sd == common[i].sd && a.length == if common[i].sd == 16777215 then 1 else 4
    ensures x in Rejections(Asked(requested, subscribed), common)
       <==> exists r: NasSlice ::
              && r in (if requested != [] then requested else subscribed) && r !in common
              && x.sst == r.sst && x.cause == 1 && x.sd == if r.sd == 16777215 then None else Some(r.sd)
  {
    RejectedFrom(Asked(requested, subscribed), common, x);
    if r: NasSlice :| r in Asked(requested, subscribed) && r !in common
                      && x.sst == r.sst && x.cause == 1 && x.sd == if r.sd == 16777215 then None else Some(r.sd) {
      RejectionsExact(Asked(requested, subscribed), common, r);
      assert x == Reject(r);
    }
  }

  lemma {:induction false} RejectedFrom(asked: seq<NasSlice>, common: seq<NasSlice>, x: RejectedSlice)
    ensures x in Rejections(asked, common) ==> exists r: NasSlice :: r in asked && r !in common && x == Reject(r)
  {
    if asked != [] {
      var init, last := asked[..|asked| - 1], asked[|asked| - 1];
      assert asked == init + [last];
      RejectedFrom(init, common, x);
    }
  }

  /** From NG Setup to Registration Accept, over every orderly run with handovers, resets and configuration updates:
      each slice in the Allowed NSSAI of an accept built from the NAS context of an AMF id is configured when the
      message is built, for a PLMN and TA of the UE's gNB, provided that the NAS context's RAN id is the UE's own or
      leads to a UE of a gNB that is not shut down. */
  lemma AllowedNssaiIsConfigured(cfg: seq<PlmnItem>, es: seq<N2Event>, amf: nat, a: AllowedSlice)
    requires N2Runs.Orderly(cfg, es) && amf in N2Run(Start(cfg), es).t.nasByAmf
    requires var now := N2Run(Start(cfg), es);
             N2Runs.OwnKey(now, now.t.nasByAmf[amf].ranId) || N2Runs.KeyLive(now, now.t.nasByAmf[amf].ranId)
    requires var now := N2Run(Start(cfg), es);
             a in AllowAll(N2Runs.CommonNssaiOf(now, now.t.nasByAmf[amf].ranId))
    ensures var now := N2Run(Start(cfg), es);
            N2Runs.ServedNow(now, now.t.nasByAmf[amf].ranId, NasSlice(a.sst, a.sd))
  {
    var now := N2Run(Start(cfg), es);
    var ran := now.t.nasByAmf[amf].ranId;
    var common := N2Runs.CommonNssaiOf(now, ran);
    N2Runs.CommonNssaiStaysConfigured(cfg, es, ran);
    AllowedIsCommon(common, a);
    assert NasSlice(a.sst, a.sd) in common;
  }

  lemma AllowedIsCommon(common: seq<NasSlice>, a: AllowedSlice)
    requires a in AllowAll(common)
    ensures NasSlice(a.sst, a.sd) in common
  {
    var i :| 0 <= i < |common| && AllowAll(common)[i] == a;
    assert common[i] == NasSlice(a.sst, a.sd);
  }
}
