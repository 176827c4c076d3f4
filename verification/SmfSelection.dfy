/** The choice of an SMF from the NRF's answer (discover_smf). */
module SmfSelection {
  import opened Numerals
  import opened Slices

  /** The members of the answer that are read; each may be missing. */
  datatype NrfSlice = NrfSlice(sst: Option<int>, sd: Option<string>)
  datatype Endpoint = Endpoint(port: Option<int>)
  datatype Version = Version(apiVersionInUri: Option<string>)
  datatype Service = Service(endpoints: Option<seq<Endpoint>>, versions: Option<seq<Version>>)
  datatype Instance = Instance(slices: Option<seq<NrfSlice>>, addresses: Option<seq<string>>,
                               services: Option<seq<Service>>)

  datatype Choice = Choice(addr: string, port: string, version: string)

  datatype Outcome = Answered(found: bool) | Threw

  // ---------------------------------------------------------------- meaning

  function SstOf(s: NrfSlice): int {
    if s.sst.Some? then s.sst.value else 0
  }

  function SdOf(s: NrfSlice): uint32 {
    if s.sd.Some? then SdValue(s.sd.value) else SD_NO_VALUE
  }

  ghost predicate Supports(inst: Instance, sst: uint8, sd: string) {
    inst.slices.Some? && exists s: NrfSlice :: s in inst.slices.value && SstOf(s) == sst && SdOf(s) == SdValue(sd)
  }

  /** What an instance carries. */
  function Address(inst: Instance): Option<string> {
    if inst.addresses.Some? && |inst.addresses.value| > 0 then Some(inst.addresses.value[0]) else None
  }

  function FirstService(inst: Instance): Option<Service> {
    if inst.services.Some? && |inst.services.value| > 0 then Some(inst.services.value[0]) else None
  }

  function Port(inst: Instance): Option<string> {
    match FirstService(inst)
    case Some(s) =>
      if s.endpoints.Some? && s.endpoints.value != [] && s.endpoints.value[0].port.Some?
      then Some(ToSignedDecimal(s.endpoints.value[0].port.value)) else None
    case None => None
  }

  /** Not reached when the service lists no end point. */
  function ApiVersion(inst: Instance): Option<string> {
    match FirstService(inst)
    case Some(s) =>
      if s.endpoints != Some([]) && s.versions.Some? && s.versions.value != []
      then s.versions.value[0].apiVersionInUri else None
    case None => None
  }

  /** The first element of an array of the service is taken without a check, and there is none. */
  predicate Throws(inst: Instance) {
    match FirstService(inst)
    case Some(s) => s.endpoints == Some([]) || s.versions == Some([])
    case None => false
  }

  /** What one instance writes over the outputs. */
  function Overwritten(inst: Instance, c: Choice): Choice {
    Choice(if Address(inst).Some? then Address(inst).value else c.addr,
           if Port(inst).Some? then Port(inst).value else c.port,
           if ApiVersion(inst).Some? then ApiVersion(inst).value else c.version)
  }

  /** The outputs after some instances have been visited. */
  function After(visited: seq<Instance>, c: Choice): Choice {
    if visited == [] then c else Overwritten(visited[|visited| - 1], After(visited[..|visited| - 1], c))
  }

  // ---------------------------------------------------------------- the loops

  method IsSupported(inst: Instance, sst: uint8, sd: string) returns (result: bool)
    ensures result <==> Supports(inst, sst, sd)
  {
    result := false;
    if inst.slices.Some? {
      var slices := inst.slices.value;
      for i := 0 to |slices|
        invariant forall j :: 0 <= j < i ==> !(SstOf(slices[j]) == sst && SdOf(slices[j]) == SdValue(sd))
      {
        var s := slices[i];
        if SstOf(s) == sst && SdOf(s) == SdValue(sd) {
          assert s in slices;
          return true;
        }
      }
    }
  }

  lemma AfterMore(list: seq<Instance>, i: nat, c: Choice)
    requires i < |list|
    ensures After(list[..i + 1], c) == Overwritten(list[i], After(list[..i], c))
  {
    assert list[..i + 1][..i] == list[..i];
  }

  method TakeFrom(inst: Instance, c0: Choice) returns (threw: bool, c: Choice)
    ensures threw == Throws(inst) && c == Overwritten(inst, c0)
  {
    threw, c := false, c0;
    if inst.addresses.Some? {
      if |inst.addresses.value| > 0 {
        c := c.(addr := inst.addresses.value[0]);
      }
    }
    if inst.services.Some? {
      if |inst.services.value| > 0 {
        var service := inst.services.value[0];
        if service.endpoints.Some? {
          if |service.endpoints.value| == 0 {
            return true, c;
          }
          var endpoint := service.endpoints.value[0];
          if endpoint.port.Some? {
            c := c.(port := ToSignedDecimal(endpoint.port.value));
          }
        }
        if service.versions.Some? {
          if |service.versions.value| == 0 {
            return true, c;
          }
          var version := service.versions.value[0];
          if version.apiVersionInUri.Some? {
            c := c.(version := version.apiVersionInUri.value);
          }
        }
      }
    }
  }

  /** The loop does not go past such an instance. */
  ghost predicate Stops(inst: Instance, sst: uint8, sd: string) {
    Supports(inst, sst, sd) || Throws(inst)
  }

  /** None of the first n instances ends the loop. */
  ghost predicate NoneStops(list: seq<Instance>, sst: uint8, sd: string, n: nat) {
    n <= |list| && forall i :: 0 <= i < n ==> !Stops(list[i], sst, sd)
  }

  /** Position m holds the first instance that ends the loop. */
  ghost predicate FirstStop(list: seq<Instance>, sst: uint8, sd: string, m: nat) {
    m < |list| && Stops(list[m], sst, sd) && NoneStops(list, sst, sd, m)
  }

  lemma FirstIsUnique(list: seq<Instance>, sst: uint8, sd: string, m: nat, n: nat)
    requires FirstStop(list, sst, sd, m) && FirstStop(list, sst, sd, n)
    ensures m == n
  {
  }

  /** The loop over the listed instances: up to the one that ends it, each writes what it carries over the outputs.
      `last` is where the loop ended. */
  method VisitInstances(list: seq<Instance>, sst: uint8, sd: string, c0: Choice)
    returns (outcome: Outcome, c: Choice, ghost last: nat)
    ensures last <= |list| && (last < |list| ==> FirstStop(list, sst, sd, last))
    ensures last == |list| ==> NoneStops(list, sst, sd, last) && outcome == Answered(false) && c == After(list, c0)
    ensures last < |list| ==> outcome == (if Throws(list[last]) then Threw else Answered(true))
    ensures last < |list| ==> c == Overwritten(list[last], After(list[..last], c0))
  {
    c := c0;
    for i := 0 to |list|
      invariant c == After(list[..i], c0) && NoneStops(list, sst, sd, i)
    {
      var result := IsSupported(list[i], sst, sd);
      var threw: bool;
      AfterMore(list, i, c0);
      threw, c := TakeFrom(list[i], c);
      if threw {
        return Threw, c, i;
      }
      if result {
        return Answered(true), c, i;
      }
    }
    assert list[..|list|] == list;
    return Answered(false), c, |list|;
  }

  /** `instances` is None where the NRF did not answer or listed no instances. The search ends at the first instance
      that supports the slice or throws; everything this one carries is then what is returned, and anything it does not
      carry is left as the instances before it and the caller set it. */
  method DiscoverSmf(instances: Option<seq<Instance>>, sst: uint8, sd: string, c0: Choice)
    returns (outcome: Outcome, c: Choice)
    ensures instances.None? ==> outcome == Answered(false) && c == c0
    ensures instances.Some? ==> forall m: nat :: FirstStop(instances.value, sst, sd, m) ==>
              outcome == (if Throws(instances.value[m]) then Threw else Answered(true))
              && c == Overwritten(instances.value[m], After(instances.value[..m], c0))
    ensures instances.Some? && (forall i :: 0 <= i < |instances.value| ==> !Stops(instances.value[i], sst, sd)) ==>
              outcome == Answered(false) && c == After(instances.value, c0)
  {
    outcome, c := Answered(false), c0;
    if instances.Some? {
      ghost var last;
      outcome, c, last := VisitInstances(instances.value, sst, sd, c0);
      forall m: nat | FirstStop(instances.value, sst, sd, m) ensures m == last {
        if last < |instances.value| {
          FirstIsUnique(instances.value, sst, sd, m, last);
        }
      }
    }
  }

  // ---------------------------------------------------------------- in terms of the answer

  /** Which texts match: an instance supports the printed slice iff it lists its SST, where none stands for 0, with its
      SD, where none stands for no SD. */
  lemma ListedIsSupported(inst: Instance, sst: uint8, sd: uint32)
    ensures Supports(inst, sst, ToDecimal(sd))
       <==> inst.slices.Some?
            && exists l: NrfSlice ::
                 && l in inst.slices.value
                 && (if l.sst.Some? then l.sst.value == sst else sst == 0)
                 && (if l.sd.Some? then SdValue(l.sd.value) == sd else sd == 16777215)
  {
    SdRoundTripUnsigned(sd);
  }

  /** What the instance found brings along is what is returned: its first address, and of its first service the port of
      the first end point and the version of the first version entry. */
  lemma FoundIsReturned(list: seq<Instance>, sst: uint8, sd: string, c0: Choice, m: nat)
    requires FirstStop(list, sst, sd, m)
    ensures var inst, c := list[m], Overwritten(list[m], After(list[..m], c0));
            && (inst.addresses.Some? && |inst.addresses.value| > 0 ==> c.addr == inst.addresses.value[0])
            && (inst.services.Some? && |inst.services.value| > 0 ==>
                  var service := inst.services.value[0];
                  && (service.endpoints.Some? && |service.endpoints.value| > 0
                      && service.endpoints.value[0].port.Some? ==>
                        c.port == ToSignedDecimal(service.endpoints.value[0].port.value))
                  && (service.endpoints != Some([]) && service.versions.Some? && |service.versions.value| > 0
                      && service.versions.value[0].apiVersionInUri.Some? ==>
                        c.version == service.versions.value[0].apiVersionInUri.value)
                  && (Throws(inst) <==> service.endpoints == Some([]) || service.versions == Some([])))
  {
  }

  // ---------------------------------------------------------------- what else can be returned

  /** Where the instance found carries no address, the one returned is the last address carried before it, of an
      instance that does not support the slice. */
  lemma AddressOfEarlierInstance(list: seq<Instance>, sst: uint8, sd: string, c0: Choice, m: nat, k: nat)
    requires FirstStop(list, sst, sd, m) && k < m
    requires Address(list[k]).Some? && forall i :: k < i < m ==> Address(list[i]).None?
    ensures Overwritten(list[m], After(list[..m], c0)).addr
         == if Address(list[m]).Some? then Address(list[m]).value else Address(list[k]).value
    ensures !Supports(list[k], sst, sd)
  {
    assert !Stops(list[k], sst, sd);
    LastCarried(list[..m], c0, k);
  }

  lemma {:induction false} LastCarried(visited: seq<Instance>, c0: Choice, k: nat)
    requires k < |visited| && Address(visited[k]).Some?
    requires forall i :: k < i < |visited| ==> Address(visited[i]).None?
    ensures After(visited, c0).addr == Address(visited[k]).value
    decreases |visited|
  {
    var n := |visited| - 1;
    if k < n {
      LastCarried(visited[..n], c0, k);
    }
  }

  /** The SD travels to the selection as the printed number of the UE's slice: an instance supports that text iff it
      lists the UE's own SD. */
  lemma SelectionUsesUesSlice(inst: Instance, s: NasSlice)
    ensures Supports(inst, s.sst, ToSignedDecimal(s.sd))
       <==> inst.slices.Some?
            && exists l: NrfSlice :: l in inst.slices.value && SstOf(l) == s.sst && ToInt32(SdOf(l)) == s.sd
  {
    SdRoundTrip(s.sd);
    forall x: uint32 ensures ToInt32(x) == s.sd <==> x == ToUint32(s.sd) {
    }
  }
}
