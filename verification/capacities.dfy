/** Sizing requests by the capacities the drivers publish: memory percentages and the core reference. */
module Capacities {
  import opened Options
  import opened DeviceConfigs
  import opened Selectors

  /******* Claim requests *******/

  datatype SubRequest = SubRequest(
    ordinal: nat, className: string, selectors: seq<Expr>, count: int, capacity: map<string, int>)

  datatype Request =
    | Exactly(name: string, className: string, selectors: seq<Expr>, count: int, capacity: map<string, int>)
    | FirstAvailable(name: string, subs: seq<SubRequest>)

  function TypeSelector(cfg: DeviceConfig): Expr {
    var driver := cfg.EffectiveDriver();
    var byType := TypeIs(Field(driver, "type"), cfg.deviceType);
    if cfg.deviceType == "hcu" || cfg.deviceType == "amdgpu" || cfg.deviceType == "HAMivNPUCore"
    then And(DriverIs(driver), byType) else byType
  }

  function PrimaryRequest(cfg: DeviceConfig): (r: Request)
    ensures r.Exactly?
  {
    Exactly(cfg.requestName, cfg.EffectiveClassName(), [TypeSelector(cfg)], 0, map[])
  }

  /** The device has the config's type in its driver's domain; three device types also ask for the driver. */
  predicate RightType(cfg: DeviceConfig, d: Device) {
    var driver := if cfg.driverName == "" then "hami-core-gpu.project-hami.io" else cfg.driverName;
    && Get(d, Field(driver, "type")) == Some(Text(cfg.deviceType))
    && (cfg.deviceType in ["hcu", "amdgpu", "HAMivNPUCore"] ==> d.driver == driver)
  }

  lemma PrimaryMeaning(cfg: DeviceConfig, d: Device)
    ensures var r := PrimaryRequest(cfg);
      && r.name == cfg.requestName
      && r.className == (if cfg.deviceClassName == "" then "hami-core-gpu.project-hami.io" else cfg.deviceClassName)
      && (Accepts(r.selectors, d) <==> RightType(cfg, d))
  {
    var driver := cfg.EffectiveDriver();
    var byType := TypeIs(Field(driver, "type"), cfg.deviceType);
    assert Eval(And(DriverIs(driver), byType), d) == Both(Eval(DriverIs(driver), d), Eval(byType, d));
    assert PrimaryRequest(cfg).selectors == [TypeSelector(cfg)];
    assert Accepts([TypeSelector(cfg)], d) <==> Eval(TypeSelector(cfg), d) == Yes by {
      assert TypeSelector(cfg) in [TypeSelector(cfg)];
    }
  }

  /******* Published capacities *******/

  /** A device in a ResourceSlice; capacities are exact quantities. */
  datatype Published = Published(attributes: map<string, AttributeValue>, capacity: map<string, real>)

  datatype DriverSlice = DriverSlice(driver: string, devices: seq<Published>)

  /** The device as a selector sees it: attributes and capacities under the driver's own domain. */
  function AsDevice(driver: string, p: Published): Device {
    Device(
      driver,
      map n | n in p.attributes :: Field(driver, n) := p.attributes[n],
      if "memory" in p.capacity then map[driver := p.capacity["memory"]] else map[])
  }

  /** Quantity.Value: the nearest integer away from zero. */
  function IntegerValue(q: real): int {
    if q >= 0.0 then -((-q).Floor) else q.Floor
  }

  /** The value is less than one away from the quantity, and not nearer to zero. */
  lemma IntegerValueIff(q: real, n: int)
    ensures IntegerValue(q) == n <==>
            if q >= 0.0 then n as real - 1.0 < q <= n as real else n as real <= q < n as real + 1.0
  {
  }

  predicate OfType(cfg: DeviceConfig, p: Published) {
    "type" in p.attributes && p.attributes["type"] == Text(cfg.deviceType)
  }

  /** A published device is counted for a config exactly if the config's request accepts it. */
  lemma CountedIffAccepted(cfg: DeviceConfig, driver: string, p: Published)
    ensures driver == cfg.EffectiveDriver() && OfType(cfg, p) <==>
            Accepts(PrimaryRequest(cfg).selectors, AsDevice(driver, p))
    ensures forall domain: string, name: string ::
      Get(AsDevice(driver, p), Field(domain, name)) ==
      if domain == driver && name in p.attributes then Some(p.attributes[name]) else None
  {
    PrimaryMeaning(cfg, AsDevice(driver, p));
  }

  /** The distinct values of one capacity over the devices of the config's driver and type. */
  ghost function CapacityValues(slices: seq<DriverSlice>, cfg: DeviceConfig, capacity: string): set<int> {
    set s, d |
      && s in slices && s.driver == cfg.EffectiveDriver()
      && d in s.devices && OfType(cfg, d) && capacity in d.capacity
      :: IntegerValue(d.capacity[capacity])
  }

  predicate Ascending(r: seq<int>) {
    forall i, j | 0 <= i < j < |r| :: r[i] < r[j]
  }

  /** r lists the values in ascending order, each once. */
  ghost predicate Enumerates(r: seq<int>, values: set<int>) {
    Ascending(r) && forall x :: x in r <==> x in values
  }

  /** Without its last and greatest element, the list enumerates the remaining values. */
  lemma WithoutLast(r: seq<int>, values: set<int>)
    requires Enumerates(r, values) && r != []
    ensures r[|r| - 1] in values && forall x | x in values :: x <= r[|r| - 1]
    ensures Enumerates(r[..|r| - 1], values - {r[|r| - 1]})
  {
    var n := |r| - 1;
    assert r == r[..n] + [r[n]];
    assert r[n] in r;
  }

  /** There is one such list, so sizes do not depend on the order of slices and devices. */
  lemma {:induction false} EnumerationUnique(r: seq<int>, t: seq<int>, values: set<int>)
    requires Enumerates(r, values) && Enumerates(t, values)
    ensures r == t
  {
    hide Enumerates;
    EmptyIff(r, values);
    EmptyIff(t, values);
    if values != {} {
      WithoutLast(r, values);
      WithoutLast(t, values);
      var m, n := |r| - 1, |t| - 1;
      assert r[m] == t[n];
      EnumerationUnique(r[..m], t[..n], values - {r[m]});
      assert r == r[..m] + [r[m]] && t == t[..n] + [t[n]];
    }
  }

  lemma EmptyIff(r: seq<int>, values: set<int>)
    requires Enumerates(r, values)
    ensures r == [] <==> values == {}
  {
    assert r != [] ==> r[0] in r && r[0] in values;
    if r == [] { assert forall x :: x !in values; }
  }

  /** Inserts a new value into an ascending list. */
  function Insert(r: seq<int>, x: int): (t: seq<int>)
    requires Ascending(r) && x !in r
    ensures Ascending(t) && forall y :: y in t <==> y in r || y == x
  {
    if r == [] then [x]
    else
      var n := |r| - 1;
      assert r == r[..n] + [r[n]];
      if r[n] < x then r + [x]
      else
        var t := Insert(r[..n], x);
        assert r[n] in r;
        assert forall y | y in r[..n] :: y < r[n];
        assert forall i | 0 <= i < |t| :: t[i] in t;
        t + [r[n]]
  }

  /** The loops over slices and devices, with the set of values already seen. */
  method DeviceCapacities(slices: seq<DriverSlice>, cfg: DeviceConfig, capacity: string) returns (sizes: seq<int>)
    ensures Enumerates(sizes, CapacityValues(slices, cfg, capacity))
  {
    sizes := [];
    var driver := cfg.EffectiveDriver();
    for i := 0 to |slices|
      invariant Enumerates(sizes, CapacityValues(slices[..i], cfg, capacity))
    {
      assert slices[..i + 1] == slices[..i] + [slices[i]];
      if slices[i].driver == driver {
        var devices := slices[i].devices;
        for j := 0 to |devices|
          invariant Enumerates(sizes, CapacityValues(slices[..i] + [DriverSlice(driver, devices[..j])], cfg, capacity))
        {
          assert devices[..j + 1] == devices[..j] + [devices[j]];
          OneMoreDevice(slices[..i], driver, devices[..j], devices[j], cfg, capacity);
          if "type" in devices[j].attributes && devices[j].attributes["type"] == Text(cfg.deviceType)
             && capacity in devices[j].capacity {
            var v := IntegerValue(devices[j].capacity[capacity]);
            if v !in sizes {
              sizes := Insert(sizes, v);
            }
          }
        }
        assert devices[..|devices|] == devices && slices[i] == DriverSlice(driver, devices);
      } else {
        OtherDriver(slices[..i], slices[i], cfg, capacity);
      }
    }
    assert slices[..|slices|] == slices;
  }

  lemma OneMoreDevice(slices: seq<DriverSlice>, driver: string, devices: seq<Published>, d: Published,
                      cfg: DeviceConfig, capacity: string)
    requires driver == cfg.EffectiveDriver()
    ensures CapacityValues(slices + [DriverSlice(driver, [])], cfg, capacity) == CapacityValues(slices, cfg, capacity)
    ensures CapacityValues(slices + [DriverSlice(driver, devices + [d])], cfg, capacity) ==
            CapacityValues(slices + [DriverSlice(driver, devices)], cfg, capacity)
            + if OfType(cfg, d) && capacity in d.capacity then {IntegerValue(d.capacity[capacity])} else {}
  {
  }

  lemma OtherDriver(slices: seq<DriverSlice>, s: DriverSlice, cfg: DeviceConfig, capacity: string)
    requires s.driver != cfg.EffectiveDriver()
    ensures CapacityValues(slices + [s], cfg, capacity) == CapacityValues(slices, cfg, capacity)
  {
  }

  ghost function AscendingOf(values: set<int>): (r: seq<int>)
    ensures Enumerates(r, values)
  {
    if x :| x in values then Insert(AscendingOf(values - {x}), x) else []
  }

  /** The sizes a listing gives; None stands for a failed listing. */
  ghost function Sizes(published: Option<seq<DriverSlice>>, cfg: DeviceConfig, capacity: string): Result<seq<int>> {
    match published
    case None => Failure
    case Some(slices) => Success(AscendingOf(CapacityValues(slices, cfg, capacity)))
  }

  method ListSizes(published: Option<seq<DriverSlice>>, cfg: DeviceConfig, capacity: string)
    returns (r: Result<seq<int>>)
    ensures r == Sizes(published, cfg, capacity)
  {
    if published.None? { return Failure; }
    var sizes := DeviceCapacities(published.value, cfg, capacity);
    ghost var expected := CapacityValues(published.value, cfg, capacity);
    EnumerationUnique(sizes, AscendingOf(expected), expected);
    return Success(sizes);
  }

  /******* Memory percentages *******/

  // FirstAvailableDeviceRequestMaxSize of the resource.k8s.io API.
  const SUBREQUEST_MAX := 8

  /** pct percent of the size in whole MiB, at least one, in bytes. */
  function Share(size: int, pct: int): int {
    var mebibytes := Quotient(size / MIB * pct, 100);
    (if mebibytes < 1 then 1 else mebibytes) * MIB
  }

  /** The share was raised to the minimum of one MiB. */
  predicate Raised(size: int, pct: int) {
    Quotient(size / MIB * pct, 100) < 1
  }

  function SubFor(req: Request, cfg: DeviceConfig, pct: int, sizes: seq<int>, i: nat): SubRequest
    requires req.Exactly? && i < |sizes|
  {
    SubRequest(i, req.className, req.selectors + [MemoryIs(cfg.EffectiveDriver(), sizes[i])], req.count,
               req.capacity["memory" := Share(sizes[i], pct)])
  }

  ghost function PercentageRequest(req: Request, cfg: DeviceConfig, pct: int, published: Option<seq<DriverSlice>>)
    : Result<Request>
    requires req.Exactly?
  {
    if pct < 1 || pct > 100 then Failure else
      match Sizes(published, cfg, "memory")
      case Failure => Failure
      case Success(sizes) =>
        if sizes == [] || |sizes| > SUBREQUEST_MAX then Failure
        else Success(FirstAvailable(
          req.name, seq(|sizes|, i requires 0 <= i < |sizes| => SubFor(req, cfg, pct, sizes, i))))
  }

  /** The loop that appends one subrequest per published size. */
  method RequestMemoryPercentage(req: Request, cfg: DeviceConfig, pct: int, published: Option<seq<DriverSlice>>)
    returns (r: Result<Request>)
    requires req.Exactly?
    ensures r == PercentageRequest(req, cfg, pct, published)
  {
    hide Sizes;
    if pct < 1 || pct > 100 { return Failure; }
    var listed := ListSizes(published, cfg, "memory");
    if listed.Failure? { return Failure; }
    var sizes := listed.value;
    if sizes == [] || |sizes| > SUBREQUEST_MAX { return Failure; }
    var subs: seq<SubRequest> := [];
    var driver := cfg.EffectiveDriver();
    for i := 0 to |sizes|
      invariant |subs| == i && forall j | 0 <= j < i :: subs[j] == SubFor(req, cfg, pct, sizes, j)
    {
      var mebibytes := Quotient(sizes[i] / 0x10_0000 * pct, 100);
      if mebibytes < 1 { mebibytes := 1; }
      var capacity := req.capacity["memory" := mebibytes * 0x10_0000];
      var selectors := req.selectors + [MemoryIs(driver, sizes[i])];
      subs := subs + [SubRequest(i, req.className, selectors, req.count, capacity)];
    }
    assert subs == seq(|sizes|, i requires 0 <= i < |sizes| => SubFor(req, cfg, pct, sizes, i));
    return Success(FirstAvailable(req.name, subs));
  }

  /** The share is the greatest number of whole MiB within the percentage of the whole MiB, but at least one. */
  lemma ShareIff(size: int, pct: int, mebibytes: int)
    requires 1 <= pct <= 100
    ensures Share(size, pct) == mebibytes * 1048576 <==>
            exists whole ::
              && whole * 1048576 <= size < (whole + 1) * 1048576
              && if whole * pct < 200 then mebibytes == 1
                 else mebibytes * 100 <= whole * pct < (mebibytes + 1) * 100
  {
    var whole := size / MIB;
    assert whole * 1048576 <= size < (whole + 1) * 1048576;
    forall w | w * 1048576 <= size < (w + 1) * 1048576 ensures w == whole { }
  }

  /** The share as a sum of products: bounds against the exact percentage. */
  lemma ShareBounds(size: int, pct: int)
    requires 1 <= pct <= 100
    ensures !Raised(size, pct) ==>
      && Share(size, pct) * 100 <= size * pct
      && size * pct < (Share(size, pct) + 2 * MIB) * 100
    ensures Raised(size, pct) ==> Share(size, pct) == MIB
  {
    var whole := size / MIB;
    var product := whole * pct;
    assert MIB * whole <= size < MIB * whole + MIB;
    if !Raised(size, pct) {
      assert product >= 0;
      var m := product / 100;
      assert m * 100 <= product < m * 100 + 100;
      ProductMonotone(MIB * whole, size, pct);
      ProductMonotone(size + 1, MIB * whole + MIB, pct);
      Regroup(whole, pct);
    }
  }

  lemma Regroup(whole: int, pct: int)
    ensures (MIB * whole) * pct == MIB * (whole * pct)
    ensures (MIB * whole + MIB) * pct == MIB * (whole * pct) + MIB * pct
  {
  }

  /** A share is no more than the device's memory exactly when the device has at least one MiB. */
  lemma ShareFitsIff(size: int, pct: int)
    requires 1 <= pct <= 100
    ensures Share(size, pct) <= size <==> size >= MIB
  {
    ShareBounds(size, pct);
    if !Raised(size, pct) && size >= 0 { ProductMonotone(pct, 100, size); }
    if size < MIB { ProductMonotone(size / MIB, 0, pct); }
  }

  function SharesSum(size: int, percents: seq<int>): int {
    if percents == [] then 0
    else SharesSum(size, percents[..|percents| - 1]) + Share(size, percents[|percents| - 1])
  }

  lemma {:induction false} SharesSumBound(size: int, percents: seq<int>)
    requires forall i | 0 <= i < |percents| :: 1 <= percents[i] <= 100 && !Raised(size, percents[i])
    ensures SharesSum(size, percents) * 100 <= size * Sum(percents)
  {
    if percents != [] {
      var n := |percents| - 1;
      SharesSumBound(size, percents[..n]);
      ShareBounds(size, percents[n]);
      Distribute(Sum(percents[..n]), percents[n], size);
    }
  }

  /** Shares that were not raised and ask for at most 100 percent together fit on one device. */
  lemma SharesFitTogether(size: int, percents: seq<int>)
    requires size >= 0 && Sum(percents) <= 100
    requires forall i | 0 <= i < |percents| :: 1 <= percents[i] <= 100 && !Raised(size, percents[i])
    ensures SharesSum(size, percents) <= size
  {
    SharesSumBound(size, percents);
    ProductMonotone(Sum(percents), 100, size);
  }

  /** Subrequest i asks for the size of the device. */
  predicate SizeMatches(sub: SubRequest, d: Device) {
    sub.selectors != [] && Eval(sub.selectors[|sub.selectors| - 1], d) == Yes
  }

  /** A published device matches the size of one subrequest if its memory is a whole number of bytes, else of none. */
  lemma OneSubrequestPerDevice(req: Request, cfg: DeviceConfig, pct: int, slices: seq<DriverSlice>,
                               s: DriverSlice, p: Published)
    requires req.Exactly? && PercentageRequest(req, cfg, pct, Some(slices)).Success?
    requires s in slices && s.driver == cfg.EffectiveDriver() && p in s.devices
    requires OfType(cfg, p) && "memory" in p.capacity
    ensures var subs := PercentageRequest(req, cfg, pct, Some(slices)).value.subs;
            var d, q := AsDevice(s.driver, p), p.capacity["memory"];
            && (forall i, j | 0 <= i < |subs| && 0 <= j < |subs| && SizeMatches(subs[i], d) && SizeMatches(subs[j], d)
                  :: i == j)
            && ((exists i | 0 <= i < |subs| :: SizeMatches(subs[i], d)) <==> q == IntegerValue(q) as real)
            && (forall i | 0 <= i < |subs| && SizeMatches(subs[i], d) ::
                  subs[i].capacity["memory"] == Share(IntegerValue(q), pct))
  {
    hide Share, Enumerates;
    var r := PercentageRequest(req, cfg, pct, Some(slices));
    var sizes := Sizes(Some(slices), cfg, "memory").value;
    var subs := r.value.subs;
    var d, q := AsDevice(s.driver, p), p.capacity["memory"];
    assert d.memory == map[s.driver := q];
    forall i | 0 <= i < |subs|
      ensures subs[i] == SubFor(req, cfg, pct, sizes, i) && (SizeMatches(subs[i], d) <==> q == sizes[i] as real)
    {
    }
    SizesList(slices, cfg, s, p);
    forall i | 0 <= i < |sizes| && q == sizes[i] as real ensures sizes[i] == IntegerValue(q) {
      WholeValue(q, sizes[i]);
    }
    var k :| 0 <= k < |sizes| && sizes[k] == IntegerValue(q);
    assert q == IntegerValue(q) as real ==> SizeMatches(subs[k], d);
  }

  lemma SizesList(slices: seq<DriverSlice>, cfg: DeviceConfig, s: DriverSlice, p: Published)
    requires s in slices && s.driver == cfg.EffectiveDriver() && p in s.devices
    requires OfType(cfg, p) && "memory" in p.capacity
    ensures var sizes := Sizes(Some(slices), cfg, "memory").value;
            && Ascending(sizes)
            && exists k :: 0 <= k < |sizes| && sizes[k] == IntegerValue(p.capacity["memory"])
  {
    var v := IntegerValue(p.capacity["memory"]);
    assert v in CapacityValues(slices, cfg, "memory");
    assert v in Sizes(Some(slices), cfg, "memory").value;
  }

  lemma WholeValue(q: real, n: int)
    requires q == n as real
    ensures IntegerValue(q) == n
  {
    assert (-q) == (-n) as real;
  }

  /******* The core reference *******/

  /** withReferenceComputeUnits. */
  ghost function WithReference(cfg: DeviceConfig, published: Option<seq<DriverSlice>>): Result<DeviceConfig> {
    if cfg.deviceType != "amdgpu" || cfg.referenceUnits > 0 then Success(cfg) else
      match Sizes(published, cfg, "computeUnits")
      case Failure => Failure
      case Success(sizes) =>
        if sizes == [] then Success(cfg)
        else if |sizes| == 1 then Success(cfg.(referenceUnits := sizes[0]))
        else Failure
  }

  /** The reference of a core limit: as configured, or for "amdgpu" the one size that is published, if any. */
  ghost predicate ReferenceIs(cfg: DeviceConfig, published: Option<seq<DriverSlice>>, units: int) {
    if cfg.deviceType != "amdgpu" || cfg.referenceUnits > 0 then units == cfg.referenceUnits
    else
      published.Some? &&
      var sizes := CapacityValues(published.value, cfg, "computeUnits");
      sizes == {units} || (sizes == {} && units == cfg.referenceUnits)
  }

  lemma ReferenceIff(cfg: DeviceConfig, published: Option<seq<DriverSlice>>, units: int)
    ensures WithReference(cfg, published) == Success(cfg.(referenceUnits := units))
            <==> ReferenceIs(cfg, published, units)
    ensures WithReference(cfg, published).Success? ==>
      exists u :: WithReference(cfg, published).value == cfg.(referenceUnits := u)
  {
    assert cfg == cfg.(referenceUnits := cfg.referenceUnits);
    if cfg.deviceType == "amdgpu" && cfg.referenceUnits <= 0 && published.Some? {
      var values := CapacityValues(published.value, cfg, "computeUnits");
      var sizes := AscendingOf(values);
      EmptyIff(sizes, values);
      if |sizes| == 1 {
        assert values == {sizes[0]} by { assert forall x :: x in sizes <==> x == sizes[0]; }
      } else if |sizes| > 1 {
        assert sizes[0] in values && sizes[1] in values && sizes[0] < sizes[1];
      }
    }
  }

  method WithReferenceComputeUnits(cfg: DeviceConfig, published: Option<seq<DriverSlice>>)
    returns (r: Result<DeviceConfig>)
    ensures r == WithReference(cfg, published)
  {
    hide Sizes;
    if cfg.deviceType != "amdgpu" || cfg.referenceUnits > 0 { return Success(cfg); }
    var listed := ListSizes(published, cfg, "computeUnits");
    if listed.Failure? { return Failure; }
    match |listed.value| {
      case 0 => return Success(cfg);
      case 1 => return Success(cfg.(referenceUnits := listed.value[0]));
      case _ => return Failure;
    }
  }

  /**
   A percentage converted by a derived reference asks for no more than the capacity of any published
   device rounded up, and for no more than the capacity itself exactly if that is a whole number of units
   or the request is below the rounded capacity.
   */
  lemma DerivedReferenceFits(cfg: DeviceConfig, slices: seq<DriverSlice>, pct: int, s: DriverSlice, p: Published)
    requires cfg.deviceType == "amdgpu" && cfg.referenceUnits <= 0 && pct <= 100
    requires WithReference(cfg, Some(slices)).Success?
    requires var ref := WithReference(cfg, Some(slices)).value;
             && ConvertCores(ref, pct).Success?
             && MIN64 <= pct * ref.referenceUnits && pct * ref.referenceUnits + 99 <= MAX64
    requires s in slices && s.driver == cfg.EffectiveDriver() && p in s.devices
    requires OfType(cfg, p) && "computeUnits" in p.capacity
    ensures var units := ConvertCores(WithReference(cfg, Some(slices)).value, pct).value;
            var capacity := p.capacity["computeUnits"];
            && units <= IntegerValue(capacity)
            && (units as real <= capacity
                <==> capacity == IntegerValue(capacity) as real || units < IntegerValue(capacity))
  {
    hide CoreUnits;
    var ref := WithReference(cfg, Some(slices)).value;
    var v := IntegerValue(p.capacity["computeUnits"]);
    assert v in CapacityValues(slices, cfg, "computeUnits");
    assert v in Sizes(Some(slices), cfg, "computeUnits").value;
    assert ref.referenceUnits == v;
    CoreUnitsWithinReference(pct, v);
    RoundedUp(p.capacity["computeUnits"]);
  }

  /** A positive rounded value is the least whole number not below the exact one. */
  lemma RoundedUp(q: real)
    requires IntegerValue(q) > 0
    ensures IntegerValue(q) as real - 1.0 < q <= IntegerValue(q) as real
  {
  }

  /** One device of 7.5 units: all of it, as 100 percent, is converted to 8 units. */
  lemma FractionalExample(cfg: DeviceConfig)
    requires cfg.deviceType == "amdgpu" && cfg.referenceUnits <= 0
    ensures var p := Published(map["type" := Text("amdgpu")], map["computeUnits" := 7.5]);
            var ref := WithReference(cfg, Some([DriverSlice(cfg.EffectiveDriver(), [p])]));
            ref.Success? && ConvertCores(ref.value, 100) == Success(8)
  {
    var p := Published(map["type" := Text("amdgpu")], map["computeUnits" := 7.5]);
    var slices := [DriverSlice(cfg.EffectiveDriver(), [p])];
    assert (-7.5).Floor == -8;
    var values := CapacityValues(slices, cfg, "computeUnits");
    assert IntegerValue(7.5) == 8;
    assert p in slices[0].devices && slices[0] in slices;
    assert values == {8};
    var sizes := AscendingOf(values);
    assert Enumerates([8], values);
    EnumerationUnique(sizes, [8], values);
    assert CoreUnits(100, 8) == 8;
  }
}
