/** Device configurations: their resolution from the configured vendors and their unit conversions. */
module DeviceConfigs {
  import opened Options
  import opened ClaimNames

  const NVIDIA := "nvidia"
  const HYGON := "hygon"
  const ASCEND := "ascend"
  const AMD := "amd"

  datatype DeviceConfig = DeviceConfig(
    vendor: string,
    countName: string,
    memoryName: string,
    coreName: string,
    percentageName: string,
    deviceClassName: string,
    driverName: string,
    requestName: string,
    deviceType: string,
    coreCapacityName: string,
    commonWord: string,
    useUuid: string,
    noUseUuid: string,
    useType: string,
    noUseType: string,
    typeSubstring: bool,
    referenceUnits: int)
  {
    function EffectiveClassName(): string {
      if deviceClassName != "" then deviceClassName else "hami-core-gpu.project-hami.io"
    }

    function EffectiveDriver(): string {
      if driverName != "" then driverName else "hami-core-gpu.project-hami.io"
    }

    function EffectiveCoreCapacity(): string {
      if coreCapacityName != "" then coreCapacityName else "cores"
    }

    /** The resource names a container can ask this device with. */
    function Names(): (r: seq<string>)
      ensures |r| == 4
    {
      [countName, memoryName, coreName, percentageName]
    }

    function Suffix(): string {
      if commonWord != "" then ToLower(commonWord) else vendor
    }
  }

  function ToLower(s: string): (r: string)
    ensures |r| == |s|
  {
    seq(|s|, i requires 0 <= i < |s| => if 'A' <= s[i] <= 'Z' then s[i] - 'A' + 'a' else s[i])
  }

  /** A config's suffix is its chip's word with small letters for capitals, or else its vendor. */
  lemma SuffixMeaning(cfg: DeviceConfig)
    ensures cfg.commonWord == "" ==> cfg.Suffix() == cfg.vendor
    ensures cfg.commonWord != "" ==>
      && |cfg.Suffix()| == |cfg.commonWord|
      && forall i | 0 <= i < |cfg.commonWord| ::
           var c := cfg.commonWord[i];
           cfg.Suffix()[i] == if 65 <= c as int <= 90 then (c as int + 32) as char else c
  {
  }

  function FirstNonEmpty(s: string, t: string): string {
    if s != "" then s else t
  }

  function TrimPrefix(s: string, p: string): string {
    if p <= s then s[|p|..] else s
  }

  /******* Unit conversions, in 64-bit integers *******/

  const MAX64 := 0x7fff_ffff_ffff_ffff
  const MIN64 := -0x8000_0000_0000_0000
  const MIB := 1048576

  /** The value of an int64 after an operation whose exact result is x. */
  function Wrap64(x: int): int {
    (x + 0x8000_0000_0000_0000) % 0x1_0000_0000_0000_0000 - 0x8000_0000_0000_0000
  }

  /** Go's integer division, which truncates toward zero. */
  function Quotient(a: int, b: int): int
    requires b > 0
  {
    if a >= 0 then a / b else -((-a) / b)
  }

  /** The remainder is smaller than the divisor and has the sign of the dividend. */
  lemma QuotientMeaning(a: int, b: int)
    requires b > 0
    ensures var rest := a - Quotient(a, b) * b; -b < rest < b && if a >= 0 then rest >= 0 else rest <= 0
  {
  }

  /** A memory request in MiB becomes bytes just when the bytes fit an int64. */
  function ConvertMemory(mebibytes: int): (r: Result<int>)
    ensures r.Success? <==> 0 <= mebibytes * MIB <= MAX64
    ensures r.Success? ==> r.value == mebibytes * MIB == Wrap64(mebibytes * MIB)
  {
    if mebibytes < 0 || mebibytes > MAX64 / MIB then Failure else Success(Wrap64(mebibytes * MIB))
  }

  /** A percentage of `units`, rounded up to a whole unit and at least one. */
  function CoreUnits(percent: int, units: int): int {
    var absolute := Quotient(Wrap64(Wrap64(percent * units) + 99), 100);
    if absolute < 1 then 1 else absolute
  }

  function ConvertCores(cfg: DeviceConfig, cores: int): Result<int> {
    if (cfg.deviceType == "hcu" || cfg.deviceType == "amdgpu") && cfg.referenceUnits <= 0 then Failure
    else if cfg.referenceUnits > 0 then Success(CoreUnits(cores, cfg.referenceUnits))
    else Success(cores)
  }

  /** v units are just enough for `percent` percent of `units`. */
  predicate JustEnough(v: int, percent: int, units: int) {
    v >= 1 && v * 100 >= percent * units && (v == 1 || (v - 1) * 100 < percent * units)
  }

  lemma WrapSum(x: int)
    requires x >= 0
    ensures x + 99 <= MAX64 ==> Wrap64(Wrap64(x) + 99) == x + 99
    ensures x + 99 > MAX64 ==> Wrap64(Wrap64(x) + 99) <= x + 99 - 0x1_0000_0000_0000_0000
  {
    var m := 0x1_0000_0000_0000_0000;
    var y := Wrap64(x);
    assert y == x - m * ((x + 0x8000_0000_0000_0000) / m);
    var z := Wrap64(y + 99);
    assert z == y + 99 - m * ((y + 99 + 0x8000_0000_0000_0000) / m);
  }

  /** The wrapped product of a negative percentage still gives the least request, one unit. */
  predicate WrapsToOne(product: int) {
    Wrap64(product) <= 100 || Wrap64(product) > MAX64 - 99
  }

  /**
   The conversion is the rounded-up share exactly as long as the product fits an int64. A negative
   percentage is raised to one unit, unless its product wraps to a value above 100.
   */
  lemma CoreUnitsIff(percent: int, units: int)
    requires units > 0
    ensures JustEnough(CoreUnits(percent, units), percent, units) <==>
            if percent >= 0 then percent * units + 99 <= MAX64 else WrapsToOne(percent * units)
    ensures percent < 0 && percent * units >= MIN64 ==> WrapsToOne(percent * units) && CoreUnits(percent, units) == 1
  {
    if percent >= 0 {
      assert percent * units >= 0;
      WrapSum(percent * units);
    } else {
      assert percent * units < 0;
      WrapsToOneIff(percent * units);
    }
  }

  lemma WrapsToOneIff(product: int)
    requires product < 0
    ensures WrapsToOne(product) <==> Quotient(Wrap64(Wrap64(product) + 99), 100) < 2
    ensures product >= MIN64 ==> Wrap64(product) == product
  {
  }

  /** The int64 that x wraps to: the one that differs from it by a multiple of 2^64. */
  predicate WrapsTo(x: int, w: int) {
    MIN64 <= w <= MAX64 && (w - x) % 0x1_0000_0000_0000_0000 == 0
  }

  /** v is what a limit of `cores` asks for: the limit itself, or with a reference a percentage of it. */
  ghost predicate CoresAsked(cfg: DeviceConfig, cores: int, v: int) {
    if cfg.referenceUnits <= 0 then v == cores
    else
      var product := cores * cfg.referenceUnits;
      var raised := product + 99;
      && (cores >= 0 && raised <= MAX64 ==> JustEnough(v, cores, cfg.referenceUnits))
      && (cores < 0 && product >= MIN64 ==> v == 1)
      && forall w | WrapsTo(raised, w) :: if w < 200 then v == 1 else v * 100 <= w < (v + 1) * 100
  }

  /**
   A core limit is refused exactly for the two device types of percentages without a reference. Otherwise it
   is passed on, or converted to the units that its percentage of the reference comes to in an int64.
   */
  lemma ConvertCoresIff(cfg: DeviceConfig, cores: int)
    ensures ConvertCores(cfg, cores).Failure?
            <==> (cfg.deviceType == "hcu" || cfg.deviceType == "amdgpu") && cfg.referenceUnits <= 0
    ensures ConvertCores(cfg, cores).Success? ==> CoresAsked(cfg, cores, ConvertCores(cfg, cores).value)
  {
    hide JustEnough;
    if cfg.referenceUnits > 0 {
      var product := cores * cfg.referenceUnits;
      CoreUnitsIff(cores, cfg.referenceUnits);
      var raised := product + 99;
      forall w | WrapsTo(raised, w)
        ensures var v := CoreUnits(cores, cfg.referenceUnits);
                if w < 200 then v == 1 else v * 100 <= w < (v + 1) * 100
      {
        WrapOnce(product, w);
      }
    }
  }

  /** Wrapping after each operation is wrapping the result. */
  lemma WrapOnce(product: int, w: int)
    requires WrapsTo(product + 99, w)
    ensures Wrap64(Wrap64(product) + 99) == w
  {
    WrapIs(product);
    WrapIs(Wrap64(product) + 99);
    WrapUnique(product + 99, w, Wrap64(Wrap64(product) + 99));
  }

  lemma WrapIs(x: int)
    ensures WrapsTo(x, Wrap64(x))
  {
  }

  lemma WrapUnique(x: int, v: int, w: int)
    requires WrapsTo(x, v) && WrapsTo(x, w)
    ensures v == w
  {
  }

  /** Eight units at 2^61 percent wrap to zero, and the conversion asks for one unit. */
  lemma CoreUnitsWrapExample()
    ensures CoreUnits(0x2000_0000_0000_0000, 8) == 1
    ensures !JustEnough(CoreUnits(0x2000_0000_0000_0000, 8), 0x2000_0000_0000_0000, 8)
  {
    CoreUnitsIff(0x2000_0000_0000_0000, 8);
  }

  /** Within int64 range a request stays within the reference just when it asks for at most 100 percent. */
  lemma CoreUnitsWithinReference(percent: int, units: int)
    requires units > 0 && MIN64 <= percent * units && percent * units + 99 <= MAX64
    ensures CoreUnits(percent, units) <= units <==> percent <= 100
  {
    hide CoreUnits;
    CoreUnitsIff(percent, units);
    if percent <= 100 {
      ProductMonotone(percent, 100, units);
    } else {
      ProductMonotone(101, percent, units);
    }
  }

  lemma ProductMonotone(a: int, b: int, c: int)
    requires a <= b && c >= 0
    ensures a * c <= b * c
  {
  }

  lemma CoreUnitsMonotone(p: int, q: int, units: int)
    requires p <= q && units > 0 && MIN64 <= p * units && q * units + 99 <= MAX64
    ensures CoreUnits(p, units) <= CoreUnits(q, units)
  {
    hide CoreUnits;
    ProductMonotone(p, q, units);
    CoreUnitsIff(p, units);
    CoreUnitsIff(q, units);
  }

  function Sum(s: seq<int>): int {
    if s == [] then 0 else Sum(s[..|s| - 1]) + s[|s| - 1]
  }

  function UnitsSum(percents: seq<int>, units: int): int {
    if percents == [] then 0
    else UnitsSum(percents[..|percents| - 1], units) + CoreUnits(percents[|percents| - 1], units)
  }

  lemma CoreUnitsBound(percent: int, units: int)
    requires percent >= 1 && units > 0 && percent * units + 99 <= MAX64
    ensures CoreUnits(percent, units) * 100 <= percent * units + 99
  {
    assert percent * units >= 1;
    CoreUnitsIff(percent, units);
  }

  lemma Distribute(a: int, b: int, c: int)
    ensures (a + b) * c == a * c + b * c
  {
  }

  lemma {:induction false} UnitsSumBound(percents: seq<int>, units: int)
    requires units > 0 && forall i | 0 <= i < |percents| :: 1 <= percents[i] && percents[i] * units + 99 <= MAX64
    ensures UnitsSum(percents, units) * 100 <= Sum(percents) * units + 99 * |percents|
  {
    hide CoreUnits;
    if percents != [] {
      var n := |percents| - 1;
      UnitsSumBound(percents[..n], units);
      CoreUnitsBound(percents[n], units);
      Distribute(Sum(percents[..n]), percents[n], units);
    }
  }

  /** Requests of at least one percent that share a device exceed its units by less than their number. */
  lemma SharedDeviceUnits(percents: seq<int>, units: int)
    requires units > 0 && percents != [] && Sum(percents) <= 100
    requires forall i | 0 <= i < |percents| :: 1 <= percents[i] && percents[i] * units + 99 <= MAX64
    ensures UnitsSum(percents, units) <= units + |percents| - 1
  {
    UnitsSumBound(percents, units);
    ProductMonotone(Sum(percents), 100, units);
  }

  /******* Vendor settings *******/

  datatype NvidiaConfig = NvidiaConfig(
    countName: string, memoryName: string, coreName: string, percentageName: string,
    deviceClassName: string, driverName: string)

  datatype HygonConfig = HygonConfig(
    countName: string, memoryName: string, coreName: string, deviceClassName: string, driverName: string,
    requestName: string, useUuid: string, noUseUuid: string, useType: string, noUseType: string, referenceUnits: int)

  datatype AmdConfig = AmdConfig(
    countName: string, memoryName: string, coreName: string, percentageName: string, deviceClassName: string,
    driverName: string, requestName: string, useUuid: string, noUseUuid: string, useType: string, noUseType: string,
    referenceUnits: int)

  datatype Chip = Chip(commonWord: string, resourceName: string, memoryName: string, coreName: string)

  datatype AscendConfig = AscendConfig(
    deviceClassName: string, driverName: string, requestName: string, useType: string, noUseType: string,
    devices: seq<Chip>,
    countName: string, memoryName: string, coreName: string, useUuid: string, noUseUuid: string)

  datatype Config = Config(
    vendors: seq<string>, legacyVendor: string,
    nvidia: NvidiaConfig, hygon: HygonConfig, amd: AmdConfig, ascend: AscendConfig)

  function NvidiaDevice(c: NvidiaConfig): DeviceConfig {
    DeviceConfig(
      NVIDIA, FirstNonEmpty(c.countName, "nvidia.com/gpu"), FirstNonEmpty(c.memoryName, "nvidia.com/gpumem"),
      FirstNonEmpty(c.coreName, "nvidia.com/gpucores"), c.percentageName, c.deviceClassName, c.driverName,
      "gpu", "hami-gpu", "", "",
      "nvidia.com/use-gpuuuid", "nvidia.com/nouse-gpuuuid", "nvidia.com/use-gputype", "nvidia.com/nouse-gputype",
      false, 0)
  }

  function HygonDevice(c: HygonConfig): DeviceConfig {
    DeviceConfig(
      HYGON, FirstNonEmpty(c.countName, "hygon.com/hcunum"), FirstNonEmpty(c.memoryName, "hygon.com/hcumem"),
      FirstNonEmpty(c.coreName, "hygon.com/hcucores"), "",
      FirstNonEmpty(c.deviceClassName, "dra.hygon.com"), FirstNonEmpty(c.driverName, "dra.hygon.com"),
      FirstNonEmpty(c.requestName, "hcu"), "hcu", "", "",
      FirstNonEmpty(c.useUuid, "hygon.com/use-gpuuuid"), FirstNonEmpty(c.noUseUuid, "hygon.com/nouse-gpuuuid"),
      FirstNonEmpty(c.useType, "hygon.com/use-hcutype"), FirstNonEmpty(c.noUseType, "hygon.com/nouse-hcutype"),
      false, c.referenceUnits)
  }

  function AmdDevice(c: AmdConfig): DeviceConfig {
    DeviceConfig(
      AMD, FirstNonEmpty(c.countName, "amd.com/gpu"), FirstNonEmpty(c.memoryName, "amd.com/gpumem"),
      FirstNonEmpty(c.coreName, "amd.com/gpucores"), FirstNonEmpty(c.percentageName, "amd.com/gpumem-percentage"),
      FirstNonEmpty(c.deviceClassName, "gpu.amd.com"), FirstNonEmpty(c.driverName, "gpu.amd.com"),
      FirstNonEmpty(c.requestName, "gpu"), "amdgpu", "computeUnits", "",
      FirstNonEmpty(c.useUuid, "amd.com/use-gpu-uuid"), FirstNonEmpty(c.noUseUuid, "amd.com/nouse-gpu-uuid"),
      FirstNonEmpty(c.useType, "amd.com/use-gputype"), FirstNonEmpty(c.noUseType, "amd.com/nouse-gputype"),
      true, c.referenceUnits)
  }

  function DefaultChip(word: string): Chip {
    Chip(word, "huawei.com/" + word, "huawei.com/" + word + "-memory", "huawei.com/" + word + "-core")
  }

  const DEFAULT_CHIPS: seq<string> := [
    "Ascend910A", "Ascend910B2", "Ascend910B3", "Ascend910B4-1", "Ascend910B4", "Ascend310P", "Ascend910C"]

  function LegacySingle(c: AscendConfig): bool {
    c.devices == [] && c.countName != ""
  }

  /** The configured chips, the one legacy chip, or the built-in ones. */
  function Chips(c: AscendConfig): seq<Chip> {
    if LegacySingle(c) then
      var trimmed := TrimPrefix(c.countName, "huawei.com/");
      var word := if trimmed == c.countName || trimmed == "" then "Ascend310P" else trimmed;
      [Chip(word, c.countName, FirstNonEmpty(c.memoryName, c.countName + "-memory"),
            FirstNonEmpty(c.coreName, c.countName + "-core"))]
    else if c.devices == [] then
      seq(|DEFAULT_CHIPS|, i requires 0 <= i < |DEFAULT_CHIPS| => DefaultChip(DEFAULT_CHIPS[i]))
    else c.devices
  }

  function AscendDevice(c: AscendConfig, chip: Chip): DeviceConfig {
    var word := FirstNonEmpty(chip.commonWord, TrimPrefix(chip.resourceName, "huawei.com/"));
    var use, noUse := "hami.io/use-" + word + "-uuid", "hami.io/no-use-" + word + "-uuid";
    DeviceConfig(
      ASCEND, chip.resourceName, chip.memoryName, chip.coreName, "",
      FirstNonEmpty(c.deviceClassName, "hami-vnpu-core.project-hami.io"),
      FirstNonEmpty(c.driverName, "ascend.project-hami.io"), FirstNonEmpty(c.requestName, "npu"),
      "HAMivNPUCore", "", word,
      if LegacySingle(c) then FirstNonEmpty(c.useUuid, use) else use,
      if LegacySingle(c) then FirstNonEmpty(c.noUseUuid, noUse) else noUse,
      FirstNonEmpty(c.useType, "hami.io/use-nputype"), FirstNonEmpty(c.noUseType, "hami.io/no-use-nputype"),
      false, 0)
  }

  /** One config per chip that names a resource. */
  function AscendDevices(c: AscendConfig, chips: seq<Chip>): (r: seq<DeviceConfig>)
    ensures forall d | d in r :: d.vendor == ASCEND && d.countName != ""
  {
    if chips == [] then []
    else
      var n := |chips| - 1;
      var before := AscendDevices(c, chips[..n]);
      if chips[n].resourceName == "" then before else before + [AscendDevice(c, chips[n])]
  }

  /** The places of the chips that name a resource, or of those that do not, in ascending order. */
  function PlacesOf(chips: seq<Chip>, named: bool): (r: seq<nat>)
    ensures forall i :: i in r <==> 0 <= i < |chips| && (chips[i].resourceName != "") == named
    ensures forall k | 0 <= k < |r| :: r[k] < |chips|
    ensures forall i, j | 0 <= i < j < |r| :: r[i] < r[j]
  {
    if chips == [] then []
    else
      var n := |chips| - 1;
      var before := PlacesOf(chips[..n], named);
      assert forall k | 0 <= k < |before| :: before[k] < n;
      if (chips[n].resourceName != "") == named then before + [n] else before
  }

  /** The configs are those of the chips that name a resource, one for each, in the order of the chips. */
  lemma {:induction false} AscendDevicesAre(c: AscendConfig, chips: seq<Chip>)
    ensures var devices, at := AscendDevices(c, chips), PlacesOf(chips, true);
            |devices| == |at| && forall k | 0 <= k < |at| :: devices[k] == AscendDevice(c, chips[at[k]])
  {
    hide AscendDevice, PlacesOf, AscendDevices;
    if chips == [] {
      NoChips(c);
    } else {
      var n := |chips| - 1;
      AscendDevicesAre(c, chips[..n]);
      AscendDevicesMore(c, chips);
    }
  }

  lemma NoChips(c: AscendConfig)
    ensures AscendDevices(c, []) == [] && PlacesOf([], true) == []
  {
  }

  lemma AscendDevicesMore(c: AscendConfig, chips: seq<Chip>)
    requires chips != []
    ensures var n := |chips| - 1;
            if chips[n].resourceName == "" then
              AscendDevices(c, chips) == AscendDevices(c, chips[..n])
              && PlacesOf(chips, true) == PlacesOf(chips[..n], true)
            else
              AscendDevices(c, chips) == AscendDevices(c, chips[..n]) + [AscendDevice(c, chips[n])]
              && PlacesOf(chips, true) == PlacesOf(chips[..n], true) + [n]
  {
    hide AscendDevice;
  }

  /** The loop over the chips; the second result lists the chips without a resource name, for the error. */
  method DraDevicesFromAscend(c: AscendConfig) returns (out: seq<DeviceConfig>, empty: seq<nat>)
    ensures out == AscendDevices(c, Chips(c))
    ensures empty == PlacesOf(Chips(c), false)
  {
    var chips := Chips(c);
    out, empty := [], [];
    assert chips[..0] == [];
    for i := 0 to |chips|
      invariant out == AscendDevices(c, chips[..i])
      invariant empty == PlacesOf(chips[..i], false)
    {
      assert chips[..i + 1][..i] == chips[..i];
      if chips[i].resourceName == "" {
        empty := empty + [i];
      } else {
        out := out + [AscendDevice(c, chips[i])];
      }
    }
    assert chips[..|chips|] == chips;
  }

  predicate Supported(vendor: string) {
    vendor == NVIDIA || vendor == HYGON || vendor == AMD || vendor == ASCEND
  }

  function VendorConfigs(c: Config, vendor: string): (r: seq<DeviceConfig>)
    ensures forall d | d in r :: d.vendor == vendor
  {
    if vendor == NVIDIA then [NvidiaDevice(c.nvidia)]
    else if vendor == HYGON then [HygonDevice(c.hygon)]
    else if vendor == AMD then [AmdDevice(c.amd)]
    else if vendor == ASCEND then AscendDevices(c.ascend, Chips(c.ascend))
    else []
  }

  /** The switch over a supported vendor. */
  method ConfigsOfVendor(c: Config, vendor: string) returns (configs: seq<DeviceConfig>)
    requires Supported(vendor)
    ensures configs == VendorConfigs(c, vendor)
  {
    if vendor == NVIDIA {
      configs := [NvidiaDevice(c.nvidia)];
    } else if vendor == HYGON {
      configs := [HygonDevice(c.hygon)];
    } else if vendor == AMD {
      configs := [AmdDevice(c.amd)];
    } else {
      var empty;
      configs, empty := DraDevicesFromAscend(c.ascend);
    }
  }

  /** The configs of the vendors, vendor by vendor. */
  function AllConfigs(c: Config, vendors: seq<string>): seq<DeviceConfig> {
    if vendors == [] then []
    else AllConfigs(c, vendors[..|vendors| - 1]) + VendorConfigs(c, vendors[|vendors| - 1])
  }

  /******* What the configs say *******/

  /** A setting is the configured text, or its default where that is empty. */
  predicate Set(setting: string, configured: string, default': string) {
    (configured != "" ==> setting == configured) && (configured == "" ==> setting == default')
  }

  predicate NvidiaSet(c: NvidiaConfig, d: DeviceConfig) {
    && d.vendor == "nvidia" && Set(d.countName, c.countName, "nvidia.com/gpu")
    && Set(d.memoryName, c.memoryName, "nvidia.com/gpumem") && Set(d.coreName, c.coreName, "nvidia.com/gpucores")
    && d.percentageName == c.percentageName && d.deviceClassName == c.deviceClassName && d.driverName == c.driverName
    && d.requestName == "gpu" && d.deviceType == "hami-gpu" && d.coreCapacityName == "" && d.commonWord == ""
    && d.useUuid == "nvidia.com/use-gpuuuid" && d.noUseUuid == "nvidia.com/nouse-gpuuuid"
    && d.useType == "nvidia.com/use-gputype" && d.noUseType == "nvidia.com/nouse-gputype"
    && !d.typeSubstring && d.referenceUnits == 0
  }

  predicate HygonSet(c: HygonConfig, d: DeviceConfig) {
    && d.vendor == "hygon" && Set(d.countName, c.countName, "hygon.com/hcunum")
    && Set(d.memoryName, c.memoryName, "hygon.com/hcumem") && Set(d.coreName, c.coreName, "hygon.com/hcucores")
    && d.percentageName == "" && Set(d.deviceClassName, c.deviceClassName, "dra.hygon.com")
    && Set(d.driverName, c.driverName, "dra.hygon.com") && Set(d.requestName, c.requestName, "hcu")
    && d.deviceType == "hcu" && d.coreCapacityName == "" && d.commonWord == ""
    && Set(d.useUuid, c.useUuid, "hygon.com/use-gpuuuid") && Set(d.noUseUuid, c.noUseUuid, "hygon.com/nouse-gpuuuid")
    && Set(d.useType, c.useType, "hygon.com/use-hcutype") && Set(d.noUseType, c.noUseType, "hygon.com/nouse-hcutype")
    && !d.typeSubstring && d.referenceUnits == c.referenceUnits
  }

  predicate AmdSet(c: AmdConfig, d: DeviceConfig) {
    && d.vendor == "amd" && Set(d.countName, c.countName, "amd.com/gpu")
    && Set(d.memoryName, c.memoryName, "amd.com/gpumem") && Set(d.coreName, c.coreName, "amd.com/gpucores")
    && Set(d.percentageName, c.percentageName, "amd.com/gpumem-percentage")
    && Set(d.deviceClassName, c.deviceClassName, "gpu.amd.com") && Set(d.driverName, c.driverName, "gpu.amd.com")
    && Set(d.requestName, c.requestName, "gpu")
    && d.deviceType == "amdgpu" && d.coreCapacityName == "computeUnits" && d.commonWord == ""
    && Set(d.useUuid, c.useUuid, "amd.com/use-gpu-uuid") && Set(d.noUseUuid, c.noUseUuid, "amd.com/nouse-gpu-uuid")
    && Set(d.useType, c.useType, "amd.com/use-gputype") && Set(d.noUseType, c.noUseType, "amd.com/nouse-gputype")
    && d.typeSubstring && d.referenceUnits == c.referenceUnits
  }

  /** The settings that all chips have from the section for Ascend. */
  predicate AscendSet(c: AscendConfig, d: DeviceConfig) {
    && d.vendor == "ascend" && d.percentageName == "" && d.deviceType == "HAMivNPUCore" && d.coreCapacityName == ""
    && Set(d.deviceClassName, c.deviceClassName, "hami-vnpu-core.project-hami.io")
    && Set(d.driverName, c.driverName, "ascend.project-hami.io") && Set(d.requestName, c.requestName, "npu")
    && Set(d.useType, c.useType, "hami.io/use-nputype") && Set(d.noUseType, c.noUseType, "hami.io/no-use-nputype")
    && !d.typeSubstring && d.referenceUnits == 0
  }

  /** A listed chip keeps its names; its word is its own, or what follows "huawei.com/" in its resource name. */
  predicate ChipSet(chip: Chip, d: DeviceConfig) {
    && d.countName == chip.resourceName && d.memoryName == chip.memoryName && d.coreName == chip.coreName
    && (if chip.commonWord != "" then d.commonWord == chip.commonWord
        else if "huawei.com/" <= chip.resourceName then "huawei.com/" + d.commonWord == chip.resourceName
        else d.commonWord == chip.resourceName)
    && d.useUuid == "hami.io/use-" + d.commonWord + "-uuid"
    && d.noUseUuid == "hami.io/no-use-" + d.commonWord + "-uuid"
  }

  /** Without listed chips a configured count name stands for one chip. */
  predicate LegacySet(c: AscendConfig, d: DeviceConfig) {
    && d.countName == c.countName && Set(d.memoryName, c.memoryName, c.countName + "-memory")
    && Set(d.coreName, c.coreName, c.countName + "-core")
    && (if "huawei.com/" <= c.countName && c.countName != "huawei.com/" then "huawei.com/" + d.commonWord == c.countName
        else d.commonWord == "Ascend310P")
    && Set(d.useUuid, c.useUuid, "hami.io/use-" + d.commonWord + "-uuid")
    && Set(d.noUseUuid, c.noUseUuid, "hami.io/no-use-" + d.commonWord + "-uuid")
  }

  predicate BuiltinSet(word: string, d: DeviceConfig) {
    && d.commonWord == word && d.countName == "huawei.com/" + word
    && d.memoryName == "huawei.com/" + word + "-memory" && d.coreName == "huawei.com/" + word + "-core"
    && d.useUuid == "hami.io/use-" + word + "-uuid" && d.noUseUuid == "hami.io/no-use-" + word + "-uuid"
  }

  /** The listed chips that name a resource, in their order; or the legacy chip; or the seven built-in ones. */
  predicate AscendBlock(c: AscendConfig, cfgs: seq<DeviceConfig>) {
    var builtin :=
      ["Ascend910A", "Ascend910B2", "Ascend910B3", "Ascend910B4-1", "Ascend910B4", "Ascend310P", "Ascend910C"];
    var named := PlacesOf(c.devices, true);
    && (forall k | 0 <= k < |cfgs| :: AscendSet(c, cfgs[k]))
    && if c.devices != [] then
         |cfgs| == |named| && forall k | 0 <= k < |cfgs| :: ChipSet(c.devices[named[k]], cfgs[k])
       else if c.countName != "" then |cfgs| == 1 && LegacySet(c, cfgs[0])
       else |cfgs| == 7 && forall k | 0 <= k < 7 :: BuiltinSet(builtin[k], cfgs[k])
  }

  /** What one vendor is configured to, setting by setting. */
  predicate VendorSet(c: Config, vendor: string, cfgs: seq<DeviceConfig>) {
    && (vendor == "nvidia" ==> |cfgs| == 1 && NvidiaSet(c.nvidia, cfgs[0]))
    && (vendor == "hygon" ==> |cfgs| == 1 && HygonSet(c.hygon, cfgs[0]))
    && (vendor == "amd" ==> |cfgs| == 1 && AmdSet(c.amd, cfgs[0]))
    && (vendor == "ascend" ==> AscendBlock(c.ascend, cfgs))
    && (vendor !in ["nvidia", "hygon", "amd", "ascend"] ==> cfgs == [])
  }

  /** The configs are blocks of the vendors, in the order of selection. */
  ghost predicate ResolvedTo(c: Config, selected: seq<string>, cfgs: seq<DeviceConfig>) {
    if selected == [] then cfgs == []
    else
      var n := |selected| - 1;
      exists m | 0 <= m <= |cfgs| :: ResolvedTo(c, selected[..n], cfgs[..m]) && VendorSet(c, selected[n], cfgs[m..])
  }

  lemma ChipMeaning(c: AscendConfig, chip: Chip)
    requires c.devices != []
    ensures AscendSet(c, AscendDevice(c, chip)) && ChipSet(chip, AscendDevice(c, chip))
  {
  }

  lemma LegacyMeaning(c: AscendConfig)
    requires c.devices == [] && c.countName != ""
    ensures AscendBlock(c, AscendDevices(c, Chips(c)))
  {
    var chips := Chips(c);
    assert chips[..0] == [] && AscendDevices(c, []) == [];
    assert AscendDevices(c, chips) == [AscendDevice(c, chips[0])];
  }

  lemma BuiltinMeaning(c: AscendConfig, k: nat)
    requires c.devices == [] && c.countName == "" && k < 7
    ensures var d := AscendDevice(c, Chips(c)[k]);
            AscendSet(c, d) && BuiltinSet(DEFAULT_CHIPS[k], d)
  {
  }

  lemma {:induction false} AllPlaces(chips: seq<Chip>)
    requires forall k | 0 <= k < |chips| :: chips[k].resourceName != ""
    ensures |PlacesOf(chips, true)| == |chips|
    ensures forall k | 0 <= k < |chips| :: PlacesOf(chips, true)[k] == k
  {
    if chips != [] { AllPlaces(chips[..|chips| - 1]); }
  }

  lemma AscendMeaning(c: AscendConfig)
    ensures AscendBlock(c, AscendDevices(c, Chips(c)))
  {
    hide AscendDevice, AscendDevices, ChipSet, AscendSet, BuiltinSet;
    var chips := Chips(c);
    AscendDevicesAre(c, chips);
    if c.devices != [] {
      forall chip ensures AscendSet(c, AscendDevice(c, chip)) && ChipSet(chip, AscendDevice(c, chip)) {
        ChipMeaning(c, chip);
      }
    } else if c.countName != "" {
      LegacyMeaning(c);
    } else {
      AllPlaces(chips);
      forall k: nat | k < 7
        ensures AscendSet(c, AscendDevice(c, chips[k])) && BuiltinSet(DEFAULT_CHIPS[k], AscendDevice(c, chips[k]))
      {
        BuiltinMeaning(c, k);
      }
    }
  }

  lemma VendorMeaning(c: Config, vendor: string)
    ensures VendorSet(c, vendor, VendorConfigs(c, vendor))
  {
    hide AscendBlock, AscendDevices;
    AscendMeaning(c.ascend);
  }

  /** The configs of any vendors hold, setting by setting, what is configured, and otherwise the defaults. */
  lemma {:induction false} ConfigsMeaning(c: Config, vendors: seq<string>)
    ensures ResolvedTo(c, vendors, AllConfigs(c, vendors))
  {
    hide VendorConfigs, VendorSet;
    if vendors != [] {
      var n := |vendors| - 1;
      var all, m := AllConfigs(c, vendors), |AllConfigs(c, vendors[..n])|;
      ConfigsMeaning(c, vendors[..n]);
      VendorMeaning(c, vendors[n]);
      assert all[..m] == AllConfigs(c, vendors[..n]) && all[m..] == VendorConfigs(c, vendors[n]);
    }
  }

  lemma ChipSetUnique(c: AscendConfig, chip: Chip, d: DeviceConfig, e: DeviceConfig)
    requires AscendSet(c, d) && ChipSet(chip, d) && AscendSet(c, e) && ChipSet(chip, e)
    ensures d == e
  {
    SameWord(d.commonWord, e.commonWord);
  }

  lemma LegacySetUnique(c: AscendConfig, d: DeviceConfig, e: DeviceConfig)
    requires AscendSet(c, d) && LegacySet(c, d) && AscendSet(c, e) && LegacySet(c, e)
    ensures d == e
  {
    SameWord(d.commonWord, e.commonWord);
  }

  lemma BuiltinSetUnique(c: AscendConfig, word: string, d: DeviceConfig, e: DeviceConfig)
    requires AscendSet(c, d) && BuiltinSet(word, d) && AscendSet(c, e) && BuiltinSet(word, e)
    ensures d == e
  {
  }

  lemma AscendBlockUnique(c: AscendConfig, x: seq<DeviceConfig>, y: seq<DeviceConfig>)
    requires AscendBlock(c, x) && AscendBlock(c, y)
    ensures x == y
  {
    hide AscendSet, ChipSet, LegacySet, BuiltinSet, PlacesOf;
    forall k | 0 <= k < |x| ensures |x| == |y| && x[k] == y[k] {
      if c.devices != [] {
        ChipSetUnique(c, c.devices[PlacesOf(c.devices, true)[k]], x[k], y[k]);
      } else if c.countName != "" {
        LegacySetUnique(c, x[k], y[k]);
      } else {
        BuiltinSetUnique(c, DEFAULT_CHIPS[k], x[k], y[k]);
      }
    }
  }

  /** The settings determine the configs. */
  lemma VendorSetUnique(c: Config, vendor: string, x: seq<DeviceConfig>, y: seq<DeviceConfig>)
    requires VendorSet(c, vendor, x) && VendorSet(c, vendor, y)
    ensures x == y
  {
    hide AscendBlock;
    if vendor == "ascend" { AscendBlockUnique(c.ascend, x, y); }
  }

  lemma SameWord(v: string, w: string)
    ensures "huawei.com/" + v == "huawei.com/" + w ==> v == w
  {
    if "huawei.com/" + v == "huawei.com/" + w {
      assert v == ("huawei.com/" + v)[11..] && w == ("huawei.com/" + w)[11..];
    }
  }

  lemma {:induction false} ResolvedUnique(c: Config, selected: seq<string>, x: seq<DeviceConfig>, y: seq<DeviceConfig>)
    requires ResolvedTo(c, selected, x) && ResolvedTo(c, selected, y)
    ensures x == y
  {
    hide VendorSet;
    if selected != [] {
      var n := |selected| - 1;
      var i :| 0 <= i <= |x| && ResolvedTo(c, selected[..n], x[..i]) && VendorSet(c, selected[n], x[i..]);
      var j :| 0 <= j <= |y| && ResolvedTo(c, selected[..n], y[..j]) && VendorSet(c, selected[n], y[j..]);
      ResolvedUnique(c, selected[..n], x[..i], y[..j]);
      VendorSetUnique(c, selected[n], x[i..], y[j..]);
      assert x == x[..i] + x[i..] && y == y[..j] + y[j..];
    }
  }

  /** A vendor has configs if it is supported, and for Ascend unless no listed chip names a resource. */
  lemma VendorConfiguredIff(c: Config, vendor: string)
    ensures Supported(vendor) && VendorConfigs(c, vendor) != [] <==>
      || vendor in ["nvidia", "hygon", "amd"]
      || (vendor == "ascend" &&
            (c.ascend.devices == [] || exists chip :: chip in c.ascend.devices && chip.resourceName != ""))
  {
    hide AscendDevices;
    AscendMeaning(c.ascend);
    var named := PlacesOf(c.ascend.devices, true);
    if chip :| chip in c.ascend.devices && chip.resourceName != "" {
      var i :| 0 <= i < |c.ascend.devices| && c.ascend.devices[i] == chip;
      assert i in named;
    }
    if named != [] { assert named[0] in named && c.ascend.devices[named[0]] in c.ascend.devices; }
  }

  /******* Resolution *******/

  /** Nonempty resource names are used once, in one place of one config. */
  predicate NamesDistinct(cfgs: seq<DeviceConfig>) {
    forall i, j, k, l | 0 <= i < |cfgs| && 0 <= j < |cfgs| && 0 <= k < 4 && 0 <= l < 4 ::
      cfgs[i].Names()[k] != "" && cfgs[i].Names()[k] == cfgs[j].Names()[l] ==> i == j && k == l
  }

  predicate SuffixesDistinct(cfgs: seq<DeviceConfig>) {
    forall i, j | 0 <= i < j < |cfgs| :: cfgs[i].Suffix() != cfgs[j].Suffix()
  }

  predicate Admissible(cfgs: seq<DeviceConfig>) {
    && (forall i | 0 <= i < |cfgs| :: cfgs[i].countName != "")
    && NamesDistinct(cfgs)
    && SuffixesDistinct(cfgs)
  }

  predicate Distinct(s: seq<string>) {
    forall i, j | 0 <= i < j < |s| :: s[i] != s[j]
  }

  predicate Resolvable(c: Config, selected: seq<string>) {
    && c.legacyVendor == "" && selected != [] && Distinct(selected)
    && (forall v | v in selected :: Supported(v) && VendorConfigs(c, v) != [])
    && Admissible(AllConfigs(c, selected))
  }

  ghost function NamesIn(cfgs: seq<DeviceConfig>): set<string> {
    set i, k | 0 <= i < |cfgs| && 0 <= k < 4 && cfgs[i].Names()[k] != "" :: cfgs[i].Names()[k]
  }

  ghost function SuffixesIn(cfgs: seq<DeviceConfig>): set<string> {
    set i | 0 <= i < |cfgs| :: cfgs[i].Suffix()
  }

  /** The config clashes neither with itself nor with what has been seen. */
  predicate Fits(cfg: DeviceConfig, resources: set<string>, suffixes: set<string>) {
    && cfg.countName != ""
    && NamesFit(cfg, resources, 4)
    && cfg.Suffix() !in suffixes
  }

  /** The first n names of the config are new and used once. */
  predicate NamesFit(cfg: DeviceConfig, resources: set<string>, n: nat)
    requires n <= 4
  {
    forall k | 0 <= k < n && cfg.Names()[k] != "" ::
      cfg.Names()[k] !in resources && forall l | 0 <= l < k :: cfg.Names()[l] != cfg.Names()[k]
  }

  lemma AdmissibleMore(cfgs: seq<DeviceConfig>, cfg: DeviceConfig)
    ensures Admissible(cfgs + [cfg]) <==> Admissible(cfgs) && Fits(cfg, NamesIn(cfgs), SuffixesIn(cfgs))
  {
    var all, n := cfgs + [cfg], |cfgs|;
    assert all[n] == cfg && forall i | 0 <= i < n :: all[i] == cfgs[i];
    if Admissible(all) {
      forall k | 0 <= k < 4 && cfg.Names()[k] != ""
        ensures cfg.Names()[k] !in NamesIn(cfgs) && forall l | 0 <= l < k :: cfg.Names()[l] != cfg.Names()[k]
      {
        assert all[n].Names()[k] != "";
      }
      assert forall i | 0 <= i < n :: all[i].Suffix() != all[n].Suffix();
    }
    if Admissible(cfgs) && Fits(cfg, NamesIn(cfgs), SuffixesIn(cfgs)) {
      assert forall i, k | 0 <= i < n && 0 <= k < 4 && cfgs[i].Names()[k] != "" :: cfgs[i].Names()[k] in NamesIn(cfgs);
    }
  }

  lemma SeenMore(cfgs: seq<DeviceConfig>, cfg: DeviceConfig)
    ensures NamesIn(cfgs + [cfg]) == NamesIn(cfgs) + set k | 0 <= k < 4 && cfg.Names()[k] != "" :: cfg.Names()[k]
    ensures SuffixesIn(cfgs + [cfg]) == SuffixesIn(cfgs) + {cfg.Suffix()}
  {
    var all, n := cfgs + [cfg], |cfgs|;
    assert all[n] == cfg && forall i | 0 <= i < n :: all[i] == cfgs[i];
    assert forall x | x in NamesIn(cfgs) :: x in NamesIn(all) by {
      forall x | x in NamesIn(cfgs) ensures x in NamesIn(all) {
        var i, k :| 0 <= i < n && 0 <= k < 4 && cfgs[i].Names()[k] != "" && x == cfgs[i].Names()[k];
        assert all[i].Names()[k] == x;
      }
    }
    forall k | 0 <= k < 4 && cfg.Names()[k] != "" ensures cfg.Names()[k] in NamesIn(all) {
      assert all[n].Names()[k] == cfg.Names()[k];
    }
    forall x | x in SuffixesIn(cfgs) ensures x in SuffixesIn(all) {
      var i :| 0 <= i < n && x == cfgs[i].Suffix();
      assert all[i].Suffix() == x;
    }
    assert all[n].Suffix() in SuffixesIn(all);
  }

  lemma {:induction false} AdmissiblePrefix(a: seq<DeviceConfig>, b: seq<DeviceConfig>)
    requires Admissible(a + b)
    ensures Admissible(a)
  {
    assert forall i | 0 <= i < |a| :: (a + b)[i] == a[i];
  }

  lemma AllConfigsPrefix(c: Config, vendors: seq<string>, i: nat)
    requires i <= |vendors|
    ensures AllConfigs(c, vendors[..i]) <= AllConfigs(c, vendors)
    decreases |vendors| - i
  {
    if i == |vendors| {
      assert vendors[..i] == vendors;
    } else {
      assert vendors[..i + 1][..i] == vendors[..i];
      AllConfigsPrefix(c, vendors, i + 1);
    }
  }

  /** A clash found while adding a config of vendor i rules the whole selection out. */
  lemma ClashRefused(c: Config, vendors: seq<string>, i: nat, j: nat)
    requires i < |vendors| && j < |VendorConfigs(c, vendors[i])|
    requires var soFar := AllConfigs(c, vendors[..i]) + VendorConfigs(c, vendors[i])[..j];
             !Fits(VendorConfigs(c, vendors[i])[j], NamesIn(soFar), SuffixesIn(soFar))
    ensures !Admissible(AllConfigs(c, vendors))
  {
    hide Admissible, Fits, VendorConfigs;
    var configs := VendorConfigs(c, vendors[i]);
    var soFar := AllConfigs(c, vendors[..i]) + configs[..j];
    AdmissibleMore(soFar, configs[j]);
    AllConfigsPrefix(c, vendors, i + 1);
    assert vendors[..i + 1][..i] == vendors[..i];
    var all := AllConfigs(c, vendors);
    assert soFar + [configs[j]] == AllConfigs(c, vendors[..i]) + configs[..j + 1];
    assert soFar + [configs[j]] <= AllConfigs(c, vendors[..i + 1]) <= all;
    if Admissible(all) {
      assert all == (soFar + [configs[j]]) + all[|soFar| + 1..];
      AdmissiblePrefix(soFar + [configs[j]], all[|soFar| + 1..]);
    }
  }

  /** The loops over the names of one config and its suffix. */
  method CheckConfig(cfg: DeviceConfig, resources: set<string>, suffixes: set<string>)
    returns (ok: bool, seen: set<string>)
    ensures ok <==> Fits(cfg, resources, suffixes)
    ensures ok ==> seen == resources + set k | 0 <= k < 4 && cfg.Names()[k] != "" :: cfg.Names()[k]
  {
    var names := cfg.Names();
    seen := resources;
    if cfg.countName == "" { return false, seen; }
    for k := 0 to 4
      invariant NamesFit(cfg, resources, k)
      invariant seen == resources + set x | 0 <= x < k && names[x] != "" :: names[x]
    {
      if names[k] != "" {
        if names[k] in seen {
          assert !NamesFit(cfg, resources, 4);
          return false, seen;
        }
        seen := seen + {names[k]};
      }
    }
    ok := cfg.Suffix() !in suffixes;
  }

  /**
   Resolution succeeds exactly on the admissible selections, and then yields the configs of the
   selected vendors, vendor by vendor, each as it is configured.
   */
  method DRADevices(c: Config, vendors: seq<string>) returns (r: Result<seq<DeviceConfig>>)
    ensures var selected := if vendors == [] then c.vendors else vendors;
      && (r.Success? <==> Resolvable(c, selected))
      && (r.Success? ==> r.value == AllConfigs(c, selected) && ResolvedTo(c, selected, r.value))
  {
    hide Fits, Admissible, NamesIn, SuffixesIn, VendorConfigs, ResolvedTo;
    var selected := vendors;
    if |selected| == 0 { selected := c.vendors; }
    if c.legacyVendor != "" || selected == [] { return Failure; }
    var seenVendors: set<string> := {};
    var resources, suffixes: set<string> := {}, {};
    var result: seq<DeviceConfig> := [];
    NothingSeen();
    assert selected[..0] == [];
    for i := 0 to |selected|
      invariant seenVendors == set x | 0 <= x < i :: selected[x]
      invariant Distinct(selected[..i])
      invariant forall v | v in selected[..i] :: Supported(v) && VendorConfigs(c, v) != []
      invariant result == AllConfigs(c, selected[..i]) && Admissible(result)
      invariant resources == NamesIn(result) && suffixes == SuffixesIn(result)
    {
      assert selected[..i + 1][..i] == selected[..i];
      var vendor := selected[i];
      if vendor in seenVendors {
        assert !Distinct(selected);
        return Failure;
      }
      seenVendors := seenVendors + {vendor};
      if !Supported(vendor) { return Failure; }
      var configs := ConfigsOfVendor(c, vendor);
      if configs == [] { return Failure; }
      assert configs[..0] == [] && result + [] == result;
      for j := 0 to |configs|
        invariant result == AllConfigs(c, selected[..i]) + configs[..j] && Admissible(result)
        invariant resources == NamesIn(result) && suffixes == SuffixesIn(result)
      {
        var ok, seen := CheckConfig(configs[j], resources, suffixes);
        if !ok {
          ClashRefused(c, selected, i, j);
          return Failure;
        }
        AdmissibleMore(result, configs[j]);
        SeenMore(result, configs[j]);
        assert result + [configs[j]] == AllConfigs(c, selected[..i]) + configs[..j + 1];
        result := result + [configs[j]];
        resources, suffixes := seen, suffixes + {configs[j].Suffix()};
      }
      assert configs[..|configs|] == configs;
    }
    assert selected[..|selected|] == selected;
    ConfigsMeaning(c, selected);
    return Success(result);
  }

  lemma NothingSeen()
    ensures Admissible([]) && NamesIn([]) == {} && SuffixesIn([]) == {}
  {
  }

  /** Every selected vendor is represented, by a block of its own configs in the order of selection. */
  lemma VendorBlock(c: Config, vendors: seq<string>, i: nat)
    requires Resolvable(c, vendors) && i < |vendors|
    ensures var start, end := |AllConfigs(c, vendors[..i])|, |AllConfigs(c, vendors[..i + 1])|;
            && start < end <= |AllConfigs(c, vendors)|
            && AllConfigs(c, vendors)[start..end] == VendorConfigs(c, vendors[i])
            && forall k | start <= k < end :: AllConfigs(c, vendors)[k].vendor == vendors[i]
  {
    hide Admissible, VendorConfigs;
    AllConfigsPrefix(c, vendors, i + 1);
    assert vendors[..i + 1][..i] == vendors[..i];
    var all, start, end := AllConfigs(c, vendors), |AllConfigs(c, vendors[..i])|, |AllConfigs(c, vendors[..i + 1])|;
    assert all[start..end] == VendorConfigs(c, vendors[i]);
    forall k | start <= k < end ensures all[k].vendor == vendors[i] {
      assert all[k] == all[start..end][k - start];
    }
  }

  /******* The built-in suffixes *******/

  lemma TailHasDash(s: string, t: string)
    requires Tail(s, t)
    ensures exists i :: 0 <= i < |t| && t[i] == '-' && s == t[i + 1..]
  {
    var u :| t == u + "-" + s;
    assert t[|u|] == '-' && s == t[|u| + 1..];
  }

  const BUILTIN_SUFFIXES: seq<string> := [
    "nvidia", "hygon", "amd", "ascend910a", "ascend910b2", "ascend910b3", "ascend910b4-1", "ascend910b4",
    "ascend310p", "ascend910c"]

  /** The literals are longer than what follows a dash in any of them. */
  lemma LiteralDash(t: string)
    requires t in BUILTIN_SUFFIXES
    ensures |t| > 1 && forall k | 0 <= k < |t| && t[k] == '-' :: k + 2 == |t|
  {
  }

  /** The literal suffixes keep names apart. */
  lemma LiteralsSeparate(s: string, t: string)
    requires s in BUILTIN_SUFFIXES && t in BUILTIN_SUFFIXES
    ensures Separates(s, t)
  {
    LiteralDash(s);
    LiteralDash(t);
    NoTail(s, t);
    NoTail(t, s);
    SeparatesIff(s, t);
  }

  lemma NoTail(s: string, t: string)
    requires |s| > 1 && forall k | 0 <= k < |t| && t[k] == '-' :: k + 2 == |t|
    ensures !Tail(s, t)
  {
    if Tail(s, t) { TailHasDash(s, t); }
  }

  /** The suffixes of the built-in chips are their names in lower case. */
  lemma ChipSuffix(i: nat)
    requires i < |DEFAULT_CHIPS|
    ensures ToLower(DEFAULT_CHIPS[i]) == BUILTIN_SUFFIXES[i + 3]
  {
    var word, suffix := DEFAULT_CHIPS[i], BUILTIN_SUFFIXES[i + 3];
    assert |word| == |suffix|;
    assert forall k | 0 <= k < |word| :: ToLower(word)[k] == suffix[k];
  }

  lemma {:induction false} ChipsSuffixed(c: AscendConfig, n: nat)
    requires c.devices == [] && c.countName == "" && n <= |DEFAULT_CHIPS|
    ensures forall d | d in AscendDevices(c, Chips(c)[..n]) :: d.Suffix() in BUILTIN_SUFFIXES
  {
    hide ToLower;
    if n > 0 {
      ChipsSuffixed(c, n - 1);
      assert Chips(c)[..n][..n - 1] == Chips(c)[..n - 1];
      ChipSuffix(n - 1);
      assert Chips(c)[n - 1].commonWord == DEFAULT_CHIPS[n - 1] != "";
    }
  }

  lemma VendorSuffixed(c: Config, vendor: string)
    requires c.ascend.devices == [] && c.ascend.countName == ""
    ensures forall d | d in VendorConfigs(c, vendor) :: d.Suffix() in BUILTIN_SUFFIXES
  {
    hide ToLower;
    ChipsSuffixed(c.ascend, |DEFAULT_CHIPS|);
    assert Chips(c.ascend)[..|DEFAULT_CHIPS|] == Chips(c.ascend);
    assert BUILTIN_SUFFIXES[0] == NVIDIA && BUILTIN_SUFFIXES[1] == HYGON && BUILTIN_SUFFIXES[2] == AMD;
  }

  lemma {:induction false} ConfigsSuffixed(c: Config, vendors: seq<string>)
    requires c.ascend.devices == [] && c.ascend.countName == ""
    ensures forall d | d in AllConfigs(c, vendors) :: d.Suffix() in BUILTIN_SUFFIXES
  {
    hide VendorConfigs;
    if vendors != [] {
      ConfigsSuffixed(c, vendors[..|vendors| - 1]);
      VendorSuffixed(c, vendors[|vendors| - 1]);
    }
  }

  /** With the built-in chips, any two configs of any vendors keep the claim names of a pod apart. */
  lemma BuiltinSuffixesSeparate(c: Config, vendors: seq<string>, d: DeviceConfig, e: DeviceConfig)
    requires c.ascend.devices == [] && c.ascend.countName == ""
    requires d in AllConfigs(c, vendors) && e in AllConfigs(c, vendors)
    ensures Separates(d.Suffix(), e.Suffix())
  {
    ConfigsSuffixed(c, vendors);
    LiteralsSeparate(d.Suffix(), e.Suffix());
  }
}
