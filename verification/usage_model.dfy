/**
 The objects the monitor is told about and the abstract state of its device-usage cache,
 with one step function per informer callback (pkg/cache).
 */
module UsageModel {
  import opened Options
  import opened StringOrder

  /******* ResourceSlices *******/

  datatype PublishedDevice = PublishedDevice(
    name: string,
    capacity: map<string, int>,
    // Only the string-valued attributes; a missing key also stands for a value of another type.
    attributes: map<string, string>)

  datatype ResourceSlice = ResourceSlice(
    name: string,
    nodeName: Option<string>,
    driver: string,
    devices: seq<PublishedDevice>)

  /** The immutable part of a NodeDevice. */
  datatype DeviceInfo = DeviceInfo(
    name: string, driver: string, uuid: string, architecture: string, brand: string, productName: string,
    coresTotal: int, coreScale: int, memoryTotal: int)

  function Attribute(d: PublishedDevice, key: string): string {
    if key in d.attributes then d.attributes[key] else ""
  }

  function ParseDevice(d: PublishedDevice, driver: string): DeviceInfo {
    var byUnits := "cores" !in d.capacity && "computeUnits" in d.capacity;
    DeviceInfo(
      d.name, driver, Attribute(d, "uuid"), Attribute(d, "architecture"), Attribute(d, "brand"),
      Attribute(d, "productName"),
      if byUnits then d.capacity["computeUnits"] else Lookup(d.capacity, "cores"),
      if byUnits then d.capacity["computeUnits"] else 100,
      Lookup(d.capacity, "memory"))
  }

  function ParseSlice(s: ResourceSlice): (r: seq<DeviceInfo>)
    ensures |r| == |s.devices|
  {
    seq(|s.devices|, i requires 0 <= i < |s.devices| => ParseDevice(s.devices[i], s.driver))
  }

  /** The attribute is the string published under the key, or empty. */
  predicate AttributeIs(value: string, d: PublishedDevice, key: string) {
    (key in d.attributes ==> value == d.attributes[key]) && (key !in d.attributes ==> value == "")
  }

  /** Cores are on a scale of 100, except for a device that publishes compute units and no cores. */
  lemma ParsedMeaning(s: ResourceSlice, i: nat)
    requires i < |s.devices|
    ensures var d, info := s.devices[i], ParseSlice(s)[i];
      && info.name == d.name && info.driver == s.driver
      && AttributeIs(info.uuid, d, "uuid") && AttributeIs(info.productName, d, "productName")
      && AttributeIs(info.architecture, d, "architecture") && AttributeIs(info.brand, d, "brand")
      && ("cores" in d.capacity ==> info.coresTotal == d.capacity["cores"] && info.coreScale == 100)
      && ("cores" !in d.capacity && "computeUnits" in d.capacity ==>
            info.coresTotal == info.coreScale == d.capacity["computeUnits"])
      && ("cores" !in d.capacity && "computeUnits" !in d.capacity ==> info.coresTotal == 0 && info.coreScale == 100)
      && ("memory" in d.capacity ==> info.memoryTotal == d.capacity["memory"])
      && ("memory" !in d.capacity ==> info.memoryTotal == 0)
  {
    assert ParseSlice(s)[i] == ParseDevice(s.devices[i], s.driver);
  }

  /******* ResourceClaims *******/

  datatype MatchField = MatchField(key: string, operator: string, values: seq<string>)

  /** A selector term, reduced to its matchFields. */
  datatype SelectorTerm = SelectorTerm(matchFields: seq<MatchField>)

  datatype DeviceResult = DeviceResult(device: string, consumed: Option<map<string, int>>)

  datatype Allocation = Allocation(results: Option<seq<DeviceResult>>, nodeSelector: Option<seq<SelectorTerm>>)

  /** The status of a claim; `rest` stands for all of it that the cache does not read. */
  datatype ClaimStatus = ClaimStatus(allocation: Option<Allocation>, reservedFor: seq<string>, rest: string)

  datatype ResourceClaim = ResourceClaim(namespace: string, name: string, status: ClaimStatus)

  function ClaimKey(c: ResourceClaim): string {
    c.namespace + "/" + c.name
  }

  /** Two objects share a table key only when they are the same object, namespaces having no slash. */
  lemma {:induction false} ClaimKeyInjective(c: ResourceClaim, d: ResourceClaim)
    requires '/' !in c.namespace && '/' !in d.namespace
    requires ClaimKey(c) == ClaimKey(d)
    ensures c.namespace == d.namespace && c.name == d.name
  {
    var k, i, j := ClaimKey(c), |c.namespace|, |d.namespace|;
    assert k[..i] == c.namespace && k[..j] == d.namespace;
    assert k[i] == '/' && k[j] == '/';
    assert forall x | 0 <= x < i :: k[x] in k[..i];
    assert forall x | 0 <= x < j :: k[x] in k[..j];
    assert c.name == k[i + 1..] && d.name == k[j + 1..];
  }

  datatype Usage = Usage(cores: int, memory: int) {
    function Plus(u: Usage): Usage { Usage(cores + u.cores, memory + u.memory) }

    function Minus(u: Usage): Usage { Usage(cores - u.cores, memory - u.memory) }

    /** Both components raised to at least zero, as decreaseNodeUsage does. */
    function Clamped(): Usage { Usage(if cores < 0 then 0 else cores, if memory < 0 then 0 else memory) }

    predicate NonNegative() { cores >= 0 && memory >= 0 }

    predicate AtLeast(u: Usage) { cores >= u.cores && memory >= u.memory }
  }

  datatype AllocationResult = AllocationResult(namespace: string, device: string, usage: Usage)

  datatype DeviceAllocation = DeviceAllocation(results: seq<AllocationResult>, usedBy: seq<string>, node: string)

  function ConsumedCores(consumed: map<string, int>): int {
    if "cores" in consumed then consumed["cores"] else Lookup(consumed, "computeUnits")
  }

  /** The first metadata.name In-field of the first term that has one. */
  function FirstNameField(fields: seq<MatchField>): Option<MatchField> {
    if fields == [] then None
    else if fields[0].key == "metadata.name" && fields[0].operator == "In" then Some(fields[0])
    else FirstNameField(fields[1..])
  }

  function NodeOfTerms(terms: seq<SelectorTerm>): Option<string> {
    if terms == [] then None else
      match FirstNameField(terms[0].matchFields)
      case Some(f) => if f.values == [] then None else Some(f.values[0])
      case None => NodeOfTerms(terms[1..])
  }

  function NodeOfSelector(selector: Option<seq<SelectorTerm>>): Option<string> {
    match selector
    case None => None
    case Some(terms) => NodeOfTerms(terms)
  }

  predicate NamesNode(f: MatchField) {
    f.key == "metadata.name" && f.operator == "In"
  }

  /** Field j of term i is the first one, term by term, that names nodes. */
  predicate FirstNaming(terms: seq<SelectorTerm>, i: nat, j: nat) {
    && i < |terms| && j < |terms[i].matchFields| && NamesNode(terms[i].matchFields[j])
    && (forall l | 0 <= l < j :: !NamesNode(terms[i].matchFields[l]))
    && (forall k, l | 0 <= k < i && 0 <= l < |terms[k].matchFields| :: !NamesNode(terms[k].matchFields[l]))
  }

  lemma {:induction false} FirstNameFieldMeaning(fields: seq<MatchField>)
    ensures match FirstNameField(fields) {
      case None => forall l | 0 <= l < |fields| :: !NamesNode(fields[l])
      case Some(f) => exists j ::
        && 0 <= j < |fields| && fields[j] == f && NamesNode(f)
        && forall l | 0 <= l < j :: !NamesNode(fields[l])
    }
  {
    if fields != [] && !NamesNode(fields[0]) {
      FirstNameFieldMeaning(fields[1..]);
      if FirstNameField(fields).Some? {
        var j :| 0 <= j < |fields| - 1 && fields[1..][j] == FirstNameField(fields).value
          && forall l | 0 <= l < j :: !NamesNode(fields[1..][l]);
        assert fields[j + 1] == fields[1..][j];
        assert forall l | 1 <= l < j + 1 :: fields[l] == fields[1..][l - 1];
      } else {
        assert forall l | 1 <= l < |fields| :: fields[l] == fields[1..][l - 1];
      }
    }
  }

  predicate PicksNode(terms: seq<SelectorTerm>, node: string, i: nat, j: nat) {
    FirstNaming(terms, i, j) && terms[i].matchFields[j].values != [] && terms[i].matchFields[j].values[0] == node
  }

  /** A claim's node is the first value of the first field that names nodes; without a value there is none. */
  lemma {:induction false} NodeIff(terms: seq<SelectorTerm>, node: string)
    ensures NodeOfTerms(terms) == Some(node) <==> exists i: nat, j: nat :: PicksNode(terms, node, i, j)
  {
    if terms != [] {
      var fields, rest := terms[0].matchFields, terms[1..];
      FirstNameFieldMeaning(fields);
      if FirstNameField(fields).Some? {
        var j :| 0 <= j < |fields| && fields[j] == FirstNameField(fields).value && NamesNode(fields[j])
          && forall l | 0 <= l < j :: !NamesNode(fields[l]);
        assert FirstNaming(terms, 0, j);
        assert NodeOfTerms(terms) == Some(node) ==> PicksNode(terms, node, 0, j);
        forall i: nat, k: nat | FirstNaming(terms, i, k) ensures i == 0 && k == j {
          assert terms[0].matchFields[j] == fields[j];
        }
      } else {
        NodeIff(rest, node);
        forall i: nat, j: nat ensures PicksNode(rest, node, i, j) <==> PicksNode(terms, node, i + 1, j) {
          FirstNamingTail(terms, i, j);
          assert i < |rest| ==> rest[i] == terms[i + 1];
        }
        forall i: nat, j: nat | PicksNode(terms, node, i, j) ensures i > 0 && PicksNode(rest, node, i - 1, j) {
          assert i > 0;
          assert PicksNode(rest, node, i - 1, j) <==> PicksNode(terms, node, i - 1 + 1, j);
        }
      }
    }
  }

  lemma FirstNamingTail(terms: seq<SelectorTerm>, i: nat, j: nat)
    requires terms != [] && forall l | 0 <= l < |terms[0].matchFields| :: !NamesNode(terms[0].matchFields[l])
    ensures FirstNaming(terms[1..], i, j) <==> FirstNaming(terms, i + 1, j)
  {
    assert forall k | 0 <= k < |terms| - 1 :: terms[1..][k] == terms[k + 1];
  }

  predicate Counted(r: DeviceResult) {
    r.consumed.Some? && r.device != ""
  }

  function ResultOf(namespace: string, r: DeviceResult): AllocationResult
    requires Counted(r)
  {
    AllocationResult(namespace, r.device, Usage(ConsumedCores(r.consumed.value), Lookup(r.consumed.value, "memory")))
  }

  /** The results that carry consumed capacity and a device, in order. */
  function ResultsOf(namespace: string, results: seq<DeviceResult>): seq<AllocationResult> {
    if results == [] then []
    else
      var n := |results| - 1;
      var before := ResultsOf(namespace, results[..n]);
      if Counted(results[n]) then before + [ResultOf(namespace, results[n])] else before
  }

  /** What a claim contributes to the table; None when it has no allocation, no results or no node. */
  function AllocationOf(c: ResourceClaim): Option<DeviceAllocation> {
    match c.status.allocation
    case None => None
    case Some(a) =>
      if a.results.None? then None else
        match NodeOfSelector(a.nodeSelector)
        case None => None
        case Some(node) => Some(DeviceAllocation(ResultsOf(c.namespace, a.results.value), c.status.reservedFor, node))
  }

  /** The places of the results that carry consumed capacity and a device, in ascending order. */
  function CountedAt(results: seq<DeviceResult>): (at: seq<nat>)
    ensures forall i :: i in at <==> 0 <= i < |results| && results[i].consumed.Some? && results[i].device != ""
    ensures forall k | 0 <= k < |at| :: at[k] < |results|
    ensures forall i, j | 0 <= i < j < |at| :: at[i] < at[j]
  {
    if results == [] then []
    else
      var n := |results| - 1;
      var before := CountedAt(results[..n]);
      assert forall k | 0 <= k < |before| :: before[k] < n;
      if results[n].consumed.Some? && results[n].device != "" then before + [n] else before
  }

  /** The entry holds what the result consumed, with "computeUnits" in place of missing "cores". */
  predicate Consumes(entry: AllocationResult, namespace: string, r: DeviceResult)
    requires r.consumed.Some?
  {
    var consumed, used := r.consumed.value, entry.usage;
    && entry.namespace == namespace && entry.device == r.device
    && ("memory" in consumed ==> used.memory == consumed["memory"])
    && ("memory" !in consumed ==> used.memory == 0)
    && ("cores" in consumed ==> used.cores == consumed["cores"])
    && ("cores" !in consumed && "computeUnits" in consumed ==> used.cores == consumed["computeUnits"])
    && ("cores" !in consumed && "computeUnits" !in consumed ==> used.cores == 0)
  }

  lemma {:induction false} ResultsMeaning(namespace: string, results: seq<DeviceResult>)
    ensures var entries, at := ResultsOf(namespace, results), CountedAt(results);
            |entries| == |at| && forall k | 0 <= k < |at| :: Consumes(entries[k], namespace, results[at[k]])
  {
    hide Consumes, ResultsOf, CountedAt;
    ResultsMore(namespace, results);
    if results != [] {
      var n := |results| - 1;
      ResultsMeaning(namespace, results[..n]);
      if results[n].consumed.Some? && results[n].device != "" { ResultMeaning(namespace, results[n]); }
    }
  }

  lemma ResultsMore(namespace: string, results: seq<DeviceResult>)
    ensures results == [] ==> ResultsOf(namespace, results) == [] && CountedAt(results) == []
    ensures results != [] ==>
      var n := |results| - 1;
      var entries, at := ResultsOf(namespace, results[..n]), CountedAt(results[..n]);
      if results[n].consumed.Some? && results[n].device != "" then
        ResultsOf(namespace, results) == entries + [ResultOf(namespace, results[n])]
        && CountedAt(results) == at + [n]
      else ResultsOf(namespace, results) == entries && CountedAt(results) == at
  {
    hide ResultOf;
  }

  lemma ResultMeaning(namespace: string, r: DeviceResult)
    requires r.consumed.Some? && r.device != ""
    ensures Consumes(ResultOf(namespace, r), namespace, r)
  {
  }

  /**
   A claim is counted exactly if it has an allocation with results and a selector that names a node. It then
   holds one entry for every result with consumed capacity and a device, in the order of the results.
   */
  lemma AllocationMeaning(c: ResourceClaim)
    ensures AllocationOf(c).Some? <==>
      && c.status.allocation.Some? && c.status.allocation.value.results.Some?
      && c.status.allocation.value.nodeSelector.Some?
      && NodeOfTerms(c.status.allocation.value.nodeSelector.value).Some?
    ensures AllocationOf(c).Some? ==>
      var al, a := AllocationOf(c).value, c.status.allocation.value;
      var at := CountedAt(a.results.value);
      && NodeOfTerms(a.nodeSelector.value) == Some(al.node) && al.usedBy == c.status.reservedFor
      && |al.results| == |at|
      && forall k | 0 <= k < |at| :: Consumes(al.results[k], c.namespace, a.results.value[at[k]])
  {
    if c.status.allocation.Some? && c.status.allocation.value.results.Some? {
      ResultsMeaning(c.namespace, c.status.allocation.value.results.value);
    }
  }

  /******* The abstract cache state *******/

  /** The place of a device: its node, its slice and its position in the slice. */
  datatype Address = Address(node: string, slice: string, index: nat)

  type NodeLayout = map<string, seq<DeviceInfo>>

  type Layout = map<string, NodeLayout>

  predicate InLayout(layout: Layout, a: Address) {
    a.node in layout && a.slice in layout[a.node] && a.index < |layout[a.node][a.slice]|
  }

  function InfoAt(layout: Layout, a: Address): DeviceInfo
    requires InLayout(layout, a)
  {
    layout[a.node][a.slice][a.index]
  }

  ghost function Addresses(layout: Layout): (r: set<Address>)
    ensures forall a :: a in r <==> InLayout(layout, a)
  {
    var r := set n, s, i | n in layout && s in layout[n] && 0 <= i < |layout[n][s]| :: Address(n, s, i);
    assert forall a :: InLayout(layout, a) ==> a == Address(a.node, a.slice, a.index);
    r
  }

  /** The places of a node's slices in the order of NodeDeviceInfo.Devices. */
  function Places(node: string, slices: NodeLayout, names: seq<string>): (r: seq<Address>)
    requires forall s | s in names :: s in slices
    ensures forall a | a in r ::
      a.node == node && a.slice in slices && a.slice in names && a.index < |slices[a.slice]|
  {
    if names == [] then []
    else
      var n := |names| - 1;
      Places(node, slices, names[..n])
      + seq(|slices[names[n]]|, i requires 0 <= i < |slices[names[n]]| => Address(node, names[n], i))
  }

  function DevicePlaces(node: string, slices: NodeLayout): seq<Address> {
    Places(node, slices, Sorted(slices.Keys))
  }

  /** The first of the given places whose device has the given name. */
  function FirstNamed(slices: NodeLayout, places: seq<Address>, device: string): (r: Option<Address>)
    requires forall a | a in places :: a.slice in slices && a.index < |slices[a.slice]|
    ensures r.Some? ==> r.value in places && slices[r.value.slice][r.value.index].name == device
  {
    if places == [] then None
    else if slices[places[0].slice][places[0].index].name == device then Some(places[0])
    else FirstNamed(slices, places[1..], device)
  }

  /** The device that usage naming `device` on `node` is charged to. */
  function Target(layout: Layout, node: string, device: string): (r: Option<Address>)
    ensures r.Some? ==> r.value.node == node && InLayout(layout, r.value) && InfoAt(layout, r.value).name == device
  {
    if node in layout then FirstNamed(layout[node], DevicePlaces(node, layout[node]), device) else None
  }

  datatype State = State(
    layout: Layout,
    used: map<Address, Usage>,
    claims: map<string, DeviceAllocation>)
  {
    ghost predicate Valid() {
      forall a :: a in used <==> InLayout(layout, a)
    }
  }

  const EMPTY := State(map[], map[], map[])

  /******* Usage computed from scratch *******/

  /** The part of `results` that names `device`. */
  function ResultsSum(results: seq<AllocationResult>, device: string): Usage {
    if results == [] then Usage(0, 0)
    else
      var n := |results| - 1;
      var before := ResultsSum(results[..n], device);
      if results[n].device == device then before.Plus(results[n].usage) else before
  }

  /** What results allocated on node `at` contribute to `device` on `node`. */
  function ChargeOf(at: string, results: seq<AllocationResult>, node: string, device: string): Usage {
    if at == node then ResultsSum(results, device) else Usage(0, 0)
  }

  ghost function Pick<K(!new)>(s: set<K>): (x: K)
    requires s != {}
    ensures x in s
  {
    var x :| x in s;
    x
  }

  ghost function SumOver<K(!new)>(keys: set<K>, f: K -> Usage): Usage {
    if keys == {} then Usage(0, 0)
    else
      var k := Pick(keys);
      SumOver(keys - {k}, f).Plus(f(k))
  }

  /** The consumption of `device` on `node` by the claim with a key. */
  function ChargeAt(claims: map<string, DeviceAllocation>, node: string, device: string): string -> Usage {
    (k: string) => if k in claims then ChargeOf(claims[k].node, claims[k].results, node, device) else Usage(0, 0)
  }

  /** The consumption of `device` on `node` over a whole claim table. */
  ghost function Charge(claims: map<string, DeviceAllocation>, node: string, device: string): Usage {
    SumOver(claims.Keys, ChargeAt(claims, node, device))
  }

  /** What the device at place a should show: the claims naming it, if it is the first of its name. */
  ghost function Expected(layout: Layout, claims: map<string, DeviceAllocation>, a: Address): Usage
    requires InLayout(layout, a)
  {
    var name := InfoAt(layout, a).name;
    if Target(layout, a.node, name) == Some(a) then Charge(claims, a.node, name) else Usage(0, 0)
  }

  ghost predicate ExactOn(st: State, node: string)
    requires st.Valid()
  {
    forall a | a in st.used && a.node == node :: st.used[a] == Expected(st.layout, st.claims, a)
  }

  ghost predicate Exact(st: State)
    requires st.Valid()
  {
    forall a | a in st.used :: st.used[a] == Expected(st.layout, st.claims, a)
  }

  /** Every counter covers the claims charged to it and none is negative. */
  ghost predicate Covers(st: State)
    requires st.Valid()
  {
    forall a | a in st.used :: st.used[a].AtLeast(Expected(st.layout, st.claims, a)) && st.used[a].NonNegative()
  }

  predicate NonNegativeResults(results: seq<AllocationResult>) {
    forall i | 0 <= i < |results| :: results[i].usage.NonNegative()
  }

  ghost predicate NonNegativeTable(claims: map<string, DeviceAllocation>) {
    forall k | k in claims :: NonNegativeResults(claims[k].results)
  }

  /******* Steps *******/

  /** increaseNodeUsage. */
  function Increase(st: State, node: string, device: string, u: Usage): (r: State)
    requires st.Valid()
    ensures r.Valid()
  {
    match Target(st.layout, node, device)
    case None => st
    case Some(a) => st.(used := st.used[a := st.used[a].Plus(u)])
  }

  /** decreaseNodeUsage, with its two clamps to zero. */
  function Decrease(st: State, node: string, device: string, u: Usage): (r: State)
    requires st.Valid()
    ensures r.Valid()
  {
    match Target(st.layout, node, device)
    case None => st
    case Some(a) => st.(used := st.used[a := st.used[a].Minus(u).Clamped()])
  }

  function AddResults(st: State, node: string, results: seq<AllocationResult>): (r: State)
    requires st.Valid()
    ensures r.Valid() && r.layout == st.layout && r.claims == st.claims
  {
    if results == [] then st
    else
      var n := |results| - 1;
      Increase(AddResults(st, node, results[..n]), node, results[n].device, results[n].usage)
  }

  function RemoveResults(st: State, node: string, results: seq<AllocationResult>): (r: State)
    requires st.Valid()
    ensures r.Valid() && r.layout == st.layout && r.claims == st.claims
  {
    if results == [] then st
    else
      var n := |results| - 1;
      Decrease(RemoveResults(st, node, results[..n]), node, results[n].device, results[n].usage)
  }

  function AddClaim(st: State, c: ResourceClaim): (r: State)
    requires st.Valid()
    ensures r.Valid()
  {
    match AllocationOf(c)
    case None => st
    case Some(al) => AddResults(st, al.node, al.results).(claims := st.claims[ClaimKey(c) := al])
  }

  /** Releases what the table holds for the claim, or else what the claim itself reports. */
  function DeleteClaim(st: State, c: ResourceClaim): (r: State)
    requires st.Valid()
    ensures r.Valid()
  {
    var k := ClaimKey(c);
    if k in st.claims then
      RemoveResults(st, st.claims[k].node, st.claims[k].results).(claims := st.claims - {k})
    else
      match AllocationOf(c)
      case None => st
      case Some(al) => RemoveResults(st, al.node, al.results)
  }

  function UpdateClaim(st: State, old': ResourceClaim, new': ResourceClaim): (r: State)
    requires st.Valid()
    ensures r.Valid()
  {
    if old'.status == new'.status then st else AddClaim(DeleteClaim(st, old'), new')
  }

  /** The slices of `node` after storing (Some) or removing (None) the devices of one slice. */
  function SlicesAfter(layout: Layout, node: string, slice: string, devices: Option<seq<DeviceInfo>>): NodeLayout {
    var slices := if node in layout then layout[node] else map[];
    match devices
    case Some(ds) => slices[slice := ds]
    case None => slices - {slice}
  }

  function LayoutAfter(layout: Layout, node: string, slice: string, devices: Option<seq<DeviceInfo>>): Layout {
    var slices := SlicesAfter(layout, node, slice, devices);
    if slices == map[] then layout - {node} else layout[node := slices]
  }

  /**
   The counters right after a node's list is rebuilt, before the claims are added on top. The new
   devices start at zero; the devices of the node's other slices keep their counters, as the source
   does, or start at zero too when `reset` is set, as the source's comment intends.
   */
  ghost function Rebuilt(st: State, node: string, slice: string, devices: Option<seq<DeviceInfo>>, reset: bool)
    : (r: State)
    requires st.Valid()
    ensures r.Valid() && r.layout == LayoutAfter(st.layout, node, slice, devices) && r.claims == st.claims
  {
    var layout := LayoutAfter(st.layout, node, slice, devices);
    assert forall a | InLayout(layout, a) && (a.node != node || a.slice != slice) :: InLayout(st.layout, a);
    State(layout,
          map a | a in Addresses(layout) ::
            if a.node == node && (reset || a.slice == slice) then Usage(0, 0) else st.used[a],
          st.claims)
  }

  /** setSliceDevices; `reset` as for Rebuilt. */
  ghost function SetSlice(st: State, node: string, slice: string, devices: Option<seq<DeviceInfo>>, reset: bool)
    : (r: State)
    requires st.Valid()
    ensures r.Valid() && r.claims == st.claims
  {
    var base := Rebuilt(st, node, slice, devices, reset);
    base.(used := map a | a in base.used ::
                    if a.node == node then base.used[a].Plus(Expected(base.layout, st.claims, a)) else base.used[a])
  }

  ghost function AddSlice(st: State, s: ResourceSlice, reset: bool): (r: State)
    requires st.Valid()
    ensures r.Valid()
  {
    match s.nodeName
    case None => st
    case Some(node) => SetSlice(st, node, s.name, Some(ParseSlice(s)), reset)
  }

  ghost function UpdateSlice(st: State, old': ResourceSlice, new': ResourceSlice, reset: bool): (r: State)
    requires st.Valid()
    ensures r.Valid()
  {
    match new'.nodeName
    case None => st
    case Some(node) =>
      var cleared :=
        if old'.nodeName.Some? && old'.nodeName.value != node
        then SetSlice(st, old'.nodeName.value, old'.name, None, reset)
        else st;
      SetSlice(cleared, node, new'.name, Some(ParseSlice(new')), reset)
  }

  ghost function DeleteSlice(st: State, s: ResourceSlice, reset: bool): (r: State)
    requires st.Valid()
    ensures r.Valid()
  {
    match s.nodeName
    case None => st
    case Some(node) => SetSlice(st, node, s.name, None, reset)
  }

  /******* Informer events *******/

  datatype Event =
    | SliceAdded(slice: ResourceSlice)
    | SliceUpdated(oldSlice: ResourceSlice, newSlice: ResourceSlice)
    | SliceDeleted(slice: ResourceSlice)
    | ClaimAdded(claim: ResourceClaim)
    | ClaimUpdated(oldClaim: ResourceClaim, newClaim: ResourceClaim)
    | ClaimDeleted(claim: ResourceClaim)

  /** One callback; `reset` selects the code as written (false) or as its comment intends (true). */
  ghost function Step(st: State, e: Event, reset: bool): (r: State)
    requires st.Valid()
    ensures r.Valid()
  {
    match e
    case SliceAdded(s) => AddSlice(st, s, reset)
    case SliceUpdated(o, n) => UpdateSlice(st, o, n, reset)
    case SliceDeleted(s) => DeleteSlice(st, s, reset)
    case ClaimAdded(c) => AddClaim(st, c)
    case ClaimUpdated(o, n) => UpdateClaim(st, o, n)
    case ClaimDeleted(c) => DeleteClaim(st, c)
  }

  /** The objects whose last event was an add or an update. */
  datatype Delivered = Delivered(slices: map<string, ResourceSlice>, claims: map<string, ResourceClaim>)

  const NOTHING := Delivered(map[], map[])

  /** The informer contract: add comes first, and the old or deleted object is the last delivered one. */
  predicate Legal(d: Delivered, e: Event) {
    match e
    case SliceAdded(s) => s.name !in d.slices
    case SliceUpdated(o, n) => o.name in d.slices && d.slices[o.name] == o && n.name == o.name
    case SliceDeleted(s) => s.name in d.slices && d.slices[s.name] == s
    case ClaimAdded(c) => ClaimKey(c) !in d.claims
    case ClaimUpdated(o, n) =>
      && ClaimKey(o) in d.claims && d.claims[ClaimKey(o)] == o
      && n.namespace == o.namespace && n.name == o.name
    case ClaimDeleted(c) => ClaimKey(c) in d.claims && d.claims[ClaimKey(c)] == c
  }

  function Deliver(d: Delivered, e: Event): Delivered {
    match e
    case SliceAdded(s) => d.(slices := d.slices[s.name := s])
    case SliceUpdated(o, n) => d.(slices := d.slices[n.name := n])
    case SliceDeleted(s) => d.(slices := d.slices - {s.name})
    case ClaimAdded(c) => d.(claims := d.claims[ClaimKey(c) := c])
    case ClaimUpdated(o, n) => d.(claims := d.claims[ClaimKey(n) := n])
    case ClaimDeleted(c) => d.(claims := d.claims - {ClaimKey(c)})
  }

  function After(es: seq<Event>): Delivered {
    if es == [] then NOTHING else Deliver(After(es[..|es| - 1]), es[|es| - 1])
  }

  predicate LegalRun(es: seq<Event>) {
    es == [] || (LegalRun(es[..|es| - 1]) && Legal(After(es[..|es| - 1]), es[|es| - 1]))
  }

  ghost function Run(es: seq<Event>, reset: bool): (r: State)
    ensures r.Valid()
  {
    if es == [] then EMPTY else Step(Run(es[..|es| - 1], reset), es[|es| - 1], reset)
  }

  /** No consumed quantity in the claim is negative. */
  predicate NonNegativeClaim(c: ResourceClaim) {
    match AllocationOf(c)
    case None => true
    case Some(al) => NonNegativeResults(al.results)
  }

  predicate NonNegativeEvent(e: Event) {
    match e
    case ClaimAdded(c) => NonNegativeClaim(c)
    case ClaimUpdated(o, n) => NonNegativeClaim(n)
    case _ => true
  }

  predicate NonNegativeRun(es: seq<Event>) {
    forall e | e in es :: NonNegativeEvent(e)
  }

  /******* The state computed from scratch *******/

  ghost function TableOf(claims: map<string, ResourceClaim>): map<string, DeviceAllocation> {
    map k | k in claims && AllocationOf(claims[k]).Some? :: AllocationOf(claims[k]).value
  }

  ghost function SlicesOn(slices: map<string, ResourceSlice>, node: string): NodeLayout {
    map s | s in slices && slices[s].nodeName == Some(node) :: ParseSlice(slices[s])
  }

  ghost function NodesOf(slices: map<string, ResourceSlice>): set<string> {
    set s | s in slices && slices[s].nodeName.Some? :: slices[s].nodeName.value
  }

  ghost function LayoutOf(slices: map<string, ResourceSlice>): Layout {
    map n | n in NodesOf(slices) :: SlicesOn(slices, n)
  }

  /** What the cache should hold: a function of the delivered objects alone. */
  ghost function FromScratch(d: Delivered): (r: State)
    ensures r.Valid() && Exact(r)
  {
    var layout, claims := LayoutOf(d.slices), TableOf(d.claims);
    State(layout, map a | a in Addresses(layout) :: Expected(layout, claims, a), claims)
  }
}
