/** The fake driver's layered device configuration: groups of devices, overridden name by name. */
module FakeDriver {
  import opened Options
  import opened StringOrder

  datatype FakeAttribute = FakeAttribute(
    int': Option<int>, bool': Option<bool>, string': Option<string>, version: Option<string>)

  datatype FakeRange = FakeRange(min: Option<string>, max: Option<string>, step: Option<string>)

  datatype FakePolicy = FakePolicy(default': Option<string>, validValues: seq<string>, validRange: Option<FakeRange>)

  datatype FakeCapacity = FakeCapacity(value: string, policy: Option<FakePolicy>)

  /** A device of the configuration; an absent map is the empty one. */
  datatype FakeDevice = FakeDevice(
    name: string, allow: Option<bool>, attributes: map<string, FakeAttribute>, capacity: map<string, FakeCapacity>)

  const NO_DEVICE := FakeDevice("", None, map[], map[])

  /******* Merging *******/

  function MergeCapacity(base: FakeCapacity, over: FakeCapacity): FakeCapacity {
    FakeCapacity(if over.value != "" then over.value else base.value,
                 if over.policy.Some? then over.policy else base.policy)
  }

  function CapacityUnion(base: map<string, FakeCapacity>, over: map<string, FakeCapacity>): map<string, FakeCapacity> {
    map k | k in base.Keys + over.Keys ::
      if k !in over then base[k] else if k in base then MergeCapacity(base[k], over[k]) else over[k]
  }

  function Merge(d: FakeDevice, over: FakeDevice): FakeDevice {
    FakeDevice(
      if over.name != "" then over.name else d.name,
      if over.allow.Some? then over.allow else d.allow,
      d.attributes + over.attributes,
      CapacityUnion(d.capacity, over.capacity))
  }

  /** The loops over the two maps, in any order of their keys. */
  method MergeAttributeMaps(base: map<string, FakeAttribute>, over: map<string, FakeAttribute>)
    returns (merged: map<string, FakeAttribute>)
    ensures merged == base + over
  {
    merged := base;
    var keys := over.Keys;
    while keys != {}
      invariant keys <= over.Keys
      invariant merged == base + (over - keys)
    {
      var k :| k in keys;
      merged := merged[k := over[k]];
      keys := keys - {k};
    }
  }

  method MergeCapacityMaps(base: map<string, FakeCapacity>, over: map<string, FakeCapacity>)
    returns (merged: map<string, FakeCapacity>)
    ensures merged == CapacityUnion(base, over)
  {
    merged := base;
    var keys := over.Keys;
    while keys != {}
      invariant keys <= over.Keys
      invariant merged == CapacityUnion(base, over - keys)
    {
      var k :| k in keys;
      merged := merged[k := if k in merged then MergeCapacity(merged[k], over[k]) else over[k]];
      keys := keys - {k};
    }
    assert over - {} == over;
  }

  method MergeDevice(d: FakeDevice, over: FakeDevice) returns (merged: FakeDevice)
    ensures merged == Merge(d, over)
  {
    merged := d;
    if over.name != "" { merged := merged.(name := over.name); }
    if over.allow.Some? { merged := merged.(allow := over.allow); }
    var attributes := MergeAttributeMaps(merged.attributes, over.attributes);
    var capacity := MergeCapacityMaps(merged.capacity, over.capacity);
    merged := merged.(attributes := attributes, capacity := capacity);
  }

  lemma MergeAssociative(a: FakeDevice, b: FakeDevice, c: FakeDevice)
    ensures Merge(Merge(a, b), c) == Merge(a, Merge(b, c))
  {
    assert a.attributes + b.attributes + c.attributes == a.attributes + (b.attributes + c.attributes);
    assert CapacityUnion(CapacityUnion(a.capacity, b.capacity), c.capacity)
        == CapacityUnion(a.capacity, CapacityUnion(b.capacity, c.capacity));
  }

  lemma MergeIdentity(d: FakeDevice)
    ensures Merge(NO_DEVICE, d) == d && Merge(d, NO_DEVICE) == d
  {
    assert map[] + d.attributes == d.attributes;
    assert CapacityUnion(map[], d.capacity) == d.capacity == CapacityUnion(d.capacity, map[]);
  }

  /******* Layers *******/

  /** The devices merged one on top of the other. */
  function MergeAll(layers: seq<FakeDevice>): FakeDevice {
    if layers == [] then NO_DEVICE else Merge(MergeAll(layers[..|layers| - 1]), layers[|layers| - 1])
  }

  /** No layer at or after i defines the part. */
  ghost predicate UndefinedFrom<T>(layers: seq<FakeDevice>, part: FakeDevice -> Option<T>, i: nat) {
    forall j | i <= j < |layers| :: part(layers[j]).None?
  }

  /** v is the part as the last layer that defines it has it; None if no layer does. */
  ghost predicate LastDefined<T>(layers: seq<FakeDevice>, part: FakeDevice -> Option<T>, v: Option<T>) {
    match v
    case None => UndefinedFrom(layers, part, 0)
    case Some(_) => exists i :: 0 <= i < |layers| && part(layers[i]) == v && UndefinedFrom(layers, part, i + 1)
  }

  lemma LastDefinedStep<T>(layers: seq<FakeDevice>, part: FakeDevice -> Option<T>, before: Option<T>, v: Option<T>)
    requires layers != [] && LastDefined(layers[..|layers| - 1], part, before)
    requires v == if part(layers[|layers| - 1]).Some? then part(layers[|layers| - 1]) else before
    ensures LastDefined(layers, part, v)
  {
    var n := |layers| - 1;
    if part(layers[n]).Some? {
      assert UndefinedFrom(layers, part, n + 1);
    } else if before.Some? {
      var i :| 0 <= i < n && part(layers[..n][i]) == before && UndefinedFrom(layers[..n], part, i + 1);
      forall j | i + 1 <= j < |layers| ensures part(layers[j]).None? { assert j < n ==> layers[..n][j] == layers[j]; }
      assert UndefinedFrom(layers, part, i + 1);
    } else {
      forall j | 0 <= j < |layers| ensures part(layers[j]).None? { assert j < n ==> layers[..n][j] == layers[j]; }
    }
  }

  /** The parts a device can define: its name, its sharing, an attribute, a capacity's value and policy. */
  function NamePart(d: FakeDevice): Option<string> {
    if d.name != "" then Some(d.name) else None
  }

  function AllowPart(d: FakeDevice): Option<bool> {
    d.allow
  }

  function AttributePart(key: string): FakeDevice -> Option<FakeAttribute> {
    (d: FakeDevice) => if key in d.attributes then Some(d.attributes[key]) else None
  }

  function ListedPart(key: string): FakeDevice -> Option<bool> {
    (d: FakeDevice) => if key in d.capacity then Some(true) else None
  }

  function ValuePart(key: string): FakeDevice -> Option<string> {
    (d: FakeDevice) => if key in d.capacity && d.capacity[key].value != "" then Some(d.capacity[key].value) else None
  }

  function PolicyPart(key: string): FakeDevice -> Option<FakePolicy> {
    (d: FakeDevice) => if key in d.capacity then d.capacity[key].policy else None
  }

  /** The attribute and the capacity of one key are the last ones defined. */
  ghost predicate LastOfKey(layers: seq<FakeDevice>, m: FakeDevice, key: string) {
    && LastDefined(layers, AttributePart(key), AttributePart(key)(m))
    && LastDefined(layers, ListedPart(key), ListedPart(key)(m))
    && LastDefined(layers, ValuePart(key), ValuePart(key)(m))
    && LastDefined(layers, PolicyPart(key), PolicyPart(key)(m))
  }

  /** Every part of merged layers is the last one defined. */
  lemma {:induction false} MergeAllMeaning(layers: seq<FakeDevice>)
    ensures LastDefined(layers, NamePart, NamePart(MergeAll(layers)))
    ensures LastDefined(layers, AllowPart, MergeAll(layers).allow)
    ensures forall key :: LastOfKey(layers, MergeAll(layers), key)
  {
    hide LastDefined, LastOfKey, Merge;
    if layers == [] {
      NothingDefined(NamePart);
      NothingDefined(AllowPart);
      forall key ensures LastOfKey(layers, NO_DEVICE, key) { NoKeyDefined(key); }
    } else {
      var n := |layers| - 1;
      var before := MergeAll(layers[..n]);
      MergeAllMeaning(layers[..n]);
      NameAndSharing(before, layers[n]);
      LastDefinedStep(layers, NamePart, NamePart(before), NamePart(MergeAll(layers)));
      LastDefinedStep(layers, AllowPart, before.allow, MergeAll(layers).allow);
      forall key ensures LastOfKey(layers, MergeAll(layers), key) { LastOfKeyStep(layers, before, key); }
    }
  }

  lemma NameAndSharing(d: FakeDevice, over: FakeDevice)
    ensures NamePart(Merge(d, over)) == if NamePart(over).Some? then NamePart(over) else NamePart(d)
    ensures Merge(d, over).allow == if over.allow.Some? then over.allow else d.allow
  {
  }

  lemma NoKeyDefined(key: string)
    ensures LastOfKey([], NO_DEVICE, key)
  {
    hide LastDefined;
    NothingDefined(AttributePart(key));
    NothingDefined(ListedPart(key));
    NothingDefined(ValuePart(key));
    NothingDefined(PolicyPart(key));
  }

  lemma LastOfKeyStep(layers: seq<FakeDevice>, before: FakeDevice, key: string)
    requires layers != [] && LastOfKey(layers[..|layers| - 1], before, key)
    ensures LastOfKey(layers, Merge(before, layers[|layers| - 1]), key)
  {
    hide LastDefined;
    var m := Merge(before, layers[|layers| - 1]);
    LastDefinedStep(layers, AttributePart(key), AttributePart(key)(before), AttributePart(key)(m));
    LastDefinedStep(layers, ListedPart(key), ListedPart(key)(before), ListedPart(key)(m));
    LastDefinedStep(layers, ValuePart(key), ValuePart(key)(before), ValuePart(key)(m));
    LastDefinedStep(layers, PolicyPart(key), PolicyPart(key)(before), PolicyPart(key)(m));
  }

  lemma NothingDefined<T>(part: FakeDevice -> Option<T>)
    ensures LastDefined([], part, None)
  {
  }

  /******* Converting a device *******/

  datatype Attribute = IntValue(i: int) | BoolValue(b: bool) | StringValue(s: string) | VersionValue(v: string)

  datatype Range = Range(min: Option<int>, max: Option<int>, step: Option<int>)

  datatype Policy = Policy(default': Option<int>, validValues: seq<int>, validRange: Option<Range>)

  datatype Capacity = Capacity(value: int, policy: Option<Policy>)

  datatype ResourceDevice = ResourceDevice(
    name: string, allow: Option<bool>, attributes: map<string, Attribute>, capacity: map<string, Capacity>)

  /** Quantity parsing; None for a text that is no quantity. */
  type Parser = string -> Option<int>

  predicate OneSet(a: FakeAttribute) {
    (if a.int'.Some? then 1 else 0) + (if a.bool'.Some? then 1 else 0)
    + (if a.string'.Some? then 1 else 0) + (if a.version.Some? then 1 else 0) == 1
  }

  /** The value is the one that is set, of its own type. */
  predicate AttributeIs(a: FakeAttribute, v: Attribute) {
    && (a.int'.Some? ==> v == IntValue(a.int'.value)) && (a.bool'.Some? ==> v == BoolValue(a.bool'.value))
    && (a.string'.Some? ==> v == StringValue(a.string'.value))
    && (a.version.Some? ==> v == VersionValue(a.version.value))
  }

  /** Exactly one of the four must be set. */
  function ToAttribute(a: FakeAttribute): (r: Result<Attribute>)
    ensures r.Success? <==> OneSet(a)
    ensures r.Success? ==> AttributeIs(a, r.value)
  {
    match (a.int', a.bool', a.string', a.version)
    case (Some(i), None, None, None) => Success(IntValue(i))
    case (None, Some(b), None, None) => Success(BoolValue(b))
    case (None, None, Some(s), None) => Success(StringValue(s))
    case (None, None, None, Some(v)) => Success(VersionValue(v))
    case _ => Failure
  }

  predicate Quantified(parse: Parser, text: Option<string>) {
    text.Some? ==> parse(text.value).Some?
  }

  /** The quantity is what the text parses to, absent for an absent text. */
  predicate QuantityIs(parse: Parser, text: Option<string>, q: Option<int>) {
    if text.None? then q.None? else q.Some? && parse(text.value) == q
  }

  /** An absent text stays absent; a present one must be a quantity. */
  function ParseOptional(parse: Parser, text: Option<string>): (r: Result<Option<int>>)
    ensures r.Success? <==> Quantified(parse, text)
    ensures r.Success? ==> QuantityIs(parse, text, r.value)
  {
    match text
    case None => Success(None)
    case Some(t) => (match parse(t) case None => Failure case Some(q) => Success(Some(q)))
  }

  predicate RangeIs(parse: Parser, r: FakeRange, range: Range) {
    QuantityIs(parse, r.min, range.min) && QuantityIs(parse, r.max, range.max) && QuantityIs(parse, r.step, range.step)
  }

  function ToRange(parse: Parser, r: FakeRange): (range: Result<Range>)
    ensures range.Success? <==> Quantified(parse, r.min) && Quantified(parse, r.max) && Quantified(parse, r.step)
    ensures range.Success? ==> RangeIs(parse, r, range.value)
  {
    match (ParseOptional(parse, r.min), ParseOptional(parse, r.max), ParseOptional(parse, r.step))
    case (Success(min), Success(max), Success(step)) => Success(Range(min, max, step))
    case _ => Failure
  }

  function ParseAll(parse: Parser, texts: seq<string>): (r: Result<seq<int>>)
    ensures r.Success? <==> forall t | t in texts :: parse(t).Some?
    ensures r.Success? ==> |r.value| == |texts| && forall i | 0 <= i < |texts| :: parse(texts[i]) == Some(r.value[i])
  {
    if texts == [] then Success([])
    else
      var n := |texts| - 1;
      assert texts == texts[..n] + [texts[n]];
      match (ParseAll(parse, texts[..n]), parse(texts[n]))
      case (Success(values), Some(q)) => Success(values + [q])
      case _ => Failure
  }

  predicate PolicyParses(parse: Parser, p: FakePolicy) {
    && Quantified(parse, p.default') && (forall t | t in p.validValues :: parse(t).Some?)
    && (p.validRange.Some? ==>
          var range := p.validRange.value;
          Quantified(parse, range.min) && Quantified(parse, range.max) && Quantified(parse, range.step))
  }

  /** Every part of the policy is what the part of its own name parses to. */
  predicate PolicyIs(parse: Parser, p: FakePolicy, policy: Policy) {
    && QuantityIs(parse, p.default', policy.default') && |policy.validValues| == |p.validValues|
    && (forall i | 0 <= i < |p.validValues| :: parse(p.validValues[i]) == Some(policy.validValues[i]))
    && if p.validRange.None? then policy.validRange.None?
       else policy.validRange.Some? && RangeIs(parse, p.validRange.value, policy.validRange.value)
  }

  function ToPolicy(parse: Parser, p: FakePolicy): (r: Result<Policy>)
    ensures r.Success? <==> PolicyParses(parse, p)
    ensures r.Success? ==> PolicyIs(parse, p, r.value)
  {
    match (ParseOptional(parse, p.default'), ParseAll(parse, p.validValues))
    case (Success(d), Success(values)) =>
      (match p.validRange
       case None => Success(Policy(d, values, None))
       case Some(r) =>
         (match ToRange(parse, r)
          case Failure => Failure
          case Success(range) => Success(Policy(d, values, Some(range)))))
    case _ => Failure
  }

  predicate CapacityParses(parse: Parser, c: FakeCapacity) {
    parse(c.value).Some? && (c.policy.Some? ==> PolicyParses(parse, c.policy.value))
  }

  predicate CapacityIs(parse: Parser, c: FakeCapacity, capacity: Capacity) {
    && parse(c.value) == Some(capacity.value)
    && if c.policy.None? then capacity.policy.None?
       else capacity.policy.Some? && PolicyIs(parse, c.policy.value, capacity.policy.value)
  }

  function ToCapacity(parse: Parser, c: FakeCapacity): (r: Result<Capacity>)
    ensures r.Success? <==> CapacityParses(parse, c)
    ensures r.Success? ==> CapacityIs(parse, c, r.value)
  {
    match parse(c.value)
    case None => Failure
    case Some(value) =>
      match c.policy
      case None => Success(Capacity(value, None))
      case Some(p) =>
        match ToPolicy(parse, p)
        case Failure => Failure
        case Success(policy) => Success(Capacity(value, Some(policy)))
  }

  predicate Convertible(parse: Parser, d: FakeDevice) {
    && d.name != ""
    && (forall k | k in d.attributes :: OneSet(d.attributes[k]))
    && (forall k | k in d.capacity :: CapacityParses(parse, d.capacity[k]))
  }

  /** Sharing as configured, and otherwise turned on by any capacity with a request policy. */
  function Sharing(d: FakeDevice): Option<bool> {
    if d.allow.None? && exists k | k in d.capacity :: d.capacity[k].policy.Some? then Some(true) else d.allow
  }

  function Converted(parse: Parser, d: FakeDevice): ResourceDevice
    requires Convertible(parse, d)
  {
    ResourceDevice(
      d.name, Sharing(d),
      map k | k in d.attributes :: ToAttribute(d.attributes[k]).value,
      map k | k in d.capacity :: ToCapacity(parse, d.capacity[k]).value)
  }

  /** The loop over the attributes, in any order of the keys. */
  method ConvertAttributes(d: FakeDevice) returns (r: Result<map<string, Attribute>>)
    ensures r.Success? <==> forall k | k in d.attributes :: OneSet(d.attributes[k])
    ensures r.Success? ==> r.value == map k | k in d.attributes :: ToAttribute(d.attributes[k]).value
  {
    hide ToAttribute, OneSet;
    var attributes: map<string, Attribute> := map[];
    var keys := d.attributes.Keys;
    while keys != {}
      invariant keys <= d.attributes.Keys == attributes.Keys + keys && attributes.Keys !! keys
      invariant forall k | k in attributes :: ToAttribute(d.attributes[k]) == Success(attributes[k])
    {
      var k :| k in keys;
      var a := ToAttribute(d.attributes[k]);
      if a.Failure? { return Failure; }
      attributes := attributes[k := a.value];
      keys := keys - {k};
    }
    return Success(attributes);
  }

  /** The loop over the capacities, which turns sharing on at the first request policy it meets. */
  method ConvertCapacities(parse: Parser, d: FakeDevice) returns (r: Result<map<string, Capacity>>, allow: Option<bool>)
    ensures r.Success? <==> forall k | k in d.capacity :: CapacityParses(parse, d.capacity[k])
    ensures r.Success? ==> r.value == map k | k in d.capacity :: ToCapacity(parse, d.capacity[k]).value
    ensures r.Success? ==> allow == Sharing(d)
  {
    hide ToCapacity;
    var capacity: map<string, Capacity> := map[];
    var keys := d.capacity.Keys;
    allow := d.allow;
    while keys != {}
      invariant keys <= d.capacity.Keys == capacity.Keys + keys && capacity.Keys !! keys
      invariant forall k | k in capacity :: ToCapacity(parse, d.capacity[k]) == Success(capacity[k])
      invariant allow == if d.allow.None? && exists k | k in capacity :: d.capacity[k].policy.Some?
                         then Some(true) else d.allow
    {
      var k :| k in keys;
      var c := ToCapacity(parse, d.capacity[k]);
      if c.Failure? { return Failure, allow; }
      if c.value.policy.Some? && allow.None? { allow := Some(true); }
      capacity := capacity[k := c.value];
      keys := keys - {k};
    }
    r := Success(capacity);
  }

  method ToResourceDevice(parse: Parser, d: FakeDevice) returns (r: Result<ResourceDevice>)
    ensures r.Success? <==> Convertible(parse, d)
    ensures r.Success? ==> r.value == Converted(parse, d)
  {
    hide ToAttribute, ToCapacity, OneSet, Sharing;
    if d.name == "" { return Failure; }
    var attributes := ConvertAttributes(d);
    if attributes.Failure? { return Failure; }
    var capacity, allow := ConvertCapacities(parse, d);
    if capacity.Failure? { return Failure; }
    return Success(ResourceDevice(d.name, allow, attributes.value, capacity.value));
  }

  /******* The devices of a node *******/

  /** A selector by its text. */
  datatype Group = Group(name: string, selector: Option<string>, devices: seq<FakeDevice>)

  datatype DriverConfig = DriverConfig(
    nodeSelector: Option<string>, groups: seq<Group>, nodes: map<string, seq<FakeDevice>>)

  /** Whether a selector matches the node's labels; None if it does not parse. */
  type Matcher = string -> Option<bool>

  function Matching(matches: Matcher, selector: Option<string>): Option<bool> {
    match selector
    case None => Some(true)
    case Some(s) => matches(s)
  }

  /** The devices of the matching groups, in the order of the groups. */
  function GroupLayers(matches: Matcher, groups: seq<Group>): Result<seq<FakeDevice>> {
    if groups == [] then Success([])
    else
      var n := |groups| - 1;
      match GroupLayers(matches, groups[..n])
      case Failure => Failure
      case Success(layers) =>
        match Matching(matches, groups[n].selector)
        case None => Failure
        case Some(b) => Success(if b then layers + groups[n].devices else layers)
  }

  /** All layers for a node: those of the groups, and the node's own on top. */
  function Layers(cfg: DriverConfig, matches: Matcher, node: string): Result<seq<FakeDevice>> {
    match GroupLayers(matches, cfg.groups)
    case Failure => Failure
    case Success(layers) => Success(if node in cfg.nodes then layers + cfg.nodes[node] else layers)
  }

  /** The layers with one name. */
  function LayersOf(layers: seq<FakeDevice>, name: string): (r: seq<FakeDevice>)
    ensures forall d | d in r :: d.name == name
    ensures r == [] <==> name !in LayerNames(layers)
  {
    if layers == [] then []
    else
      var n := |layers| - 1;
      assert layers == layers[..n] + [layers[n]];
      LayersOf(layers[..n], name) + if layers[n].name == name then [layers[n]] else []
  }

  function LayerNames(layers: seq<FakeDevice>): set<string> {
    set d | d in layers :: d.name
  }

  function ByName(layers: seq<FakeDevice>): map<string, FakeDevice> {
    map x | x in LayerNames(layers) :: MergeAll(LayersOf(layers, x))
  }

  lemma MergeAllMore(layers: seq<FakeDevice>, d: FakeDevice)
    ensures MergeAll(layers + [d]) == Merge(MergeAll(layers), d)
  {
    assert (layers + [d])[..|layers|] == layers;
  }

  lemma LayersOfMore(layers: seq<FakeDevice>, d: FakeDevice, x: string)
    ensures LayersOf(layers + [d], x) == if x == d.name then LayersOf(layers, x) + [d] else LayersOf(layers, x)
  {
    assert (layers + [d])[..|layers|] == layers;
  }

  lemma ByNameMore(layers: seq<FakeDevice>, d: FakeDevice)
    ensures ByName(layers + [d]) ==
      ByName(layers)[d.name := Merge(if d.name in ByName(layers) then ByName(layers)[d.name] else NO_DEVICE, d)]
  {
    hide Merge, MergeAll, LayersOf, LayerNames;
    LayerNamesMore(layers, d);
    MergeAllMore(LayersOf(layers, d.name), d);
    MergeNone();
    forall x
      ensures LayersOf(layers + [d], x) == if x == d.name then LayersOf(layers, x) + [d] else LayersOf(layers, x)
    {
      LayersOfMore(layers, d, x);
    }
  }

  lemma LayerNamesMore(layers: seq<FakeDevice>, d: FakeDevice)
    ensures LayerNames(layers + [d]) == LayerNames(layers) + {d.name}
  {
  }

  lemma MergeNone()
    ensures MergeAll([]) == NO_DEVICE
  {
  }

  /** The inner loop: devices merged into the table by name. */
  method MergeInto(table: map<string, FakeDevice>, devices: seq<FakeDevice>, ghost layers: seq<FakeDevice>)
    returns (merged: map<string, FakeDevice>)
    requires table == ByName(layers)
    ensures merged == ByName(layers + devices)
  {
    hide ByName, Merge;
    merged := table;
    assert layers + devices[..0] == layers;
    for i := 0 to |devices|
      invariant merged == ByName(layers + devices[..i])
    {
      var d := devices[i];
      assert layers + devices[..i + 1] == layers + devices[..i] + [d];
      ByNameMore(layers + devices[..i], d);
      var m := MergeDevice(if d.name in merged then merged[d.name] else NO_DEVICE, d);
      merged := merged[d.name := m];
    }
    assert devices[..|devices|] == devices;
  }

  /** The layers of a node make devices: one for each name, each from the layers of its name. */
  ghost predicate DevicesOf(parse: Parser, layers: seq<FakeDevice>, devices: seq<ResourceDevice>) {
    var names := Sorted(LayerNames(layers));
    |devices| == |names| && forall i | 0 <= i < |names| :: DeviceFrom(parse, layers, names[i], devices[i])
  }

  predicate DeviceFrom(parse: Parser, layers: seq<FakeDevice>, name: string, d: ResourceDevice) {
    var merged := MergeAll(LayersOf(layers, name));
    Convertible(parse, merged) && d == Converted(parse, merged)
  }

  predicate AllConvertible(parse: Parser, layers: seq<FakeDevice>) {
    forall x | x in LayerNames(layers) :: Convertible(parse, MergeAll(LayersOf(layers, x)))
  }

  /** The loop over the groups, and the node's own entry. */
  method MergeLayers(cfg: DriverConfig, node: string, matches: Matcher) returns (r: Result<map<string, FakeDevice>>)
    ensures r == match Layers(cfg, matches, node) { case Failure => Failure case Success(l) => Success(ByName(l)) }
  {
    hide ByName;
    var devicesByName: map<string, FakeDevice> := map[];
    ghost var layers: seq<FakeDevice> := [];
    NoLayers();
    assert cfg.groups[..0] == [];
    for i := 0 to |cfg.groups|
      invariant GroupLayers(matches, cfg.groups[..i]) == Success(layers)
      invariant devicesByName == ByName(layers)
    {
      assert cfg.groups[..i + 1][..i] == cfg.groups[..i];
      var group := cfg.groups[i];
      var b := if group.selector.None? then Some(true) else matches(group.selector.value);
      if b.None? {
        GroupFails(matches, cfg.groups, i + 1);
        return Failure;
      }
      if b.value {
        devicesByName := MergeInto(devicesByName, group.devices, layers);
        layers := layers + group.devices;
      }
    }
    assert cfg.groups[..|cfg.groups|] == cfg.groups;
    if node in cfg.nodes {
      devicesByName := MergeInto(devicesByName, cfg.nodes[node], layers);
    }
    return Success(devicesByName);
  }

  /** The loop over the sorted names. */
  method BuildDevices(devicesByName: map<string, FakeDevice>, ghost layers: seq<FakeDevice>, parse: Parser)
    returns (r: Result<seq<ResourceDevice>>)
    requires devicesByName == ByName(layers)
    ensures r.Success? <==> AllConvertible(parse, layers)
    ensures r.Success? ==> DevicesOf(parse, layers, r.value)
  {
    hide ByName, LayerNames, LayersOf, MergeAll, Convertible, Converted, Sorted;
    ByNameKeys(layers);
    var names := Sorted(devicesByName.Keys);
    var devices: seq<ResourceDevice> := [];
    for i := 0 to |names|
      invariant |devices| == i
      invariant forall j | 0 <= j < i :: DeviceFrom(parse, layers, names[j], devices[j])
    {
      assert names[i] in names;
      var device := ToResourceDevice(parse, devicesByName[names[i]]);
      if device.Failure? { return Failure; }
      devices := devices + [device.value];
    }
    forall x | x in LayerNames(layers) ensures Convertible(parse, MergeAll(LayersOf(layers, x))) {
      var i :| 0 <= i < |names| && names[i] == x;
      assert DeviceFrom(parse, layers, names[i], devices[i]);
    }
    return Success(devices);
  }

  /** The devices of a node; none for a node that the configuration does not select. */
  method DevicesForNode(cfg: DriverConfig, node: string, matches: Matcher, parse: Parser)
    returns (r: Result<seq<ResourceDevice>>)
    ensures var selected := if cfg.nodeSelector.None? then Some(true) else matches(cfg.nodeSelector.value);
      var layers := Layers(cfg, matches, node);
      && (r.Failure? <==>
            selected.None? || (selected.value && (layers.Failure? || !AllConvertible(parse, layers.value))))
      && (r.Success? && !selected.value ==> r.value == [])
      && (r.Success? && selected.value ==> layers.Success? && DevicesOf(parse, layers.value, r.value))
  {
    hide Layers, ByName, AllConvertible, DevicesOf;
    var selected := if cfg.nodeSelector.None? then Some(true) else matches(cfg.nodeSelector.value);
    if selected.None? { return Failure; }
    if !selected.value { return Success([]); }
    var devicesByName := MergeLayers(cfg, node, matches);
    if devicesByName.Failure? { return Failure; }
    r := BuildDevices(devicesByName.value, Layers(cfg, matches, node).value, parse);
  }

  lemma NoLayers()
    ensures ByName([]) == map[]
  {
  }

  lemma ByNameKeys(layers: seq<FakeDevice>)
    ensures ByName(layers).Keys == LayerNames(layers)
    ensures forall x | x in LayerNames(layers) :: ByName(layers)[x] == MergeAll(LayersOf(layers, x))
  {
  }

  lemma {:induction false} GroupFails(matches: Matcher, groups: seq<Group>, i: nat)
    requires i <= |groups| && GroupLayers(matches, groups[..i]).Failure?
    ensures GroupLayers(matches, groups).Failure?
  {
    if i < |groups| {
      var n := |groups| - 1;
      assert groups[..n][..i] == groups[..i];
      GroupFails(matches, groups[..n], i);
    } else {
      assert groups[..i] == groups;
    }
  }

  /** There is one device for every name, in strictly ascending order of the names. */
  lemma OneDevicePerName(parse: Parser, layers: seq<FakeDevice>, devices: seq<ResourceDevice>)
    requires DevicesOf(parse, layers, devices)
    ensures forall i, j | 0 <= i < j < |devices| ::
      Below(devices[i].name, devices[j].name) && devices[i].name != devices[j].name
    ensures (set d | d in devices :: d.name) == LayerNames(layers)
    ensures forall i | 0 <= i < |devices| :: DeviceFrom(parse, layers, devices[i].name, devices[i])
  {
    hide LayerNames, DeviceFrom, Below, Sorted;
    var names := Sorted(LayerNames(layers));
    SortedAscending(LayerNames(layers));
    forall i | 0 <= i < |names| ensures devices[i].name == names[i] && devices[i] in devices {
      assert names[i] in names;
      MergedName(parse, layers, names[i], devices[i]);
    }
    assert forall x | x in LayerNames(layers) :: x in names;
  }

  lemma MergedName(parse: Parser, layers: seq<FakeDevice>, x: string, d: ResourceDevice)
    requires DeviceFrom(parse, layers, x, d)
    ensures d.name == x
  {
    hide Merge;
    var own := LayersOf(layers, x);
    MergeAllMeaning(own);
    var m := MergeAll(own);
    assert NamePart(m) == Some(d.name);
    var i :| 0 <= i < |own| && NamePart(own[i]) == Some(d.name);
    assert own[i] in own;
  }

  /** Sharing is as last configured, or turned on by a request policy. */
  predicate SharedAs(d: ResourceDevice, v: Option<bool>) {
    d.allow == if v.None? && exists k | k in d.capacity :: d.capacity[k].policy.Some? then Some(true) else v
  }

  predicate AttributeAs(d: ResourceDevice, key: string, v: Option<FakeAttribute>) {
    if key in d.attributes then v.Some? && OneSet(v.value) && AttributeIs(v.value, d.attributes[key]) else v.None?
  }

  ghost predicate AttributeFrom(own: seq<FakeDevice>, key: string, d: ResourceDevice) {
    exists v :: LastDefined(own, AttributePart(key), v) && AttributeAs(d, key, v)
  }

  /** The capacity is there if some layer lists it, converted from the last value and the last policy. */
  ghost predicate CapacityFrom(parse: Parser, own: seq<FakeDevice>, key: string, d: ResourceDevice) {
    if key in d.capacity then
      exists v, p ::
        && LastDefined(own, ValuePart(key), v) && LastDefined(own, PolicyPart(key), p)
        && CapacityIs(parse, FakeCapacity(if v.Some? then v.value else "", p), d.capacity[key])
    else UndefinedFrom(own, ListedPart(key), 0)
  }

  /** Every part of a device is converted from its last definition, in the order of the layers. */
  lemma DeviceMeaning(parse: Parser, layers: seq<FakeDevice>, x: string, d: ResourceDevice)
    requires DeviceFrom(parse, layers, x, d)
    ensures var own := LayersOf(layers, x);
      && (exists v :: LastDefined(own, AllowPart, v) && SharedAs(d, v))
      && (forall k :: AttributeFrom(own, k, d))
      && (forall k :: CapacityFrom(parse, own, k, d))
  {
    hide LastDefined, ToCapacity, ToAttribute, OneSet, MergeAll, Merge, SharedAs, AttributeAs, CapacityFrom;
    var own := LayersOf(layers, x);
    var m := MergeAll(own);
    MergeAllMeaning(own);
    PartsConverted(parse, m, d);
    assert LastDefined(own, AllowPart, AllowPart(m)) && SharedAs(d, AllowPart(m));
    forall k ensures AttributeFrom(own, k, d) {
      assert LastOfKey(own, m, k) && AttributeAs(d, k, AttributePart(k)(m));
    }
    forall k ensures CapacityFrom(parse, own, k, d) {
      assert LastOfKey(own, m, k);
      CapacityMeaning(parse, own, k, m, d);
    }
  }

  lemma PartsConverted(parse: Parser, m: FakeDevice, d: ResourceDevice)
    requires Convertible(parse, m) && d == Converted(parse, m)
    ensures SharedAs(d, AllowPart(m)) && forall k :: AttributeAs(d, k, AttributePart(k)(m))
  {
    hide ToCapacity, ToAttribute, OneSet;
    assert forall k | k in d.capacity :: d.capacity[k].policy.Some? <==> m.capacity[k].policy.Some?;
  }

  lemma CapacityMeaning(parse: Parser, own: seq<FakeDevice>, key: string, m: FakeDevice, d: ResourceDevice)
    requires Convertible(parse, m) && d == Converted(parse, m)
    requires LastDefined(own, ListedPart(key), ListedPart(key)(m))
    requires LastDefined(own, ValuePart(key), ValuePart(key)(m))
    requires LastDefined(own, PolicyPart(key), PolicyPart(key)(m))
    ensures CapacityFrom(parse, own, key, d)
  {
    hide ToCapacity, ToAttribute, OneSet, Sharing;
    if key in m.capacity {
      hide LastDefined;
      var v, p := ValuePart(key)(m), PolicyPart(key)(m);
      assert m.capacity[key] == FakeCapacity(if v.Some? then v.value else "", p);
    }
  }
}
