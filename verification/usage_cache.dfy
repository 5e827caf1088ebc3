/** The device-usage cache with its shared, mutable device records, refining the steps of UsageModel. */
module UsageCache {
  import opened Options
  import opened StringOrder
  import opened UsageModel
  import opened UsageTheorems

  class NodeDevice {
    const info: DeviceInfo
    // Where the device was stored; a device is created for one place and never moves.
    ghost const home: Address
    var coresUsed: int
    var memoryUsed: int

    constructor (info: DeviceInfo, ghost home: Address)
      ensures this.info == info && this.home == home && Used() == Usage(0, 0)
    {
      this.info := info;
      this.home := home;
      coresUsed, memoryUsed := 0, 0;
    }

    function Used(): Usage
      reads this
    {
      Usage(coresUsed, memoryUsed)
    }
  }

  function Infos(ds: seq<NodeDevice>): (r: seq<DeviceInfo>)
    ensures |r| == |ds| && forall i | 0 <= i < |ds| :: r[i] == ds[i].info
  {
    seq(|ds|, i requires 0 <= i < |ds| => ds[i].info)
  }

  function InfosOf(slices: map<string, seq<NodeDevice>>): (r: NodeLayout)
    ensures r.Keys == slices.Keys && forall s | s in slices :: r[s] == Infos(slices[s])
  {
    map s | s in slices :: Infos(slices[s])
  }

  /** The records of slice s on node n are known objects, each made for its own place. */
  ghost predicate Placed(n: string, s: string, ds: seq<NodeDevice>, objects: set<object>) {
    forall i | 0 <= i < |ds| :: ds[i] in objects && ds[i].home == Address(n, s, i)
  }

  lemma PlacedGrows(n: string, s: string, ds: seq<NodeDevice>, objects: set<object>, more: set<object>)
    requires Placed(n, s, ds, objects) && objects <= more
    ensures Placed(n, s, ds, more)
  {
  }

  /** ds holds the objects stored at the given places, in order. */
  ghost predicate Listed(ds: seq<NodeDevice>, slices: map<string, seq<NodeDevice>>, places: seq<Address>)
  {
    && |ds| == |places|
    && forall k | 0 <= k < |ds| ::
         && places[k].slice in slices && places[k].index < |slices[places[k].slice]|
         && ds[k] == slices[places[k].slice][places[k].index]
  }

  /** A node's slices hold known records made for their places, and its list holds them in order. */
  ghost predicate NodeValid(n: string, info: NodeDeviceInfo, objects: set<object>)
    reads info
  {
    && info.slices != map[]
    && (forall s | s in info.slices :: Placed(n, s, info.slices[s], objects))
    && Listed(info.devices, info.slices, DevicePlaces(n, InfosOf(info.slices)))
  }

  lemma NodePlaced(n: string, info: NodeDeviceInfo, objects: set<object>)
    requires NodeValid(n, info, objects)
    ensures forall s | s in info.slices :: Placed(n, s, info.slices[s], objects)
  {
  }

  lemma RebuiltValid(info: NodeDeviceInfo, objects: set<object>)
    requires info.slices != map[] && forall s | s in info.slices :: Placed(info.node, s, info.slices[s], objects)
    requires Listed(info.devices, info.slices, DevicePlaces(info.node, InfosOf(info.slices)))
    ensures NodeValid(info.node, info, objects)
  {
  }

  /** Storing new records for one slice, or removing it, keeps every record at its place. */
  lemma SlicesPlaced(node: string, slices: map<string, seq<NodeDevice>>, slice: string,
                     devices: Option<seq<NodeDevice>>, objects: set<object>, added: set<object>)
    requires forall s | s in slices :: Placed(node, s, slices[s], objects)
    requires devices.Some? ==> Placed(node, slice, devices.value, added)
    ensures forall s | s in SlicesWith(slices, slice, devices) ::
      Placed(node, s, SlicesWith(slices, slice, devices)[s], objects + added)
  {
    hide Placed;
    var after := SlicesWith(slices, slice, devices);
    forall s | s in after ensures Placed(node, s, after[s], objects + added) {
      if s == slice && devices.Some? {
        PlacedGrows(node, s, after[s], added, objects + added);
      } else {
        PlacedGrows(node, s, after[s], objects, objects + added);
      }
    }
  }

  function SlicesWith(slices: map<string, seq<NodeDevice>>, slice: string, devices: Option<seq<NodeDevice>>)
    : map<string, seq<NodeDevice>>
  {
    if devices.Some? then slices[slice := devices.value] else slices - {slice}
  }

  /** The other slices keep their records. */
  lemma SlicesWithAt(slices: map<string, seq<NodeDevice>>, slice: string, devices: Option<seq<NodeDevice>>)
    ensures var after := SlicesWith(slices, slice, devices);
            && (forall s | s in after && s != slice :: s in slices && after[s] == slices[s])
            && (slice in after ==> devices == Some(after[slice]))
  {
  }

  function InfosIn(devices: Option<seq<NodeDevice>>): Option<seq<DeviceInfo>> {
    if devices.Some? then Some(Infos(devices.value)) else None
  }

  function RecordsIn(devices: Option<seq<NodeDevice>>): set<object> {
    if devices.Some? then set d | d in devices.value else {}
  }

  lemma InfosWith(slices: map<string, seq<NodeDevice>>, slice: string, devices: Option<seq<NodeDevice>>)
    ensures InfosOf(SlicesWith(slices, slice, devices)) ==
            if devices.Some? then InfosOf(slices)[slice := Infos(devices.value)] else InfosOf(slices) - {slice}
  {
    hide Infos;
  }

  lemma NodeValidGrows(n: string, info: NodeDeviceInfo, objects: set<object>, more: set<object>)
    requires NodeValid(n, info, objects) && objects <= more
    ensures NodeValid(n, info, more)
  {
    hide Listed, DevicePlaces, InfosOf;
  }

  lemma NothingListed(node: string, slices: map<string, seq<NodeDevice>>)
    ensures Listed([], slices, Places(node, InfosOf(slices), []))
  {
  }

  /** Appending the devices of the next slice lists the places of one more name. */
  lemma ListedNext(node: string, slices: map<string, seq<NodeDevice>>, ds: seq<NodeDevice>, names: seq<string>, k: nat)
    requires k < |names| && forall s | s in names :: s in slices
    requires Listed(ds, slices, Places(node, InfosOf(slices), names[..k]))
    ensures Listed(ds + slices[names[k]], slices, Places(node, InfosOf(slices), names[..k + 1]))
  {
    assert names[..k + 1][..k] == names[..k];
  }

  class NodeDeviceInfo {
    ghost const node: string
    // The devices of every slice, slices in name order.
    var devices: seq<NodeDevice>
    var slices: map<string, seq<NodeDevice>>

    constructor (ghost node: string)
      ensures this.node == node && slices == map[]
    {
      this.node := node;
      devices, slices := [], map[];
    }

    /** Takes new slices and lists the devices of all of them, slices in name order. */
    method Rebuild(newSlices: map<string, seq<NodeDevice>>)
      modifies this
      ensures slices == newSlices && Listed(devices, slices, DevicePlaces(node, InfosOf(slices)))
    {
      hide Sorted, Listed, Places, InfosOf;
      slices, devices := newSlices, [];
      var names := Sorted(slices.Keys);
      ghost var infos := InfosOf(slices);
      assert names[..0] == [];
      NothingListed(node, slices);
      for k := 0 to |names|
        invariant slices == newSlices
        invariant Listed(devices, slices, Places(node, infos, names[..k]))
      {
        ListedNext(node, slices, devices, names, k);
        devices := devices + slices[names[k]];
      }
      assert names[..|names|] == names;
    }
  }

  /** The scan for the first device of a name finds the abstract target. */
  lemma {:induction false} ScanFinds(slices: NodeLayout, places: seq<Address>, device: string, k: nat)
    requires forall a | a in places :: a.slice in slices && a.index < |slices[a.slice]|
    requires k <= |places|
    requires forall j | 0 <= j < k :: slices[places[j].slice][places[j].index].name != device
    requires k < |places| ==> slices[places[k].slice][places[k].index].name == device
    ensures FirstNamed(slices, places, device) == if k < |places| then Some(places[k]) else None
  {
    if k > 0 {
      ScanFinds(slices, places[1..], device, k - 1);
    }
  }

  class NodeDevices {
    var nodes: map<string, NodeDeviceInfo>
    var claims: map<string, DeviceAllocation>
    ghost var Repr: set<object>

    // Validity and layout depend on neither the counters nor the claim table, so writing those leaves them alone.
    ghost predicate Valid()
      reads `nodes, `Repr, nodes.Values
      ensures Valid() ==> this in Repr
    {
      this in Repr
      && forall n | n in nodes :: nodes[n] in Repr && nodes[n].node == n && NodeValid(n, nodes[n], Repr)
    }

    ghost function Layout(): Layout
      reads `nodes, `Repr, nodes.Values
      requires Valid()
    {
      map n | n in nodes :: InfosOf(nodes[n].slices)
    }

    ghost function DeviceAt(a: Address): NodeDevice
      reads `nodes, `Repr, nodes.Values
      requires Valid() && InLayout(Layout(), a)
      ensures DeviceAt(a) in Repr && DeviceAt(a).home == a && DeviceAt(a).info == InfoAt(Layout(), a)
    {
      assert Placed(a.node, a.slice, nodes[a.node].slices[a.slice], Repr);
      nodes[a.node].slices[a.slice][a.index]
    }

    /** The abstract state. */
    ghost function View(): (r: State)
      reads this, nodes.Values, Repr
      requires Valid()
      ensures r.Valid() && r.layout == Layout() && r.claims == claims
    {
      State(Layout(), map a | a in Addresses(Layout()) :: DeviceAt(a).Used(), claims)
    }

    constructor ()
      ensures Valid() && fresh(Repr) && View() == EMPTY
    {
      nodes, claims := map[], map[];
      Repr := {this};
    }

    /** Finds the record that usage naming `device` on `node` is charged to. */
    method Find(node: string, device: string) returns (found: Option<NodeDevice>)
      requires Valid()
      ensures found.None? <==> Target(View().layout, node, device).None?
      ensures found.Some? ==>
        && Target(View().layout, node, device) == Some(found.value.home) && found.value == DeviceAt(found.value.home)
        && View().used[found.value.home] == found.value.Used()
    {
      hide DevicePlaces;
      if node !in nodes { return None; }
      var info := nodes[node];
      assert NodeValid(node, nodes[node], Repr);
      ghost var slices := InfosOf(info.slices);
      ghost var places := DevicePlaces(node, slices);
      for k := 0 to |info.devices|
        invariant forall j | 0 <= j < k :: slices[places[j].slice][places[j].index].name != device
      {
        if info.devices[k].info.name == device {
          ScanFinds(slices, places, device, k);
          assert places[k] in places;
          return Some(info.devices[k]);
        }
      }
      ScanFinds(slices, places, device, |places|);
      return None;
    }

    /** Writing one record changes one counter of the abstract state. */
    method Write(d: NodeDevice, u: Usage)
      requires Valid() && InLayout(Layout(), d.home) && d == DeviceAt(d.home)
      modifies d
      ensures Valid()
      ensures View() == old(View()).(used := old(View().used)[d.home := u])
    {
      hide Layout, DeviceAt, Valid, Target;
      d.coresUsed, d.memoryUsed := u.cores, u.memory;
      forall a | a in Addresses(Layout())
        ensures DeviceAt(a).Used() == if a == d.home then u else old(DeviceAt(a).Used())
      {
        assert DeviceAt(a).home == a;
      }
      assert View().used == old(View().used)[d.home := u];
    }

    /** The two counters only grow by u; the record is the first of its name. */
    method IncreaseNodeUsage(node: string, device: string, u: Usage)
      requires Valid()
      modifies Repr
      ensures Valid() && Repr == old(Repr)
      ensures View() == Increase(old(View()), node, device, u)
    {
      hide Target, Layout, DeviceAt, Valid, View;
      var found := Find(node, device);
      if found.Some? {
        var d := found.value;
        Write(d, Usage(d.coresUsed + u.cores, d.memoryUsed + u.memory));
      }
    }

    method DecreaseNodeUsage(node: string, device: string, u: Usage)
      requires Valid()
      modifies Repr
      ensures Valid() && Repr == old(Repr)
      ensures View() == Decrease(old(View()), node, device, u)
    {
      hide Target, Layout, DeviceAt, Valid, View;
      var found := Find(node, device);
      if found.Some? {
        var d := found.value;
        var cores, memory := d.coresUsed - u.cores, d.memoryUsed - u.memory;
        if cores < 0 { cores := 0; }
        if memory < 0 { memory := 0; }
        Write(d, Usage(cores, memory));
      }
    }

    /** getNodeNameFromNodeSelector and the loop over the results, then the table entry. */
    method AddClaim(c: ResourceClaim)
      requires Valid()
      modifies Repr
      ensures Valid() && Repr == old(Repr)
      ensures View() == UsageModel.AddClaim(old(View()), c)
    {
      hide Valid, View, Increase;
      if c.status.allocation.None? || c.status.allocation.value.results.None? { return; }
      var node := NodeOfSelector(c.status.allocation.value.nodeSelector);
      if node.None? { return; }
      var results := c.status.allocation.value.results.value;
      var counted: seq<AllocationResult> := [];
      assert results[..0] == [];
      for i := 0 to |results|
        invariant Valid() && Repr == old(Repr)
        invariant counted == ResultsOf(c.namespace, results[..i])
        invariant View() == AddResults(old(View()), node.value, counted)
      {
        assert results[..i + 1][..i] == results[..i];
        if results[i].consumed.Some? && results[i].device != "" {
          var consumed := results[i].consumed.value;
          var used := Usage(ConsumedCores(consumed), Lookup(consumed, "memory"));
          var r := AllocationResult(c.namespace, results[i].device, used);
          IncreaseNodeUsage(node.value, r.device, r.usage);
          assert (counted + [r])[..|counted|] == counted;
          counted := counted + [r];
        }
      }
      assert results[..|results|] == results;
      Store(claims[ClaimKey(c) := DeviceAllocation(counted, c.status.reservedFor, node.value)]);
    }

    /** Replaces the claim table and nothing else. */
    method Store(table: map<string, DeviceAllocation>)
      requires Valid()
      modifies this`claims
      ensures Valid() && View() == old(View()).(claims := table)
    {
      hide Layout, DeviceAt, Valid;
      claims := table;
      assert View().used == old(View().used);
    }

    /** Releases what the table holds for the claim, or else what the claim reports. */
    method DeleteClaim(c: ResourceClaim)
      requires Valid()
      modifies Repr
      ensures Valid() && Repr == old(Repr)
      ensures View() == UsageModel.DeleteClaim(old(View()), c)
    {
      hide Valid, View, Decrease;
      var key := ClaimKey(c);
      if key !in claims {
        if c.status.allocation.None? || c.status.allocation.value.results.None? { return; }
        var node := NodeOfSelector(c.status.allocation.value.nodeSelector);
        if node.None? { return; }
        var results := c.status.allocation.value.results.value;
        ghost var counted: seq<AllocationResult> := [];
        assert results[..0] == [];
        for i := 0 to |results|
          invariant Valid() && Repr == old(Repr)
          invariant counted == ResultsOf(c.namespace, results[..i])
          invariant View() == RemoveResults(old(View()), node.value, counted)
        {
          assert results[..i + 1][..i] == results[..i];
          if results[i].consumed.Some? && results[i].device != "" {
            var consumed := results[i].consumed.value;
            var used := Usage(ConsumedCores(consumed), Lookup(consumed, "memory"));
            DecreaseNodeUsage(node.value, results[i].device, used);
            ghost var r := AllocationResult(c.namespace, results[i].device, used);
            assert (counted + [r])[..|counted|] == counted;
            counted := counted + [r];
          }
        }
        assert results[..|results|] == results;
      } else {
        var al := claims[key];
        assert al.results[..0] == [];
        for i := 0 to |al.results|
          invariant Valid() && Repr == old(Repr)
          invariant View() == RemoveResults(old(View()), al.node, al.results[..i])
        {
          assert al.results[..i + 1][..i] == al.results[..i];
          DecreaseNodeUsage(al.node, al.results[i].device, al.results[i].usage);
        }
        assert al.results[..|al.results|] == al.results;
        Store(claims - {key});
      }
    }

    method UpdateClaim(o: ResourceClaim, n: ResourceClaim)
      requires Valid()
      modifies Repr
      ensures Valid() && Repr == old(Repr)
      ensures View() == UsageModel.AddClaim(UsageModel.DeleteClaim(old(View()), o), n)
    {
      hide Valid, View, UsageModel.AddClaim, UsageModel.DeleteClaim;
      DeleteClaim(o);
      AddClaim(n);
    }

    /** Fresh records, at zero usage, for the devices of a slice on `node`. */
    method ParseNodeDevice(slice: ResourceSlice, ghost node: string) returns (devices: seq<NodeDevice>)
      ensures Infos(devices) == ParseSlice(slice)
      ensures forall i | 0 <= i < |devices| ::
        devices[i].home == Address(node, slice.name, i) && devices[i].Used() == Usage(0, 0)
      ensures forall i | 0 <= i < |devices| :: fresh(devices[i])
    {
      devices := [];
      for i := 0 to |slice.devices|
        invariant |devices| == i
        invariant forall j | 0 <= j < i ::
          && fresh(devices[j]) && devices[j].info == ParseSlice(slice)[j]
          && devices[j].home == Address(node, slice.name, j) && devices[j].Used() == Usage(0, 0)
      {
        var d := slice.devices[i];
        var coresTotal, coreScale := Lookup(d.capacity, "cores"), 100;
        if "cores" !in d.capacity && "computeUnits" in d.capacity {
          coresTotal, coreScale := d.capacity["computeUnits"], d.capacity["computeUnits"];
        }
        var record := new NodeDevice(
          DeviceInfo(d.name, slice.driver, Attribute(d, "uuid"), Attribute(d, "architecture"), Attribute(d, "brand"),
                     Attribute(d, "productName"), coresTotal, coreScale, Lookup(d.capacity, "memory")),
          Address(node, slice.name, i));
        devices := devices + [record];
      }
    }

    /** Gives a node new slices and lists their devices; no counter changes. */
    method Install(node: string, info: NodeDeviceInfo, slices: map<string, seq<NodeDevice>>, ghost added: set<object>)
      requires Valid() && slices != map[] && info.node == node
      requires if node in nodes then nodes[node] == info else info !in nodes.Values
      requires forall s | s in slices :: Placed(node, s, slices[s], Repr + added)
      modifies `nodes, `Repr, info
      ensures Valid() && Repr == old(Repr) + {info} + added
      ensures nodes == old(nodes)[node := info] && info.slices == slices
    {
      hide NodeValid, Placed, Listed, InfosOf, DevicePlaces;
      ghost var objects := Repr + added;
      info.Rebuild(slices);
      RebuiltValid(info, objects);
      nodes := nodes[node := info];
      Repr := Repr + {info} + added;
      NodeValidGrows(node, info, objects, Repr);
      forall n | n in nodes && n != node ensures NodeValid(n, nodes[n], Repr) {
        NodeValidGrows(n, nodes[n], old(Repr), Repr);
      }
    }

    /** Installing slices on one node changes the layout of that node only. */
    twostate lemma ReshapedLayout(node: string, new info: NodeDeviceInfo)
      requires old(Valid()) && Valid()
      requires nodes == old(nodes)[node := info]
      requires forall n | n in old(nodes) && n != node :: nodes[n].slices == old(nodes[n].slices)
      ensures Layout() == old(Layout())[node := InfosOf(info.slices)]
    {
      hide Valid, InfosOf;
      var expected, after := old(Layout())[node := InfosOf(info.slices)], Layout();
      forall n
        ensures n in after <==> n in expected
        ensures n in after ==> after[n] == expected[n]
      {
        if n in nodes && n != node { assert nodes[n].slices == old(nodes[n].slices); }
      }
    }

    /** Records of other nodes stay where they were. */
    twostate lemma ReshapedRecords(node: string, new info: NodeDeviceInfo)
      requires old(Valid()) && Valid()
      requires nodes == old(nodes)[node := info]
      requires forall n | n in old(nodes) && n != node :: nodes[n].slices == old(nodes[n].slices)
      ensures forall a | InLayout(Layout(), a) && a.node != node ::
        InLayout(old(Layout()), a) && DeviceAt(a) == old(DeviceAt(a))
      ensures forall a | InLayout(Layout(), a) && a.node == node :: DeviceAt(a) == info.slices[a.slice][a.index]
    {
      hide NodeValid;
    }

    /** Takes a node without slices out of the table. */
    method DropNode(node: string)
      requires Valid()
      modifies `nodes
      ensures Valid() && nodes == old(nodes) - {node} && Layout() == old(Layout()) - {node}
      ensures forall a | InLayout(Layout(), a) :: InLayout(old(Layout()), a) && DeviceAt(a) == old(DeviceAt(a))
    {
      hide NodeValid;
      nodes := nodes - {node};
    }

    /** The slices a node will hold, every record at its place. */
    method NextSlices(node: string, slice: string, devices: Option<seq<NodeDevice>>)
      returns (slices: map<string, seq<NodeDevice>>)
      requires Valid()
      requires devices.Some? ==> Placed(node, slice, devices.value, RecordsIn(devices))
      ensures slices == SlicesWith(if node in nodes then nodes[node].slices else map[], slice, devices)
      ensures forall s | s in slices :: Placed(node, s, slices[s], Repr + RecordsIn(devices))
      ensures InfosOf(slices) == SlicesAfter(Layout(), node, slice, InfosIn(devices))
    {
      hide NodeValid, Placed, RecordsIn, InfosOf;
      slices := map[];
      if node in nodes {
        slices := nodes[node].slices;
        NodePlaced(node, nodes[node], Repr);
      } else {
        assert InfosOf(slices) == map[];
      }
      SlicesPlaced(node, slices, slice, devices, Repr, RecordsIn(devices));
      InfosWith(slices, slice, devices);
      slices := SlicesWith(slices, slice, devices);
    }

    /** Stores or removes one slice and rebuilds the node's device list; no counter changes. */
    method RebuildNode(node: string, slice: string, devices: Option<seq<NodeDevice>>)
      requires Valid()
      requires devices.Some? ==> Placed(node, slice, devices.value, RecordsIn(devices))
      modifies `nodes, `Repr, nodes.Values
      ensures Valid() && fresh(Repr - old(Repr) - RecordsIn(devices))
      ensures Layout() == LayoutAfter(old(Layout()), node, slice, InfosIn(devices))
      ensures forall a | InLayout(Layout(), a) && (a.node != node || a.slice != slice) ::
        InLayout(old(Layout()), a) && DeviceAt(a) == old(DeviceAt(a))
      ensures forall a | InLayout(Layout(), a) && a.node == node && a.slice == slice ::
        devices.Some? && DeviceAt(a) in devices.value
    {
      hide Valid, NodeValid, Placed, RecordsIn, InfosOf, SlicesAfter, SlicesWith;
      InfosKnown();
      var slices := NextSlices(node, slice, devices);
      SlicesWithAt(if node in nodes then nodes[node].slices else map[], slice, devices);
      if slices == map[] {
        DropNode(node);
      } else {
        Put(node, slices, RecordsIn(devices));
      }
    }

    /** Gives a node, new or known, its slices. */
    method Put(node: string, slices: map<string, seq<NodeDevice>>, ghost added: set<object>)
      requires Valid() && slices != map[]
      requires forall s | s in slices :: Placed(node, s, slices[s], Repr + added)
      modifies `nodes, `Repr, nodes.Values
      ensures Valid() && fresh(Repr - old(Repr) - added)
      ensures Layout() == old(Layout())[node := InfosOf(slices)]
      ensures forall a | InLayout(Layout(), a) && a.node != node ::
        InLayout(old(Layout()), a) && DeviceAt(a) == old(DeviceAt(a))
      ensures forall a | InLayout(Layout(), a) && a.node == node :: DeviceAt(a) == slices[a.slice][a.index]
    {
      hide Valid, NodeValid, Placed, InfosOf, Layout, DeviceAt;
      InfosKnown();
      var info: NodeDeviceInfo;
      if node in nodes {
        info := nodes[node];
      } else {
        info := new NodeDeviceInfo(node);
      }
      Install(node, info, slices, added);
      ReshapedLayout(node, info);
      ReshapedRecords(node, info);
    }

    lemma ViewAt(a: Address)
      requires Valid() && InLayout(Layout(), a)
      ensures a in View().used && View().used[a] == DeviceAt(a).Used()
    {
      hide Valid, Layout, DeviceAt;
    }

    /** The rebuild seen abstractly: new records at zero, all others as they were. */
    method RebuildView(node: string, slice: string, devices: Option<seq<NodeDevice>>)
      requires Valid()
      requires devices.Some? ==> Placed(node, slice, devices.value, RecordsIn(devices))
      requires devices.Some? ==> forall d | d in devices.value :: d.Used() == Usage(0, 0)
      modifies `nodes, `Repr, nodes.Values
      ensures Valid() && fresh(Repr - old(Repr) - RecordsIn(devices))
      ensures View() == Rebuilt(old(View()), node, slice, InfosIn(devices), false)
    {
      hide Valid, View, Layout, DeviceAt, LayoutAfter, RecordsIn, Rebuilt, InfosIn, Placed, InLayout, InfoAt;
      ghost var st := View();
      forall a | InLayout(Layout(), a) ensures a in st.used && st.used[a] == DeviceAt(a).Used() { ViewAt(a); }
      RebuildNode(node, slice, devices);
      ghost var r := Rebuilt(st, node, slice, InfosIn(devices), false);
      forall a | InLayout(Layout(), a) ensures a in r.used && View().used[a] == r.used[a] {
        RebuiltAt(st, node, slice, InfosIn(devices), a);
        ViewAt(a);
      }
      assert View().used == r.used;
    }

    /** Adds the usage of every cached claim of a node, in whatever order the claims come. */
    method RecomputeUsage(node: string)
      requires Valid()
      modifies Repr
      ensures Valid() && Repr == old(Repr)
      ensures View() == Recounted(old(View()), node, claims)
    {
      hide Valid, View, AddResults, Recounted;
      var rest := claims.Keys;
      ghost var done: map<string, DeviceAllocation> := map[];
      RecountedNone(View(), node);
      while rest != {}
        invariant Valid() && Repr == old(Repr)
        invariant rest <= claims.Keys && claims == old(claims)
        invariant done.Keys == claims.Keys - rest && forall k | k in done :: done[k] == claims[k]
        invariant View() == Recounted(old(View()), node, done)
      {
        var k :| k in rest;
        var al := claims[k];
        RecountedMore(old(View()), node, done, k, al);
        if al.node == node {
          ChargeAll(node, al.results);
        }
        rest := rest - {k};
        done := done[k := al];
      }
      assert done == claims;
    }

    /** The inner loop over the results of one claim. */
    method ChargeAll(node: string, results: seq<AllocationResult>)
      requires Valid()
      modifies Repr
      ensures Valid() && Repr == old(Repr)
      ensures View() == AddResults(old(View()), node, results)
    {
      hide Valid, View, Increase;
      assert results[..0] == [];
      for i := 0 to |results|
        invariant Valid() && Repr == old(Repr)
        invariant View() == AddResults(old(View()), node, results[..i])
      {
        assert results[..i + 1][..i] == results[..i];
        IncreaseNodeUsage(node, results[i].device, results[i].usage);
      }
      assert results[..|results|] == results;
    }

    /** Stores or removes one slice, rebuilds the node's device list and recomputes usage. */
    method SetSliceDevices(node: string, slice: string, devices: Option<seq<NodeDevice>>)
      requires Valid()
      requires devices.Some? ==> Placed(node, slice, devices.value, RecordsIn(devices))
      requires devices.Some? ==> forall d | d in devices.value :: d.Used() == Usage(0, 0)
      modifies Repr, RecordsIn(devices)
      ensures Valid() && fresh(Repr - old(Repr) - RecordsIn(devices))
      ensures View() == SetSlice(old(View()), node, slice, InfosIn(devices), false)
    {
      hide Valid, View, SetSlice, Rebuilt, Recounted, RecordsIn;
      InfosKnown();
      SetSliceIsRecounted(View(), node, slice, InfosIn(devices));
      RebuildView(node, slice, devices);
      RecomputeUsage(node);
    }

    lemma InfosKnown()
      requires Valid()
      ensures this in Repr && forall n | n in nodes :: nodes[n] in Repr && nodes[n].node == n
    {
    }
  }

  /** The counters of one node raised by what the given claims expect. */
  ghost function Recounted(st: State, node: string, claims: map<string, DeviceAllocation>): (r: State)
    requires st.Valid()
    ensures r.Valid() && r.layout == st.layout && r.claims == st.claims
  {
    hide Target;
    st.(used := map a | a in st.used ::
      if a.node == node then st.used[a].Plus(Expected(st.layout, claims, a)) else st.used[a])
  }

  lemma RecountedNone(st: State, node: string)
    requires st.Valid()
    ensures Recounted(st, node, map[]) == st
  {
    hide Target;
    assert Recounted(st, node, map[]).used == st.used;
  }

  lemma RecountedMoreAt(st: State, node: string, claims: map<string, DeviceAllocation>, k: string, al: DeviceAllocation,
                        a: Address)
    requires st.Valid() && k !in claims && a in st.used
    ensures Recounted(st, node, claims[k := al]).used[a] ==
            if al.node == node then AddResults(Recounted(st, node, claims), node, al.results).used[a]
            else Recounted(st, node, claims).used[a]
  {
    hide Target, Expected, AddResults, ChargeOf;
    ExpectedInsert(st.layout, claims, k, al, a);
    AddResultsAt(Recounted(st, node, claims), node, al.results, a);
    ShareElsewhere(st.layout, al.node, al.results, a);
  }

  lemma ShareElsewhere(layout: Layout, node: string, results: seq<AllocationResult>, a: Address)
    requires InLayout(layout, a)
    ensures a.node != node ==> Share(layout, node, results, a) == Usage(0, 0)
  {
    hide Target, ResultsSum;
  }

  lemma RecountedMore(st: State, node: string, claims: map<string, DeviceAllocation>, k: string, al: DeviceAllocation)
    requires st.Valid() && k !in claims
    ensures Recounted(st, node, claims[k := al]) ==
            if al.node == node then AddResults(Recounted(st, node, claims), node, al.results)
            else Recounted(st, node, claims)
  {
    hide Target, Expected, AddResults, Recounted;
    var before, after := Recounted(st, node, claims), Recounted(st, node, claims[k := al]);
    var expected := if al.node == node then AddResults(before, node, al.results) else before;
    forall a | a in st.used ensures after.used[a] == expected.used[a] {
      RecountedMoreAt(st, node, claims, k, al, a);
    }
    assert after.used == expected.used;
  }

  lemma RebuiltAt(st: State, node: string, slice: string, devices: Option<seq<DeviceInfo>>, a: Address)
    requires st.Valid() && InLayout(LayoutAfter(st.layout, node, slice, devices), a)
    ensures var r := Rebuilt(st, node, slice, devices, false);
            && a in r.used
            && if a.node == node && a.slice == slice then r.used[a] == Usage(0, 0)
               else a in st.used && r.used[a] == st.used[a]
  {
  }

  lemma SetSliceIsRecounted(st: State, node: string, slice: string, devices: Option<seq<DeviceInfo>>)
    requires st.Valid()
    ensures SetSlice(st, node, slice, devices, false) ==
            Recounted(Rebuilt(st, node, slice, devices, false), node, st.claims)
  {
    hide Target, Expected, Rebuilt;
    assert SetSlice(st, node, slice, devices, false).used ==
           Recounted(Rebuilt(st, node, slice, devices, false), node, st.claims).used;
  }

  /** The informer callbacks. `history` records the events delivered so far. */
  class Cache {
    const devices: NodeDevices
    ghost var history: seq<Event>

    /** The cache is in the state the abstract machine reaches on the events delivered so far. */
    ghost predicate Valid()
      reads this, devices, devices.Repr, devices.nodes.Values
    {
      && devices.Valid() && this !in devices.Repr
      && LegalRun(history)
      && devices.View() == Run(history, false)
    }

    constructor ()
      ensures Valid() && history == [] && fresh(devices) && fresh(devices.Repr)
    {
      devices := new NodeDevices();
      history := [];
    }

    /** Records the event once the callback has taken the abstract step. */
    ghost method Record(e: Event)
      requires devices.Valid() && this !in devices.Repr && LegalRun(history) && Legal(After(history), e)
      requires devices.View() == Step(Run(history, false), e, false)
      modifies `history
      ensures Valid() && history == old(history) + [e]
    {
      hide Step, Legal, NodeDevices.Valid, NodeDevices.View;
      assert (history + [e])[..|history|] == history;
      history := history + [e];
    }

    method OnAddSlice(s: ResourceSlice)
      requires Valid() && Legal(After(history), SliceAdded(s))
      modifies `history, devices.Repr
      ensures Valid() && fresh(devices.Repr - old(devices.Repr)) && history == old(history) + [SliceAdded(s)]
    {
      hide Run, SetSlice, NodeDevices.Valid, NodeDevices.View, LegalRun;
      if s.nodeName.Some? {
        Set(s.nodeName.value, s);
      }
      Record(SliceAdded(s));
    }

    method OnUpdateSlice(o: ResourceSlice, n: ResourceSlice)
      requires Valid() && Legal(After(history), SliceUpdated(o, n))
      modifies `history, devices.Repr
      ensures Valid() && fresh(devices.Repr - old(devices.Repr)) && history == old(history) + [SliceUpdated(o, n)]
    {
      hide Run, SetSlice, NodeDevices.Valid, NodeDevices.View, LegalRun;
      if n.nodeName.Some? {
        if o.nodeName.Some? && o.nodeName.value != n.nodeName.value {
          devices.SetSliceDevices(o.nodeName.value, o.name, None);
        }
        Set(n.nodeName.value, n);
      }
      Record(SliceUpdated(o, n));
    }

    method OnDeleteSlice(s: ResourceSlice)
      requires Valid() && Legal(After(history), SliceDeleted(s))
      modifies `history, devices.Repr
      ensures Valid() && fresh(devices.Repr - old(devices.Repr)) && history == old(history) + [SliceDeleted(s)]
    {
      hide Run, SetSlice, NodeDevices.Valid, NodeDevices.View, LegalRun;
      if s.nodeName.Some? {
        devices.SetSliceDevices(s.nodeName.value, s.name, None);
      }
      Record(SliceDeleted(s));
    }

    /** Parses a slice into fresh records and stores them. */
    method Set(node: string, s: ResourceSlice)
      requires devices.Valid() && this !in devices.Repr
      modifies devices.Repr
      ensures devices.Valid() && this !in devices.Repr && fresh(devices.Repr - old(devices.Repr))
      ensures devices.View() == SetSlice(old(devices.View()), node, s.name, Some(ParseSlice(s)), false)
    {
      hide SetSlice, NodeDevices.Valid, NodeDevices.View;
      var records := devices.ParseNodeDevice(s, node);
      devices.SetSliceDevices(node, s.name, Some(records));
    }

    method OnAddClaim(c: ResourceClaim)
      requires Valid() && Legal(After(history), ClaimAdded(c))
      modifies `history, devices.Repr
      ensures Valid() && devices.Repr == old(devices.Repr) && history == old(history) + [ClaimAdded(c)]
    {
      hide Run, UsageModel.AddClaim, NodeDevices.Valid, NodeDevices.View, LegalRun;
      devices.AddClaim(c);
      Record(ClaimAdded(c));
    }

    /** An update that leaves the status as it was is skipped. */
    method OnUpdateClaim(o: ResourceClaim, n: ResourceClaim)
      requires Valid() && Legal(After(history), ClaimUpdated(o, n))
      modifies `history, devices.Repr
      ensures Valid() && devices.Repr == old(devices.Repr) && history == old(history) + [ClaimUpdated(o, n)]
    {
      hide Run, UsageModel.AddClaim, UsageModel.DeleteClaim, NodeDevices.Valid, NodeDevices.View, LegalRun;
      if o.status != n.status {
        devices.UpdateClaim(o, n);
      }
      Record(ClaimUpdated(o, n));
    }

    method OnDeleteClaim(c: ResourceClaim)
      requires Valid() && Legal(After(history), ClaimDeleted(c))
      modifies `history, devices.Repr
      ensures Valid() && devices.Repr == old(devices.Repr) && history == old(history) + [ClaimDeleted(c)]
    {
      hide Run, UsageModel.DeleteClaim, NodeDevices.Valid, NodeDevices.View, LegalRun;
      devices.DeleteClaim(c);
      Record(ClaimDeleted(c));
    }
  }
}
