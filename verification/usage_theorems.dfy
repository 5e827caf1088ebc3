/** What every run of the device-usage cache keeps, and when it equals usage computed from scratch. */
module UsageTheorems {
  import opened Options
  import opened UsageModel

  /******* Sums over the claim table *******/

  lemma PlusSwap(a: Usage, b: Usage, c: Usage)
    ensures a.Plus(b).Plus(c) == a.Plus(c).Plus(b)
  {
  }

  lemma {:induction false} SumOverRemove<K(!new)>(keys: set<K>, f: K -> Usage, k: K)
    requires k in keys
    ensures SumOver(keys, f) == SumOver(keys - {k}, f).Plus(f(k))
  {
    var p := Pick(keys);
    if p != k {
      var less := keys - {k};
      SumOverRemove(keys - {p}, f, k);
      SumOverRemove(less, f, p);
      assert keys - {p} - {k} == less - {p};
      PlusSwap(SumOver(less - {p}, f), f(k), f(p));
    }
  }

  lemma {:induction false} SumOverSame<K(!new)>(keys: set<K>, f: K -> Usage, g: K -> Usage)
    requires forall k | k in keys :: f(k) == g(k)
    ensures SumOver(keys, f) == SumOver(keys, g)
  {
    if keys != {} {
      SumOverSame(keys - {Pick(keys)}, f, g);
    }
  }

  /** Dropping one entry of the table lowers the sum by that entry, whatever order the sum was taken in. */
  lemma ChargeRemove(claims: map<string, DeviceAllocation>, k: string, node: string, device: string)
    requires k in claims
    ensures Charge(claims, node, device) ==
            Charge(claims - {k}, node, device).Plus(ChargeOf(claims[k].node, claims[k].results, node, device))
  {
    hide ChargeOf;
    SumOverRemove(claims.Keys, ChargeAt(claims, node, device), k);
    assert (claims - {k}).Keys == claims.Keys - {k};
    SumOverSame(claims.Keys - {k}, ChargeAt(claims, node, device), ChargeAt(claims - {k}, node, device));
  }

  lemma ChargeInsert(claims: map<string, DeviceAllocation>, k: string, al: DeviceAllocation, node: string,
                     device: string)
    requires k !in claims
    ensures Charge(claims[k := al], node, device) ==
            Charge(claims, node, device).Plus(ChargeOf(al.node, al.results, node, device))
  {
    hide Charge, ChargeOf;
    ChargeRemove(claims[k := al], k, node, device);
    assert claims[k := al] - {k} == claims;
  }

  lemma {:induction false} ResultsSumNonNegative(results: seq<AllocationResult>, device: string)
    requires NonNegativeResults(results)
    ensures ResultsSum(results, device).NonNegative()
  {
    if results != [] {
      ResultsSumNonNegative(results[..|results| - 1], device);
    }
  }

  lemma {:induction false} SumOverNonNegative<K(!new)>(keys: set<K>, f: K -> Usage)
    requires forall k | k in keys :: f(k).NonNegative()
    ensures SumOver(keys, f).NonNegative()
  {
    if keys != {} {
      SumOverNonNegative(keys - {Pick(keys)}, f);
    }
  }

  lemma ChargeNonNegative(claims: map<string, DeviceAllocation>, node: string, device: string)
    requires NonNegativeTable(claims)
    ensures Charge(claims, node, device).NonNegative()
  {
    forall k | k in claims.Keys ensures ChargeAt(claims, node, device)(k).NonNegative() {
      ResultsSumNonNegative(claims[k].results, device);
    }
    SumOverNonNegative(claims.Keys, ChargeAt(claims, node, device));
  }

  /******* The effect of one allocation *******/

  /** What adding or removing `results` on `node` moves at place a. */
  function Share(layout: Layout, node: string, results: seq<AllocationResult>, a: Address): Usage
    requires InLayout(layout, a)
  {
    var name := InfoAt(layout, a).name;
    if Target(layout, a.node, name) == Some(a) then ChargeOf(node, results, a.node, name) else Usage(0, 0)
  }

  lemma ShareCases(layout: Layout, node: string, results: seq<AllocationResult>, a: Address)
    requires InLayout(layout, a)
    ensures var name := InfoAt(layout, a).name;
            if Target(layout, a.node, name) == Some(a)
            then Share(layout, node, results, a) == ChargeOf(node, results, a.node, name)
            else Share(layout, node, results, a) == Usage(0, 0)
  {
    hide Target;
  }

  lemma ExpectedCases(layout: Layout, claims: map<string, DeviceAllocation>, a: Address)
    requires InLayout(layout, a)
    ensures var name := InfoAt(layout, a).name;
            if Target(layout, a.node, name) == Some(a)
            then Expected(layout, claims, a) == Charge(claims, a.node, name)
            else Expected(layout, claims, a) == Usage(0, 0)
  {
    hide Target, Charge;
  }

  /** A counter moves just when its device is the one charged for the named device. */
  lemma TargetOf(layout: Layout, node: string, device: string, a: Address)
    requires InLayout(layout, a)
    ensures Target(layout, node, device) == Some(a) <==>
            && node == a.node && device == InfoAt(layout, a).name
            && Target(layout, a.node, InfoAt(layout, a).name) == Some(a)
  {
    hide Target;
  }

  lemma {:induction false} AddResultsAt(st: State, node: string, results: seq<AllocationResult>, a: Address)
    requires st.Valid() && a in st.used
    ensures AddResults(st, node, results).used[a] == st.used[a].Plus(Share(st.layout, node, results, a))
  {
    hide Target;
    if results != [] {
      var n := |results| - 1;
      AddResultsAt(st, node, results[..n], a);
      TargetOf(st.layout, node, results[n].device, a);
    }
  }

  /** Releasing without the clamps to zero. */
  function Subtract(st: State, node: string, results: seq<AllocationResult>): (r: State)
    requires st.Valid()
    ensures r.Valid() && r.layout == st.layout && r.claims == st.claims
  {
    hide Target;
    State(st.layout, map a | a in st.used :: st.used[a].Minus(Share(st.layout, node, results, a)), st.claims)
  }

  lemma {:induction false} RemoveResultsAt(st: State, node: string, results: seq<AllocationResult>, a: Address)
    requires st.Valid() && NonNegativeResults(results) && a in st.used
    requires st.used[a].AtLeast(Share(st.layout, node, results, a))
    ensures RemoveResults(st, node, results).used[a] == st.used[a].Minus(Share(st.layout, node, results, a))
  {
    hide Target;
    if results != [] {
      var n := |results| - 1;
      TargetOf(st.layout, node, results[n].device, a);
      RemoveResultsAt(st, node, results[..n], a);
    }
  }

  /** Releasing what the counters cover never reaches a clamp. */
  lemma RemoveResultsEffect(st: State, node: string, results: seq<AllocationResult>)
    requires st.Valid() && NonNegativeResults(results)
    requires forall a | a in st.used :: st.used[a].AtLeast(Share(st.layout, node, results, a))
    ensures RemoveResults(st, node, results) == Subtract(st, node, results)
  {
    hide Target, Share, RemoveResults;
    forall a | a in st.used
      ensures RemoveResults(st, node, results).used[a] == st.used[a].Minus(Share(st.layout, node, results, a))
    {
      RemoveResultsAt(st, node, results, a);
    }
    assert RemoveResults(st, node, results).used == Subtract(st, node, results).used;
  }

  /** A shorter release moves no more than the whole one. */
  lemma {:induction false} ResultsSumPrefix(results: seq<AllocationResult>, k: nat, device: string)
    requires NonNegativeResults(results) && k <= |results|
    ensures ResultsSum(results, device).AtLeast(ResultsSum(results[..k], device))
  {
    var n := |results| - 1;
    if k <= n {
      ResultsSumPrefix(results[..n], k, device);
      assert results[..n][..k] == results[..k];
    } else {
      assert results[..k] == results;
    }
  }

  /******* Claim steps *******/

  /** Storing an allocation under a new key moves every expected value by the allocation's share. */
  lemma ExpectedInsert(layout: Layout, claims: map<string, DeviceAllocation>, k: string, al: DeviceAllocation,
                       a: Address)
    requires InLayout(layout, a) && k !in claims
    ensures Expected(layout, claims[k := al], a) ==
            Expected(layout, claims, a).Plus(Share(layout, al.node, al.results, a))
  {
    hide Target, Charge, ChargeOf, Expected, Share;
    ExpectedCases(layout, claims[k := al], a);
    ExpectedCases(layout, claims, a);
    ShareCases(layout, al.node, al.results, a);
    ChargeInsert(claims, k, al, a.node, InfoAt(layout, a).name);
  }

  lemma ShareNonNegative(layout: Layout, node: string, results: seq<AllocationResult>, a: Address)
    requires InLayout(layout, a) && NonNegativeResults(results)
    ensures Share(layout, node, results, a).NonNegative()
  {
    hide Target, ResultsSum;
    ResultsSumNonNegative(results, InfoAt(layout, a).name);
  }

  lemma ExpectedNonNegative(layout: Layout, claims: map<string, DeviceAllocation>, a: Address)
    requires InLayout(layout, a) && NonNegativeTable(claims)
    ensures Expected(layout, claims, a).NonNegative()
  {
    hide Target, Charge;
    ChargeNonNegative(claims, a.node, InfoAt(layout, a).name);
  }

  lemma AddClaimKeeps(st: State, c: ResourceClaim)
    requires st.Valid() && ClaimKey(c) !in st.claims && NonNegativeClaim(c)
    ensures Exact(st) ==> Exact(AddClaim(st, c))
    ensures Covers(st) ==> Covers(AddClaim(st, c))
    ensures NonNegativeTable(st.claims) ==> NonNegativeTable(AddClaim(st, c).claims)
  {
    hide Target, Charge, Share, Expected, AddResults;
    if AllocationOf(c).Some? {
      var al := AllocationOf(c).value;
      forall a | a in st.used
        ensures AddResults(st, al.node, al.results).used[a] == st.used[a].Plus(Share(st.layout, al.node, al.results, a))
        ensures Expected(st.layout, st.claims[ClaimKey(c) := al], a) ==
                Expected(st.layout, st.claims, a).Plus(Share(st.layout, al.node, al.results, a))
        ensures Share(st.layout, al.node, al.results, a).NonNegative()
      {
        AddResultsAt(st, al.node, al.results, a);
        ExpectedInsert(st.layout, st.claims, ClaimKey(c), al, a);
        ShareNonNegative(st.layout, al.node, al.results, a);
      }
    }
  }

  /** The claim's own share is part of what its counters cover. */
  lemma ShareCovered(st: State, k: string, a: Address)
    requires st.Valid() && Covers(st) && NonNegativeTable(st.claims) && k in st.claims && a in st.used
    ensures st.used[a].AtLeast(Share(st.layout, st.claims[k].node, st.claims[k].results, a))
    ensures Expected(st.layout, st.claims, a) ==
            Expected(st.layout, st.claims - {k}, a).Plus(Share(st.layout, st.claims[k].node, st.claims[k].results, a))
    ensures Expected(st.layout, st.claims - {k}, a).NonNegative()
  {
    hide Target, Charge, Share, Expected;
    assert (st.claims - {k})[k := st.claims[k]] == st.claims;
    ExpectedInsert(st.layout, st.claims - {k}, k, st.claims[k], a);
    ExpectedNonNegative(st.layout, st.claims - {k}, a);
  }

  /** Whatever prefix of a cached claim's results has been released, no clamp has fired. */
  lemma ReleaseNeverClamps(st: State, k: string, n: nat)
    requires st.Valid() && Covers(st) && NonNegativeTable(st.claims)
    requires k in st.claims && n <= |st.claims[k].results|
    ensures var al := st.claims[k];
            RemoveResults(st, al.node, al.results[..n]) == Subtract(st, al.node, al.results[..n])
  {
    hide Target, Charge, Covers, ResultsSum, Expected, Share;
    var al := st.claims[k];
    forall a | a in st.used
      ensures st.used[a].AtLeast(Share(st.layout, al.node, al.results[..n], a))
    {
      ShareCovered(st, k, a);
      ShareCases(st.layout, al.node, al.results, a);
      ShareCases(st.layout, al.node, al.results[..n], a);
      ResultsSumPrefix(al.results, n, InfoAt(st.layout, a).name);
    }
    RemoveResultsEffect(st, al.node, al.results[..n]);
  }

  lemma DeleteCachedKeeps(st: State, c: ResourceClaim)
    requires st.Valid() && Covers(st) && NonNegativeTable(st.claims) && ClaimKey(c) in st.claims
    ensures Covers(DeleteClaim(st, c)) && NonNegativeTable(DeleteClaim(st, c).claims)
    ensures Exact(st) ==> Exact(DeleteClaim(st, c))
  {
    hide Target, Charge, Share, Expected, RemoveResults;
    var k := ClaimKey(c);
    var al := st.claims[k];
    assert al.results[..|al.results|] == al.results;
    ReleaseNeverClamps(st, k, |al.results|);
    forall a | a in st.used
      ensures st.used[a].AtLeast(Share(st.layout, al.node, al.results, a))
      ensures Expected(st.layout, st.claims, a) ==
              Expected(st.layout, st.claims - {k}, a).Plus(Share(st.layout, al.node, al.results, a))
      ensures Expected(st.layout, st.claims - {k}, a).NonNegative()
    {
      ShareCovered(st, k, a);
    }
  }

  /******* Slice steps *******/

  /** The devices of the node's other slices hold no usage. */
  ghost predicate KeptIdle(st: State, node: string, slice: string)
    requires st.Valid()
  {
    forall a | a in st.used && a.node == node && a.slice != slice :: st.used[a] == Usage(0, 0)
  }

  /** The device a name is charged to depends on the node's own slices only. */
  lemma TargetLocal(l: Layout, m: Layout, node: string, device: string)
    requires node in l <==> node in m
    requires node in l ==> l[node] == m[node]
    ensures Target(l, node, device) == Target(m, node, device)
  {
    hide FirstNamed, DevicePlaces;
  }

  /** The counter at one place after a rebuild. */
  lemma SetSliceAt(st: State, node: string, slice: string, devices: Option<seq<DeviceInfo>>, reset: bool, a: Address)
    requires st.Valid()
    ensures var r := SetSlice(st, node, slice, devices, reset);
            if a.node != node then
              && (a in r.used <==> a in st.used)
              && (a in r.used ==> r.used[a] == st.used[a])
              && (a in r.used ==> Expected(r.layout, r.claims, a) == Expected(st.layout, st.claims, a))
            else if a in r.used then
              if reset || a.slice == slice
              then r.used[a] == Usage(0, 0).Plus(Expected(r.layout, r.claims, a))
              else a in st.used && r.used[a] == st.used[a].Plus(Expected(r.layout, r.claims, a))
            else
              a !in st.used || a.slice == slice
  {
    hide Charge, Target;
    var r := SetSlice(st, node, slice, devices, reset);
    assert a in r.used <==> InLayout(r.layout, a);
    assert a in st.used <==> InLayout(st.layout, a);
    if a.node == node && a.slice != slice && a in st.used {
      assert a.slice in SlicesAfter(st.layout, node, slice, devices);
    }
    if a.node != node && a in st.used {
      TargetLocal(st.layout, r.layout, a.node, InfoAt(st.layout, a).name);
    }
  }

  lemma SetSliceCovers(st: State, node: string, slice: string, devices: Option<seq<DeviceInfo>>, reset: bool)
    requires st.Valid() && Covers(st) && NonNegativeTable(st.claims)
    ensures Covers(SetSlice(st, node, slice, devices, reset))
  {
    hide SetSlice, Expected;
    var r := SetSlice(st, node, slice, devices, reset);
    forall a | a in r.used
      ensures r.used[a].AtLeast(Expected(r.layout, r.claims, a)) && r.used[a].NonNegative()
    {
      SetSliceAt(st, node, slice, devices, reset, a);
      ExpectedNonNegative(r.layout, r.claims, a);
    }
  }

  /** Other nodes are untouched; the rebuilt node is exact just when nothing kept was in use (or is reset). */
  lemma SetSliceExact(st: State, node: string, slice: string, devices: Option<seq<DeviceInfo>>, reset: bool)
    requires st.Valid()
    ensures ExactOn(SetSlice(st, node, slice, devices, reset), node) <==> reset || KeptIdle(st, node, slice)
    ensures forall n | n != node ::
      ExactOn(SetSlice(st, node, slice, devices, reset), n) <==> ExactOn(st, n)
    ensures forall n, s | n != node ::
      KeptIdle(SetSlice(st, node, slice, devices, reset), n, s) <==> KeptIdle(st, n, s)
  {
    hide SetSlice, Expected;
    forall a { SetSliceAt(st, node, slice, devices, reset, a); }
  }

  /******* One event *******/

  /** No device that the event's rebuilds keep is in use. */
  ghost predicate Idle(st: State, e: Event)
    requires st.Valid()
  {
    match e
    case SliceAdded(s) => s.nodeName.Some? ==> KeptIdle(st, s.nodeName.value, s.name)
    case SliceDeleted(s) => s.nodeName.Some? ==> KeptIdle(st, s.nodeName.value, s.name)
    case SliceUpdated(o, n) =>
      n.nodeName.Some? ==>
        && KeptIdle(st, n.nodeName.value, n.name)
        && (o.nodeName.Some? && o.nodeName != n.nodeName ==> KeptIdle(st, o.nodeName.value, o.name))
    case _ => true
  }

  lemma ExactByNode(st: State)
    requires st.Valid()
    ensures Exact(st) <==> forall n :: ExactOn(st, n)
  {
    if forall n :: ExactOn(st, n) {
      forall a | a in st.used ensures st.used[a] == Expected(st.layout, st.claims, a) {
        assert ExactOn(st, a.node);
      }
    }
  }

  lemma SetSliceKeeps(st: State, node: string, slice: string, devices: Option<seq<DeviceInfo>>, reset: bool)
    requires st.Valid() && Exact(st)
    ensures Exact(SetSlice(st, node, slice, devices, reset)) <==> reset || KeptIdle(st, node, slice)
  {
    SetSliceExact(st, node, slice, devices, reset);
    ExactByNode(st);
    ExactByNode(SetSlice(st, node, slice, devices, reset));
  }

  /** Moving a slice rebuilds two nodes, and both must be idle. */
  lemma MoveSliceKeeps(st: State, from: string, old': string, to: string, new': string, ds: seq<DeviceInfo>,
                       reset: bool)
    requires st.Valid() && Exact(st) && from != to
    ensures var r := SetSlice(SetSlice(st, from, old', None, reset), to, new', Some(ds), reset);
            Exact(r) <==> reset || (KeptIdle(st, from, old') && KeptIdle(st, to, new'))
  {
    var mid := SetSlice(st, from, old', None, reset);
    var r := SetSlice(mid, to, new', Some(ds), reset);
    SetSliceExact(st, from, old', None, reset);
    SetSliceExact(mid, to, new', Some(ds), reset);
    ExactByNode(st);
    ExactByNode(r);
    assert ExactOn(r, from) <==> ExactOn(mid, from);
    assert KeptIdle(mid, to, new') <==> KeptIdle(st, to, new');
  }

  /** The claim table holds exactly what the delivered claims allocate. */
  ghost predicate Faithful(st: State, d: Delivered) {
    st.claims == TableOf(d.claims)
  }

  ghost predicate KeysMatch(d: Delivered) {
    forall k | k in d.claims :: ClaimKey(d.claims[k]) == k
  }

  /** Claims of one namespace with equal status allocate the same, so skipping such updates loses nothing. */
  lemma AllocationDependsOnStatus(c: ResourceClaim, d: ResourceClaim)
    requires c.namespace == d.namespace && c.status == d.status
    ensures AllocationOf(c) == AllocationOf(d)
  {
  }

  lemma TableInsert(claims: map<string, ResourceClaim>, k: string, c: ResourceClaim)
    ensures TableOf(claims[k := c]) ==
            match AllocationOf(c) { case Some(al) => TableOf(claims)[k := al] case None => TableOf(claims) - {k} }
    ensures k !in claims ==> k !in TableOf(claims) && TableOf(claims) - {k} == TableOf(claims)
  {
    hide AllocationOf;
  }

  lemma TableRemove(claims: map<string, ResourceClaim>, k: string)
    ensures TableOf(claims - {k}) == TableOf(claims) - {k}
  {
    hide AllocationOf;
  }

  lemma UpdateTable(d: Delivered, st: State, o: ResourceClaim, n: ResourceClaim)
    requires st.Valid() && Faithful(st, d) && Legal(d, ClaimUpdated(o, n))
    ensures UpdateClaim(st, o, n).claims == TableOf(d.claims[ClaimKey(n) := n])
  {
    hide AllocationOf, TableOf, AddResults, RemoveResults;
    var k := ClaimKey(n);
    assert k == ClaimKey(o);
    TableInsert(d.claims, k, n);
    if o.status == n.status {
      assert d.claims[k := o] == d.claims;
      TableInsert(d.claims, k, o);
      AllocationDependsOnStatus(o, n);
    } else {
      assert (st.claims - {k}) - {k} == st.claims - {k};
      if AllocationOf(n).Some? {
        var al := AllocationOf(n).value;
        assert (st.claims - {k})[k := al] == st.claims[k := al];
      }
    }
  }

  /** After any callback the table holds exactly what the delivered claims allocate. */
  lemma TableStep(d: Delivered, st: State, e: Event, reset: bool)
    requires st.Valid() && Faithful(st, d) && KeysMatch(d) && Legal(d, e)
    ensures Faithful(Step(st, e, reset), Deliver(d, e)) && KeysMatch(Deliver(d, e))
  {
    hide AllocationOf, SetSlice, AddResults, RemoveResults, UpdateClaim, TableOf;
    match e
    case ClaimAdded(c) => TableInsert(d.claims, ClaimKey(c), c);
    case ClaimDeleted(c) => TableRemove(d.claims, ClaimKey(c));
    case ClaimUpdated(o, n) =>
      UpdateTable(d, st, o, n);
    case _ =>
  }

  /** Under the contract the fallback for uncached claims releases nothing. */
  lemma FallbackReleasesNothing(d: Delivered, st: State, c: ResourceClaim)
    requires st.Valid() && Faithful(st, d)
    requires ClaimKey(c) in d.claims && d.claims[ClaimKey(c)] == c
    requires ClaimKey(c) !in st.claims
    ensures DeleteClaim(st, c) == st
  {
  }

  ghost predicate Invariant(d: Delivered, st: State) {
    st.Valid() && Covers(st) && NonNegativeTable(st.claims) && Faithful(st, d) && KeysMatch(d)
  }

  lemma DeleteKeeps(d: Delivered, st: State, c: ResourceClaim)
    requires Invariant(d, st) && ClaimKey(c) in d.claims && d.claims[ClaimKey(c)] == c
    ensures var r := DeleteClaim(st, c);
            && Covers(r) && NonNegativeTable(r.claims) && ClaimKey(c) !in r.claims && r.layout == st.layout
            && (Exact(st) ==> Exact(r))
  {
    if ClaimKey(c) in st.claims {
      DeleteCachedKeeps(st, c);
    } else {
      FallbackReleasesNothing(d, st, c);
    }
  }

  lemma UpdateSliceCovers(st: State, o: ResourceSlice, n: ResourceSlice, reset: bool)
    requires st.Valid() && Covers(st) && NonNegativeTable(st.claims)
    ensures Covers(UpdateSlice(st, o, n, reset)) && UpdateSlice(st, o, n, reset).claims == st.claims
  {
    hide SetSlice, Covers;
    if n.nodeName.Some? {
      var node, mid := n.nodeName.value, st;
      if o.nodeName.Some? && o.nodeName.value != node {
        SetSliceCovers(st, o.nodeName.value, o.name, None, reset);
        mid := SetSlice(st, o.nodeName.value, o.name, None, reset);
      }
      SetSliceCovers(mid, node, n.name, Some(ParseSlice(n)), reset);
    }
  }

  lemma StepInvariant(d: Delivered, st: State, e: Event, reset: bool)
    requires Invariant(d, st) && Legal(d, e) && NonNegativeEvent(e)
    ensures Invariant(Deliver(d, e), Step(st, e, reset))
  {
    hide SetSlice, Covers, AllocationOf, AddResults, RemoveResults, TableOf;
    TableStep(d, st, e, reset);
    match e
    case SliceAdded(s) =>
      if s.nodeName.Some? { SetSliceCovers(st, s.nodeName.value, s.name, Some(ParseSlice(s)), reset); }
    case SliceDeleted(s) =>
      if s.nodeName.Some? { SetSliceCovers(st, s.nodeName.value, s.name, None, reset); }
    case SliceUpdated(o, n) => UpdateSliceCovers(st, o, n, reset);
    case ClaimAdded(c) =>
      TableInsert(d.claims, ClaimKey(c), c);
      AddClaimKeeps(st, c);
    case ClaimDeleted(c) => DeleteKeeps(d, st, c);
    case ClaimUpdated(o, n) =>
      if o.status != n.status {
        DeleteKeeps(d, st, o);
        AddClaimKeeps(DeleteClaim(st, o), n);
      }
  }

  /** From an exact state a callback leads to an exact state just when the devices it keeps are idle. */
  lemma StepExact(d: Delivered, st: State, e: Event, reset: bool)
    requires Invariant(d, st) && Legal(d, e) && NonNegativeEvent(e) && Exact(st)
    ensures Exact(Step(st, e, reset)) <==> reset || Idle(st, e)
  {
    hide Charge, Expected, AddResults, RemoveResults, SetSlice, AllocationOf, KeptIdle;
    match e
    case SliceAdded(s) =>
      if s.nodeName.Some? { SetSliceKeeps(st, s.nodeName.value, s.name, Some(ParseSlice(s)), reset); }
    case SliceDeleted(s) =>
      if s.nodeName.Some? { SetSliceKeeps(st, s.nodeName.value, s.name, None, reset); }
    case SliceUpdated(o, n) =>
      if n.nodeName.Some? {
        var node := n.nodeName.value;
        if o.nodeName.Some? && o.nodeName.value != node {
          MoveSliceKeeps(st, o.nodeName.value, o.name, node, n.name, ParseSlice(n), reset);
        } else {
          SetSliceKeeps(st, node, n.name, Some(ParseSlice(n)), reset);
        }
      }
    case ClaimAdded(c) => AddClaimKeeps(st, c);
    case ClaimDeleted(c) => DeleteKeeps(d, st, c);
    case ClaimUpdated(o, n) =>
      if o.status != n.status {
        DeleteKeeps(d, st, o);
        AddClaimKeeps(DeleteClaim(st, o), n);
      }
  }

  /** The update takes the node name away from a slice that had one; the callback then does nothing. */
  predicate Unassigns(e: Event) {
    e.SliceUpdated? && e.oldSlice.nodeName.Some? && e.newSlice.nodeName.None?
  }

  lemma NodesOfHas(slices: map<string, ResourceSlice>, node: string)
    ensures node in NodesOf(slices) <==> SlicesOn(slices, node) != map[]
  {
    if node in NodesOf(slices) {
      var x :| x in slices && slices[x].nodeName == Some(node);
      assert x in SlicesOn(slices, node);
    }
    if SlicesOn(slices, node) != map[] {
      var x :| x in SlicesOn(slices, node);
      assert x in slices && slices[x].nodeName == Some(node);
    }
  }

  lemma SlicesOnStore(slices: map<string, ResourceSlice>, s: ResourceSlice, n: string)
    requires s.nodeName.Some?
    requires s.name in slices ==> slices[s.name].nodeName.None? || slices[s.name].nodeName == s.nodeName
    ensures SlicesOn(slices[s.name := s], n) ==
            if n == s.nodeName.value then SlicesOn(slices, n)[s.name := ParseSlice(s)] else SlicesOn(slices, n)
  {
    hide ParseSlice;
  }

  /** Storing one slice keeps the node lists equal to the delivered slices. */
  lemma LayoutStore(slices: map<string, ResourceSlice>, s: ResourceSlice)
    requires s.nodeName.Some?
    requires s.name in slices ==> slices[s.name].nodeName.None? || slices[s.name].nodeName == s.nodeName
    ensures LayoutOf(slices[s.name := s]) ==
            LayoutAfter(LayoutOf(slices), s.nodeName.value, s.name, Some(ParseSlice(s)))
  {
    hide NodesOf, ParseSlice, SlicesOn;
    var node, after := s.nodeName.value, slices[s.name := s];
    var r := LayoutAfter(LayoutOf(slices), node, s.name, Some(ParseSlice(s)));
    forall n
      ensures n in LayoutOf(after) <==> n in r
      ensures n in r ==> LayoutOf(after)[n] == r[n]
    {
      NodesOfHas(slices, n);
      NodesOfHas(after, n);
      SlicesOnStore(slices, s, n);
    }
  }

  lemma SlicesOnRemove(slices: map<string, ResourceSlice>, s: ResourceSlice, n: string)
    requires s.nodeName.Some? && s.name in slices && slices[s.name] == s
    ensures SlicesOn(slices - {s.name}, n) ==
            if n == s.nodeName.value then SlicesOn(slices, n) - {s.name} else SlicesOn(slices, n)
  {
    hide ParseSlice;
  }

  /** Removing one slice keeps the node lists equal to the delivered slices. */
  lemma LayoutRemove(slices: map<string, ResourceSlice>, s: ResourceSlice)
    requires s.nodeName.Some? && s.name in slices && slices[s.name] == s
    ensures LayoutOf(slices - {s.name}) == LayoutAfter(LayoutOf(slices), s.nodeName.value, s.name, None)
  {
    hide NodesOf, ParseSlice, SlicesOn;
    var node, after := s.nodeName.value, slices - {s.name};
    var r := LayoutAfter(LayoutOf(slices), node, s.name, None);
    forall n
      ensures n in LayoutOf(after) <==> n in r
      ensures n in r ==> LayoutOf(after)[n] == r[n]
    {
      NodesOfHas(slices, n);
      NodesOfHas(after, n);
      SlicesOnRemove(slices, s, n);
    }
  }

  lemma LayoutIgnores(slices: map<string, ResourceSlice>, after: map<string, ResourceSlice>, name: string)
    requires after - {name} == slices - {name}
    requires name in slices ==> slices[name].nodeName.None?
    requires name in after ==> after[name].nodeName.None?
    ensures LayoutOf(after) == LayoutOf(slices)
  {
    hide NodesOf, ParseSlice;
    forall n
      ensures n in LayoutOf(after) <==> n in LayoutOf(slices)
      ensures SlicesOn(after, n) == SlicesOn(slices, n)
    {
      NodesOfHas(slices, n);
      NodesOfHas(after, n);
      forall x
        ensures x in SlicesOn(after, n) <==> x in SlicesOn(slices, n)
        ensures x in SlicesOn(after, n) ==> SlicesOn(after, n)[x] == SlicesOn(slices, n)[x]
      {
        assert x != name ==> (x in after - {name} <==> x in slices - {name});
      }
    }
  }

  /** An update that takes a slice off its node is not followed by the node lists. */
  lemma UnassignLosesLayout(slices: map<string, ResourceSlice>, o: ResourceSlice, n: ResourceSlice)
    requires o.name in slices && slices[o.name] == o && n.name == o.name
    requires o.nodeName.Some? && n.nodeName.None?
    ensures LayoutOf(slices[n.name := n]) != LayoutOf(slices)
  {
    hide NodesOf, ParseSlice;
    var node := o.nodeName.value;
    NodesOfHas(slices, node);
    assert o.name in SlicesOn(slices, node) && o.name !in SlicesOn(slices[n.name := n], node);
    assert LayoutOf(slices)[node] == SlicesOn(slices, node);
  }

  /** The node lists follow the delivered slices through every callback but an unassigning update. */
  lemma LayoutStep(d: Delivered, st: State, e: Event, reset: bool)
    requires st.Valid() && st.layout == LayoutOf(d.slices) && Legal(d, e)
    ensures Step(st, e, reset).layout == LayoutOf(Deliver(d, e).slices) <==> !Unassigns(e)
  {
    hide LayoutOf, LayoutAfter, Expected, AddResults, RemoveResults, AllocationOf;
    match e
    case SliceAdded(s) =>
      if s.nodeName.Some? {
        LayoutStore(d.slices, s);
      } else {
        LayoutIgnores(d.slices, d.slices[s.name := s], s.name);
      }
    case SliceDeleted(s) =>
      if s.nodeName.Some? {
        LayoutRemove(d.slices, s);
      } else {
        LayoutIgnores(d.slices, d.slices - {s.name}, s.name);
      }
    case SliceUpdated(o, n) =>
      if n.nodeName.None? {
        if o.nodeName.Some? {
          UnassignLosesLayout(d.slices, o, n);
        } else {
          LayoutIgnores(d.slices, d.slices[n.name := n], n.name);
        }
      } else if o.nodeName.Some? && o.nodeName != n.nodeName {
        LayoutRemove(d.slices, o);
        LayoutStore(d.slices - {o.name}, n);
        assert (d.slices - {o.name})[n.name := n] == d.slices[n.name := n];
      } else {
        LayoutStore(d.slices, n);
      }
    case _ =>
  }

  /******* Runs *******/

  /** The invariant of every run that obeys the informer contract, for either form of the rebuild. */
  lemma {:induction false} RunInvariant(es: seq<Event>, reset: bool)
    requires LegalRun(es) && NonNegativeRun(es)
    ensures Invariant(After(es), Run(es, reset))
  {
    hide Step, Deliver;
    if es != [] {
      var n := |es| - 1;
      RunInvariant(es[..n], reset);
      assert NonNegativeEvent(es[n]);
      StepInvariant(After(es[..n]), Run(es[..n], reset), es[n], reset);
    } else {
      assert TableOf(map[]) == map[];
    }
  }

  /** On every run that obeys the informer contract, whatever the quantities, the claim table is faithful. */
  lemma {:induction false} TableOnRuns(es: seq<Event>, reset: bool)
    requires LegalRun(es)
    ensures Faithful(Run(es, reset), After(es)) && KeysMatch(After(es))
  {
    hide Step, Deliver, Faithful, KeysMatch;
    if es != [] {
      var n := |es| - 1;
      TableOnRuns(es[..n], reset);
      TableStep(After(es[..n]), Run(es[..n], reset), es[n], reset);
    } else {
      NothingFaithful();
    }
  }

  lemma NothingFaithful()
    ensures Faithful(EMPTY, NOTHING) && KeysMatch(NOTHING)
  {
    assert TableOf(map[]) == map[];
  }

  /** The state is the one computed from the delivered objects. */
  lemma ScratchIff(d: Delivered, st: State)
    requires st.Valid()
    ensures st == FromScratch(d) <==> Exact(st) && st.layout == LayoutOf(d.slices) && st.claims == TableOf(d.claims)
  {
    hide LayoutOf, TableOf, Expected;
    if Exact(st) && st.layout == LayoutOf(d.slices) && st.claims == TableOf(d.claims) {
      assert st.used == FromScratch(d).used;
    }
  }

  /** One callback away from a refined state: refined again, just when it neither unassigns nor disturbs. */
  lemma StepRefines(d: Delivered, st: State, e: Event, reset: bool)
    requires Invariant(d, st) && Legal(d, e) && NonNegativeEvent(e) && st == FromScratch(d)
    ensures Step(st, e, reset) == FromScratch(Deliver(d, e)) <==> !Unassigns(e) && (reset || Idle(st, e))
  {
    hide Step, Deliver, FromScratch, Exact, Idle, LayoutOf, TableOf, Covers;
    ScratchIff(d, st);
    ScratchIff(Deliver(d, e), Step(st, e, reset));
    StepInvariant(d, st, e, reset);
    StepExact(d, st, e, reset);
    LayoutStep(d, st, e, reset);
  }

  ghost predicate RefinedAt(es: seq<Event>, reset: bool, k: nat)
    requires k <= |es|
  {
    Run(es[..k], reset) == FromScratch(After(es[..k]))
  }

  /** The event takes no slice off its node, and no delivered claim uses the devices its rebuild keeps. */
  ghost predicate Harmless(d: Delivered, e: Event, reset: bool) {
    !Unassigns(e) && (reset || Idle(FromScratch(d), e))
  }

  /** Event k is harmless to the objects delivered before it. */
  ghost predicate Undisturbing(es: seq<Event>, reset: bool, k: nat)
    requires k < |es|
  {
    Harmless(After(es[..k]), es[k], reset)
  }

  lemma LastStep(es: seq<Event>, reset: bool)
    requires es != [] && LegalRun(es) && NonNegativeRun(es)
    requires RefinedAt(es, reset, |es| - 1)
    ensures RefinedAt(es, reset, |es|) <==> Undisturbing(es, reset, |es| - 1)
  {
    hide Step, Deliver, FromScratch, Idle;
    var n := |es| - 1;
    assert es[..|es|] == es;
    assert NonNegativeRun(es[..n]) && NonNegativeEvent(es[n]);
    RunInvariant(es[..n], reset);
    StepRefines(After(es[..n]), Run(es[..n], reset), es[n], reset);
  }

  /** A disturbing event makes an exact cache differ from usage computed from scratch. */
  lemma DisturbedDiffers(es: seq<Event>, reset: bool)
    requires es != [] && LegalRun(es) && NonNegativeRun(es)
    requires var n := |es| - 1; Run(es[..n], reset) == FromScratch(After(es[..n])) && !Undisturbing(es, reset, n)
    ensures Run(es, reset) != FromScratch(After(es))
  {
    hide Run, After, FromScratch, Undisturbing, LegalRun, NonNegativeRun;
    assert es[..|es|] == es;
    LastStep(es, reset);
  }

  lemma PrefixRefined(es: seq<Event>, reset: bool, n: nat, k: nat)
    requires k <= n <= |es|
    ensures RefinedAt(es[..n], reset, k) == RefinedAt(es, reset, k)
    ensures k < n ==> Undisturbing(es[..n], reset, k) == Undisturbing(es, reset, k)
  {
    hide Run, After, FromScratch, Harmless;
    assert es[..n][..k] == es[..k];
  }

  /**
   Exact refinement: along a run the cache equals usage computed from scratch at every moment, if and
   only if no update takes a slice off its node and, when a rebuild happens, the delivered claims use
   none of the devices of the node's other slices. Both conditions are about the delivered objects
   alone. The last one falls away when the rebuild starts those devices at zero.
   */
  lemma {:induction false} RefinementTheorem(es: seq<Event>, reset: bool)
    requires LegalRun(es) && NonNegativeRun(es)
    ensures (forall k | 0 <= k <= |es| :: RefinedAt(es, reset, k))
            <==> (forall k | 0 <= k < |es| :: Undisturbing(es, reset, k))
  {
    hide RefinedAt, Undisturbing;
    if es == [] {
      EmptyRefined(reset);
    } else {
      var n := |es| - 1;
      assert NonNegativeRun(es[..n]);
      RefinementTheorem(es[..n], reset);
      forall k | 0 <= k <= n
        ensures RefinedAt(es[..n], reset, k) == RefinedAt(es, reset, k)
        ensures k < n ==> Undisturbing(es[..n], reset, k) == Undisturbing(es, reset, k)
      {
        PrefixRefined(es, reset, n, k);
      }
      if RefinedAt(es, reset, n) { LastStep(es, reset); }
    }
  }

  lemma EmptyRefined(reset: bool)
    ensures RefinedAt([], reset, 0)
  {
    ScratchIff(NOTHING, EMPTY);
    assert LayoutOf(map[]) == map[] && TableOf(map[]) == map[];
  }

  /** Runs that deliver the same final objects, in whatever order, end in the same cache. */
  lemma SameObjectsSameCache(es: seq<Event>, fs: seq<Event>, reset: bool)
    requires LegalRun(es) && NonNegativeRun(es) && LegalRun(fs) && NonNegativeRun(fs)
    requires forall k | 0 <= k < |es| :: Undisturbing(es, reset, k)
    requires forall k | 0 <= k < |fs| :: Undisturbing(fs, reset, k)
    requires After(es) == After(fs)
    ensures Run(es, reset) == Run(fs, reset) == FromScratch(After(es))
  {
    RefinementTheorem(es, reset);
    RefinementTheorem(fs, reset);
    assert RefinedAt(es, reset, |es|) && RefinedAt(fs, reset, |fs|);
    assert es[..|es|] == es && fs[..|fs|] == fs;
  }

  /******* One slice per node *******/

  /** No two delivered slices are on one node. */
  ghost predicate OneSlicePerNode(d: Delivered) {
    forall s, t | s in d.slices && t in d.slices && s != t ::
      d.slices[s].nodeName.Some? ==> d.slices[s].nodeName != d.slices[t].nodeName
  }

  /** A node whose only slice is the one being stored or removed has nothing to disturb. */
  lemma OneSliceIsIdle(st: State, node: string, slice: string)
    requires st.Valid()
    requires node in st.layout ==> st.layout[node].Keys <= {slice}
    ensures KeptIdle(st, node, slice)
  {
    assert forall a | a in st.used && a.node == node :: a.slice in st.layout[node].Keys;
  }

  /** Devices kept by a rebuild belong to another slice of the node, and that slice is delivered. */
  lemma KeptFromOther(d: Delivered, node: string, slice: string)
    requires forall s | s in d.slices && d.slices[s].nodeName == Some(node) :: s == slice
    ensures KeptIdle(FromScratch(d), node, slice)
  {
    hide Expected, ParseSlice;
    OneSliceIsIdle(FromScratch(d), node, slice);
  }

  /** With one slice per node before and after a callback there is nothing to disturb. */
  lemma OneSliceHarmless(d: Delivered, e: Event)
    requires Legal(d, e) && KeysNamed(d) && !Unassigns(e)
    requires OneSlicePerNode(d) && OneSlicePerNode(Deliver(d, e))
    ensures Harmless(d, e, false)
  {
    hide FromScratch, KeptIdle;
    match e
    case SliceAdded(s) =>
      if s.nodeName.Some? {
        OnlySlice(d, Deliver(d, e), s);
        KeptFromOther(d, s.nodeName.value, s.name);
      }
    case SliceDeleted(s) =>
      if s.nodeName.Some? {
        OnlySlice(d, d, s);
        KeptFromOther(d, s.nodeName.value, s.name);
      }
    case SliceUpdated(o, n) =>
      if n.nodeName.Some? {
        OnlySlice(d, Deliver(d, e), n);
        KeptFromOther(d, n.nodeName.value, n.name);
        if o.nodeName.Some? {
          OnlySlice(d, d, o);
          KeptFromOther(d, o.nodeName.value, o.name);
        }
      }
    case _ =>
  }

  /** Slices are delivered under their names. */
  ghost predicate KeysNamed(d: Delivered) {
    forall k | k in d.slices :: d.slices[k].name == k
  }

  lemma OnlySlice(d: Delivered, after: Delivered, s: ResourceSlice)
    requires OneSlicePerNode(after) && s.name in after.slices && after.slices[s.name] == s && s.nodeName.Some?
    requires forall k | k in d.slices && k != s.name :: k in after.slices && after.slices[k] == d.slices[k]
    ensures forall k | k in d.slices && d.slices[k].nodeName == s.nodeName :: k == s.name
  {
  }

  lemma {:induction false} RunKeysNamed(es: seq<Event>)
    requires LegalRun(es)
    ensures KeysNamed(After(es))
  {
    if es != [] { RunKeysNamed(es[..|es| - 1]); }
  }

  /** A run on which no node ever has two slices, and no update takes a slice off its node. */
  ghost predicate OneSliceRun(es: seq<Event>) {
    && (forall k | 0 <= k <= |es| :: OneSlicePerNode(After(es[..k])))
    && (forall k | 0 <= k < |es| :: !Unassigns(es[k]))
  }

  /** Event by event, such a run disturbs nothing. */
  lemma OneSliceUndisturbed(es: seq<Event>, k: nat)
    requires LegalRun(es) && OneSliceRun(es) && k < |es|
    ensures Undisturbing(es, false, k)
  {
    hide Legal, Deliver, Harmless, OneSlicePerNode;
    LegalPrefix(es, k + 1);
    assert es[..k + 1][..k] == es[..k] && es[..k + 1][k] == es[k];
    RunKeysNamed(es[..k]);
    assert OneSlicePerNode(After(es[..k])) && OneSlicePerNode(After(es[..k + 1]));
    OneSliceHarmless(After(es[..k]), es[k]);
  }

  lemma {:induction false} LegalPrefix(es: seq<Event>, k: nat)
    requires LegalRun(es) && k <= |es|
    ensures LegalRun(es[..k])
  {
    hide Legal;
    if k < |es| {
      LegalPrefix(es[..|es| - 1], k);
      assert es[..|es| - 1][..k] == es[..k];
    } else {
      assert es[..k] == es;
    }
  }

  /** As written: with one slice per node at a time the cache is usage computed from scratch, at every moment. */
  lemma OneSliceExact(es: seq<Event>)
    requires LegalRun(es) && NonNegativeRun(es) && OneSliceRun(es)
    ensures forall k | 0 <= k <= |es| :: Run(es[..k], false) == FromScratch(After(es[..k]))
  {
    hide Run, After, FromScratch, Undisturbing, OneSliceRun, LegalRun, NonNegativeRun;
    forall k | 0 <= k < |es| ensures Undisturbing(es, false, k) { OneSliceUndisturbed(es, k); }
    RefinementTheorem(es, false);
    forall k | 0 <= k <= |es| ensures Run(es[..k], false) == FromScratch(After(es[..k])) {
      assert RefinedAt(es, false, k);
    }
  }

  /** Two such runs that deliver the same objects, in whatever order, end in the same cache. */
  lemma OneSliceSameCache(es: seq<Event>, fs: seq<Event>)
    requires LegalRun(es) && NonNegativeRun(es) && OneSliceRun(es)
    requires LegalRun(fs) && NonNegativeRun(fs) && OneSliceRun(fs)
    requires After(es) == After(fs)
    ensures Run(es, false) == Run(fs, false) == FromScratch(After(es))
  {
    hide Run, After, FromScratch, OneSliceRun, LegalRun, NonNegativeRun;
    OneSliceExact(es);
    OneSliceExact(fs);
    assert es[..|es|] == es && fs[..|fs|] == fs;
  }

  /** With the kept counters reset first, every run that takes no slice off its node is exact at every moment. */
  lemma ResetExact(es: seq<Event>)
    requires LegalRun(es) && NonNegativeRun(es) && forall k | 0 <= k < |es| :: !Unassigns(es[k])
    ensures forall k | 0 <= k <= |es| :: Run(es[..k], true) == FromScratch(After(es[..k]))
  {
    hide Run, After, FromScratch, LegalRun, NonNegativeRun;
    RefinementTheorem(es, true);
    forall k | 0 <= k <= |es| ensures Run(es[..k], true) == FromScratch(After(es[..k])) {
      assert RefinedAt(es, true, k);
    }
  }

  /** On every run, with any number of slices, no counter is below its claims and no release is clamped. */
  lemma NeverClampsOnRuns(es: seq<Event>, reset: bool, k: string, n: nat)
    requires LegalRun(es) && NonNegativeRun(es)
    requires var st := Run(es, reset); k in st.claims && n <= |st.claims[k].results|
    ensures Covers(Run(es, reset))
    ensures var st := Run(es, reset);
            var al := st.claims[k];
            RemoveResults(st, al.node, al.results[..n]) == Subtract(st, al.node, al.results[..n])
  {
    hide Run, RemoveResults, Subtract;
    RunInvariant(es, reset);
    ReleaseNeverClamps(Run(es, reset), k, n);
  }
}
