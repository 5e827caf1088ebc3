/** The per-pod view of the device-usage cache (pkg/metrics) and its agreement with the per-device view. */
module PodUsage {
  import opened Options
  import opened UsageModel
  import opened UsageTheorems
  import opened UsageCache

  datatype PodKey = PodKey(node: string, device: string, namespace: string, pod: string)

  /******* What one allocation adds *******/

  function Times(u: Usage, n: nat): Usage {
    if n == 0 then Usage(0, 0) else Times(u, n - 1).Plus(u)
  }

  function Occurrences(pods: seq<string>, pod: string): nat {
    if pods == [] then 0
    else Occurrences(pods[..|pods| - 1], pod) + if pods[|pods| - 1] == pod then 1 else 0
  }

  /** The usage of the results naming `device`, each counted once per reserving pod. */
  function TimesSum(results: seq<AllocationResult>, device: string, pods: nat): Usage {
    if results == [] then Usage(0, 0)
    else
      var n := |results| - 1;
      var before := TimesSum(results[..n], device, pods);
      if results[n].device == device then before.Plus(Times(results[n].usage, pods)) else before
  }

  /** The same for one pod: results of its namespace, counted as often as the pod reserves the claim. */
  function PodSum(results: seq<AllocationResult>, key: PodKey, pods: nat): Usage {
    if results == [] then Usage(0, 0)
    else
      var n := |results| - 1;
      var before := PodSum(results[..n], key, pods);
      if results[n].device == key.device && results[n].namespace == key.namespace
      then before.Plus(Times(results[n].usage, pods)) else before
  }

  predicate Published(layout: Layout, node: string, device: string) {
    Target(layout, node, device).Some?
  }

  function PodShare(layout: Layout, al: DeviceAllocation, key: PodKey): Usage {
    if al.node == key.node && Published(layout, key.node, key.device)
    then PodSum(al.results, key, Occurrences(al.usedBy, key.pod))
    else Usage(0, 0)
  }

  function DeviceShare(layout: Layout, al: DeviceAllocation, node: string, device: string): Usage {
    if al.node == node && Published(layout, node, device)
    then TimesSum(al.results, device, |al.usedBy|)
    else Usage(0, 0)
  }

  /** Some result of the allocation is shown under the key. */
  predicate Shows(layout: Layout, al: DeviceAllocation, key: PodKey) {
    && al.node == key.node && Published(layout, key.node, key.device) && key.pod in al.usedBy
    && exists i | 0 <= i < |al.results| ::
         al.results[i].device == key.device && al.results[i].namespace == key.namespace
  }

  /******* The loops of podDevices *******/

  function Value(sums: map<PodKey, Usage>, key: PodKey): Usage {
    if key in sums then sums[key] else Usage(0, 0)
  }

  function Credit(sums: map<PodKey, Usage>, key: PodKey, u: Usage): map<PodKey, Usage> {
    sums[key := Value(sums, key).Plus(u)]
  }

  /** One result, credited to every pod in turn. */
  function CreditPods(sums: map<PodKey, Usage>, node: string, r: AllocationResult, pods: seq<string>)
    : map<PodKey, Usage>
  {
    if pods == [] then sums
    else
      var n := |pods| - 1;
      Credit(CreditPods(sums, node, r, pods[..n]), PodKey(node, r.device, r.namespace, pods[n]), r.usage)
  }

  function CreditResults(layout: Layout, sums: map<PodKey, Usage>, node: string, results: seq<AllocationResult>,
                         pods: seq<string>): map<PodKey, Usage>
  {
    if results == [] then sums
    else
      var n := |results| - 1;
      var before := CreditResults(layout, sums, node, results[..n], pods);
      if Published(layout, node, results[n].device) then CreditPods(before, node, results[n], pods) else before
  }

  /** The total of a device over all pods. */
  ghost function PodTotal(sums: map<PodKey, Usage>, node: string, device: string): Usage {
    SumOver((set k | k in sums && k.node == node && k.device == device), (k: PodKey) => Value(sums, k))
  }

  lemma CreditTotal(sums: map<PodKey, Usage>, key: PodKey, u: Usage, node: string, device: string)
    ensures PodTotal(Credit(sums, key, u), node, device) ==
            if key.node == node && key.device == device
            then PodTotal(sums, node, device).Plus(u) else PodTotal(sums, node, device)
  {
    var after := Credit(sums, key, u);
    var f := (k: PodKey) => Value(sums, k);
    var g := (k: PodKey) => Value(after, k);
    var keys := set k | k in sums && k.node == node && k.device == device;
    var keys' := set k | k in after && k.node == node && k.device == device;
    if key.node == node && key.device == device {
      SumOverRemove(keys', g, key);
      assert keys' - {key} == keys - {key};
      SumOverSame(keys - {key}, f, g);
      if key in keys {
        SumOverRemove(keys, f, key);
        PlusSwap(SumOver(keys - {key}, f), f(key), u);
      } else {
        assert keys - {key} == keys;
      }
    } else {
      assert keys' == keys;
      SumOverSame(keys, f, g);
    }
  }

  predicate Hits(node: string, r: AllocationResult, key: PodKey) {
    key.node == node && key.device == r.device && key.namespace == r.namespace
  }

  lemma {:induction false} CreditPodsValue(sums: map<PodKey, Usage>, node: string, r: AllocationResult,
                                           pods: seq<string>, key: PodKey)
    ensures Value(CreditPods(sums, node, r, pods), key) ==
            if Hits(node, r, key) then Value(sums, key).Plus(Times(r.usage, Occurrences(pods, key.pod)))
            else Value(sums, key)
  {
    hide Value, Credit, Times;
    if pods == [] {
      PlusNothing(Value(sums, key), r.usage);
    } else {
      var n := |pods| - 1;
      CreditPodsValue(sums, node, r, pods[..n], key);
      var before := CreditPods(sums, node, r, pods[..n]);
      var credited := PodKey(node, r.device, r.namespace, pods[n]);
      CreditValue(before, credited, r.usage, key);
      if Hits(node, r, key) && pods[n] == key.pod {
        assert key == credited;
        OneMoreTime(Value(sums, key), r.usage, Occurrences(pods[..n], key.pod));
      }
    }
  }

  lemma PlusNothing(a: Usage, u: Usage)
    ensures a.Plus(Times(u, 0)) == a
  {
  }

  lemma OneMoreTime(a: Usage, u: Usage, n: nat)
    ensures a.Plus(Times(u, n)).Plus(u) == a.Plus(Times(u, n + 1))
  {
    PlusAssoc(a, Times(u, n), u);
  }

  lemma CreditValue(sums: map<PodKey, Usage>, credited: PodKey, u: Usage, key: PodKey)
    ensures Value(Credit(sums, credited, u), key) ==
            if key == credited then Value(sums, key).Plus(u) else Value(sums, key)
  {
  }

  lemma PlusAssoc(a: Usage, b: Usage, c: Usage)
    ensures a.Plus(b).Plus(c) == a.Plus(b.Plus(c))
  {
  }

  lemma {:induction false} CreditPodsKeys(sums: map<PodKey, Usage>, node: string, r: AllocationResult,
                                          pods: seq<string>, key: PodKey)
    ensures key in CreditPods(sums, node, r, pods) <==> key in sums || (Hits(node, r, key) && key.pod in pods)
  {
    hide Value;
    if pods != [] {
      var n := |pods| - 1;
      CreditPodsKeys(sums, node, r, pods[..n], key);
      assert pods == pods[..n] + [pods[n]];
    }
  }

  lemma {:induction false} CreditPodsTotal(sums: map<PodKey, Usage>, node: string, r: AllocationResult,
                                           pods: seq<string>, n: string, device: string)
    ensures PodTotal(CreditPods(sums, node, r, pods), n, device) ==
            if n == node && r.device == device
            then PodTotal(sums, n, device).Plus(Times(r.usage, |pods|)) else PodTotal(sums, n, device)
  {
    hide PodTotal;
    if pods != [] {
      var m := |pods| - 1;
      CreditPodsTotal(sums, node, r, pods[..m], n, device);
      CreditTotal(CreditPods(sums, node, r, pods[..m]), PodKey(node, r.device, r.namespace, pods[m]), r.usage,
                  n, device);
    }
  }

  lemma {:induction false} CreditResultsValue(layout: Layout, sums: map<PodKey, Usage>, al: DeviceAllocation,
                                              results: seq<AllocationResult>, key: PodKey)
    ensures Value(CreditResults(layout, sums, al.node, results, al.usedBy), key) ==
            Value(sums, key).Plus(PodShare(layout, al.(results := results), key))
  {
    hide Published, Value, Times, CreditPods, Occurrences;
    if results != [] {
      var n := |results| - 1;
      var before := CreditResults(layout, sums, al.node, results[..n], al.usedBy);
      CreditResultsValue(layout, sums, al, results[..n], key);
      CreditPodsValue(before, al.node, results[n], al.usedBy, key);
      PlusAssoc(Value(sums, key), PodShare(layout, al.(results := results[..n]), key),
                Times(results[n].usage, Occurrences(al.usedBy, key.pod)));
    }
  }

  lemma {:induction false} CreditResultsKeys(layout: Layout, sums: map<PodKey, Usage>, al: DeviceAllocation,
                                             results: seq<AllocationResult>, key: PodKey)
    ensures key in CreditResults(layout, sums, al.node, results, al.usedBy)
            <==> key in sums || Shows(layout, al.(results := results), key)
  {
    hide Published, CreditPods;
    if results != [] {
      var n := |results| - 1;
      var before := CreditResults(layout, sums, al.node, results[..n], al.usedBy);
      CreditResultsKeys(layout, sums, al, results[..n], key);
      CreditPodsKeys(before, al.node, results[n], al.usedBy, key);
      assert Shows(layout, al.(results := results), key) <==>
        Shows(layout, al.(results := results[..n]), key)
        || (Hits(al.node, results[n], key) && Published(layout, key.node, key.device) && key.pod in al.usedBy);
    }
  }

  lemma {:induction false} CreditResultsTotal(layout: Layout, sums: map<PodKey, Usage>, al: DeviceAllocation,
                                              results: seq<AllocationResult>, node: string, device: string)
    ensures PodTotal(CreditResults(layout, sums, al.node, results, al.usedBy), node, device) ==
            PodTotal(sums, node, device).Plus(DeviceShare(layout, al.(results := results), node, device))
  {
    hide Published, PodTotal;
    if results != [] {
      var n := |results| - 1;
      CreditResultsTotal(layout, sums, al, results[..n], node, device);
      CreditPodsTotal(CreditResults(layout, sums, al.node, results[..n], al.usedBy),
                      al.node, results[n], al.usedBy, node, device);
    }
  }

  /******* The whole view *******/

  /** What a pod's series shows: its share of every claim. */
  ghost function PodUsageOf(layout: Layout, claims: map<string, DeviceAllocation>, key: PodKey): Usage {
    SumOver(claims.Keys, (k: string) => if k in claims then PodShare(layout, claims[k], key) else Usage(0, 0))
  }

  function DeviceShareAt(layout: Layout, claims: map<string, DeviceAllocation>, node: string, device: string)
    : string -> Usage
  {
    (k: string) => if k in claims then DeviceShare(layout, claims[k], node, device) else Usage(0, 0)
  }

  /** A device's claim results, each counted once per reserving pod. */
  ghost function DeviceUsageOf(layout: Layout, claims: map<string, DeviceAllocation>, node: string, device: string)
    : Usage
  {
    SumOver(claims.Keys, DeviceShareAt(layout, claims, node, device))
  }

  ghost predicate Tallied(layout: Layout, claims: map<string, DeviceAllocation>, sums: map<PodKey, Usage>) {
    && (forall key :: key in sums <==> exists k | k in claims :: Shows(layout, claims[k], key))
    && (forall key :: Value(sums, key) == PodUsageOf(layout, claims, key))
    && (forall node, device :: PodTotal(sums, node, device) == DeviceUsageOf(layout, claims, node, device))
  }

  lemma PodUsageInsert(layout: Layout, claims: map<string, DeviceAllocation>, k: string, al: DeviceAllocation,
                       key: PodKey)
    requires k !in claims
    ensures PodUsageOf(layout, claims[k := al], key) == PodUsageOf(layout, claims, key).Plus(PodShare(layout, al, key))
  {
    hide PodShare;
    var after := claims[k := al];
    var f := (x: string) => if x in claims then PodShare(layout, claims[x], key) else Usage(0, 0);
    var g := (x: string) => if x in after then PodShare(layout, after[x], key) else Usage(0, 0);
    SumOverRemove(after.Keys, g, k);
    assert after.Keys - {k} == claims.Keys;
    SumOverSame(claims.Keys, f, g);
  }

  lemma DeviceUsageInsert(layout: Layout, claims: map<string, DeviceAllocation>, k: string, al: DeviceAllocation,
                          node: string, device: string)
    requires k !in claims
    ensures DeviceUsageOf(layout, claims[k := al], node, device) ==
            DeviceUsageOf(layout, claims, node, device).Plus(DeviceShare(layout, al, node, device))
  {
    hide DeviceShare;
    var after := claims[k := al];
    var f, g := DeviceShareAt(layout, claims, node, device), DeviceShareAt(layout, after, node, device);
    SumOverRemove(after.Keys, g, k);
    assert after.Keys - {k} == claims.Keys;
    SumOverSame(claims.Keys, f, g);
  }

  /** Crediting one more claim, whichever comes next, extends the tally by that claim. */
  lemma TalliedMore(layout: Layout, claims: map<string, DeviceAllocation>, sums: map<PodKey, Usage>,
                    k: string, al: DeviceAllocation)
    requires Tallied(layout, claims, sums) && k !in claims
    ensures Tallied(layout, claims[k := al], CreditResults(layout, sums, al.node, al.results, al.usedBy))
  {
    hide Value, Shows, PodUsageOf, DeviceUsageOf, PodTotal, CreditResults, PodShare, DeviceShare;
    var after, more := CreditResults(layout, sums, al.node, al.results, al.usedBy), claims[k := al];
    assert al.(results := al.results) == al;
    forall key
      ensures key in after <==> exists x | x in more :: Shows(layout, more[x], key)
      ensures Value(after, key) == PodUsageOf(layout, more, key)
    {
      CreditResultsKeys(layout, sums, al, al.results, key);
      CreditResultsValue(layout, sums, al, al.results, key);
      PodUsageInsert(layout, claims, k, al, key);
      if exists x | x in claims :: Shows(layout, claims[x], key) {
        var x :| x in claims && Shows(layout, claims[x], key);
        assert x in more && more[x] == claims[x];
      }
      assert Shows(layout, al, key) ==> k in more && Shows(layout, more[k], key);
    }
    forall node, device ensures PodTotal(after, node, device) == DeviceUsageOf(layout, more, node, device) {
      CreditResultsTotal(layout, sums, al, al.results, node, device);
      DeviceUsageInsert(layout, claims, k, al, node, device);
    }
  }

  lemma TalliedNothing(layout: Layout)
    ensures Tallied(layout, map[], map[])
  {
    forall node, device ensures PodTotal(map[], node, device) == Usage(0, 0) {
      var none: map<PodKey, Usage> := map[];
      assert (set k | k in none && k.node == node && k.device == device) == {};
    }
  }

  /**
   Every pod's share of every claim, whatever order the claims come in: a series per pod, device and
   namespace, and per device a total that counts each claim result once per reserving pod.
   */
  method PodDevices(cache: NodeDevices) returns (sums: map<PodKey, Usage>)
    requires cache.Valid()
    ensures Tallied(cache.View().layout, cache.claims, sums)
  {
    hide NodeDevices.Valid, NodeDevices.View, Tallied, Target;
    ghost var layout := cache.View().layout;
    sums := map[];
    var rest := cache.claims.Keys;
    ghost var done: map<string, DeviceAllocation> := map[];
    TalliedNothing(layout);
    while rest != {}
      invariant rest <= cache.claims.Keys
      invariant done.Keys == cache.claims.Keys - rest && forall k | k in done :: done[k] == cache.claims[k]
      invariant Tallied(layout, done, sums)
    {
      var k :| k in rest;
      var al := cache.claims[k];
      TalliedMore(layout, done, sums, k, al);
      sums := CreditClaim(cache, al, sums);
      rest := rest - {k};
      done := done[k := al];
    }
    assert done == cache.claims;
  }

  /** The inner loops over the results of one claim and its pods. */
  method CreditClaim(cache: NodeDevices, al: DeviceAllocation, before: map<PodKey, Usage>)
    returns (sums: map<PodKey, Usage>)
    requires cache.Valid()
    ensures sums == CreditResults(cache.View().layout, before, al.node, al.results, al.usedBy)
  {
    hide NodeDevices.Valid, NodeDevices.View, Target, CreditPods;
    ghost var layout := cache.View().layout;
    sums := before;
    assert al.results[..0] == [];
    for i := 0 to |al.results|
      invariant sums == CreditResults(layout, before, al.node, al.results[..i], al.usedBy)
    {
      assert al.results[..i + 1][..i] == al.results[..i];
      var r := al.results[i];
      var found := cache.Find(al.node, r.device);
      if found.Some? {
        sums := CreditEach(sums, al.node, r, al.usedBy);
      }
    }
    assert al.results[..|al.results|] == al.results;
  }

  method CreditEach(before: map<PodKey, Usage>, node: string, r: AllocationResult, pods: seq<string>)
    returns (sums: map<PodKey, Usage>)
    ensures sums == CreditPods(before, node, r, pods)
  {
    hide Credit;
    sums := before;
    assert pods[..0] == [];
    for j := 0 to |pods|
      invariant sums == CreditPods(before, node, r, pods[..j])
    {
      assert pods[..j + 1][..j] == pods[..j];
      sums := Credit(sums, PodKey(node, r.device, r.namespace, pods[j]), r.usage);
    }
    assert pods[..|pods|] == pods;
  }

  /******* Agreement with the per-device view *******/

  lemma {:induction false} OnePodSum(results: seq<AllocationResult>, device: string)
    ensures TimesSum(results, device, 1) == ResultsSum(results, device)
  {
    if results != [] {
      OnePodSum(results[..|results| - 1], device);
      assert Times(results[|results| - 1].usage, 1) == results[|results| - 1].usage by {
        assert Times(results[|results| - 1].usage, 0) == Usage(0, 0);
      }
    }
  }

  lemma OnePodShare(layout: Layout, al: DeviceAllocation, node: string, device: string)
    requires Published(layout, node, device) && |al.usedBy| == 1
    ensures DeviceShare(layout, al, node, device) == ChargeOf(al.node, al.results, node, device)
  {
    OnePodSum(al.results, device);
  }

  /**
   When every claim is reserved by one pod and the cached usage is exact, the pods' shares of a device
   add up to the usage cached for it.
   */
  lemma PodsAddUpToDevice(st: State, sums: map<PodKey, Usage>, node: string, device: string, a: Address)
    requires st.Valid() && Exact(st) && Tallied(st.layout, st.claims, sums)
    requires forall k | k in st.claims :: |st.claims[k].usedBy| == 1
    requires Target(st.layout, node, device) == Some(a)
    ensures PodTotal(sums, node, device) == st.used[a]
  {
    hide Target, PodTotal, DeviceShare;
    assert PodTotal(sums, node, device) == DeviceUsageOf(st.layout, st.claims, node, device);
    forall k | k in st.claims
      ensures DeviceShare(st.layout, st.claims[k], node, device)
              == ChargeOf(st.claims[k].node, st.claims[k].results, node, device)
    {
      OnePodShare(st.layout, st.claims[k], node, device);
    }
    SumOverSame(st.claims.Keys, DeviceShareAt(st.layout, st.claims, node, device), ChargeAt(st.claims, node, device));
    ExpectedCases(st.layout, st.claims, a);
  }
}
