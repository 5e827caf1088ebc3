/** Concrete runs on which the device-usage cache as written departs from usage computed from scratch. */
module UsageExamples {
  import opened Options
  import opened StringOrder
  import opened UsageModel
  import opened UsageTheorems

  const GPU := PublishedDevice("gpu-0", map["cores" := 100, "memory" := 16], map[])
  const FIRST := ResourceSlice("a", Some("node"), "driver", [GPU])
  const SECOND := ResourceSlice("b", Some("node"), "driver", [])
  const ON_NODE := [SelectorTerm([MatchField("metadata.name", "In", ["node"])])]
  const CLAIM := ResourceClaim("ns", "claim",
    ClaimStatus(Some(Allocation(Some([DeviceResult("gpu-0", Some(map["cores" := 30]))]), Some(ON_NODE))), ["pod"], ""))

  /** One slice, a claim on its device, then a second slice of the same node. */
  const TWO_SLICES := [SliceAdded(FIRST), ClaimAdded(CLAIM), SliceAdded(SECOND)]

  lemma ExampleClaim()
    ensures AllocationOf(CLAIM) ==
            Some(DeviceAllocation([AllocationResult("ns", "gpu-0", Usage(30, 0))], ["pod"], "node"))
  {
    var r := [DeviceResult("gpu-0", Some(map["cores" := 30]))];
    assert r[..0] == [];
    assert ResultsOf("ns", r[..0]) == [];
    assert ResultsOf("ns", r) == [AllocationResult("ns", "gpu-0", Usage(30, 0))];
    assert FirstNameField(ON_NODE[0].matchFields) == Some(ON_NODE[0].matchFields[0]);
  }

  lemma OneSliceTarget(layout: Layout, node: string, slice: string, device: string)
    requires node in layout && layout[node].Keys == {slice} && |layout[node][slice]| == 1
    requires layout[node][slice][0].name == device
    ensures Target(layout, node, device) == Some(Address(node, slice, 0))
  {
    var names := Sorted({slice});
    assert names == [slice] by { assert names[0] in {slice}; }
    assert names[..0] == [];
    var places := DevicePlaces(node, layout[node]);
    assert Places(node, layout[node], names[..0]) == [];
    assert places == [Address(node, slice, 0)];
  }

  lemma OneClaimCharge(k: string, r: AllocationResult, usedBy: seq<string>, node: string)
    ensures Charge(map[k := DeviceAllocation([r], usedBy, node)], node, r.device) == r.usage
  {
    var m := map[k := DeviceAllocation([r], usedBy, node)];
    ChargeRemove(m, k, node, r.device);
    assert m - {k} == map[];
    assert [r][..0] == [];
    assert ResultsSum([r], r.device) == ResultsSum([r][..0], r.device).Plus(r.usage);
  }

  lemma ExampleIsLegal()
    ensures LegalRun(TWO_SLICES) && NonNegativeRun(TWO_SLICES)
    ensures After(TWO_SLICES[..2]) == Delivered(map["a" := FIRST], map[ClaimKey(CLAIM) := CLAIM])
  {
    hide AllocationOf;
    ExampleClaim();
    var es := TWO_SLICES;
    assert es[..2][..1] == es[..1] && es[..1][..0] == [];
    assert After(es[..1]) == Delivered(map["a" := FIRST], map[]);
    assert LegalRun(es[..1]);
    assert LegalRun(es[..2]);
    assert NonNegativeClaim(CLAIM);
  }

  /** With one slice and one claim the cache is exact and shows the claim's 30 cores. */
  lemma ExampleBefore()
    ensures Run(TWO_SLICES[..2], false) == FromScratch(After(TWO_SLICES[..2]))
    ensures var st := Run(TWO_SLICES[..2], false);
            Address("node", "a", 0) in st.used && st.used[Address("node", "a", 0)] == Usage(30, 0)
  {
    hide Run, AllocationOf, Charge, Target;
    var es := TWO_SLICES[..2];
    ExampleIsLegal();
    assert NonNegativeRun(es);
    assert es[..0] == [] && es[..1] == [SliceAdded(FIRST)] && es[..2] == es;
    ExampleOneSlice();
    OneSliceExact(es);
    ExampleScratch();
  }

  lemma ExampleOneSlice()
    ensures OneSliceRun(TWO_SLICES[..2])
  {
    hide AllocationOf;
    var es := TWO_SLICES[..2];
    ExampleIsLegal();
    assert es[..0] == [] && es[..1][..0] == [] && es[..2][..1] == es[..1] && es[..2] == es;
    assert After(es[..1]).slices == map["a" := FIRST];
    forall k | 0 <= k <= |es| ensures OneSlicePerNode(After(es[..k])) {
      assert k == 0 || k == 1 || k == 2;
    }
  }

  lemma ExampleScratch()
    ensures var st := FromScratch(After(TWO_SLICES[..2]));
            Address("node", "a", 0) in st.used && st.used[Address("node", "a", 0)] == Usage(30, 0)
  {
    hide AllocationOf, Charge, Target, Run;
    ExampleIsLegal();
    ExampleClaim();
    var slices := map["a" := FIRST];
    NodesOfHas(slices, "node");
    assert "a" in SlicesOn(slices, "node");
    var layout := LayoutOf(slices);
    assert layout["node"].Keys == {"a"};
    OneSliceTarget(layout, "node", "a", "gpu-0");
    var al := AllocationOf(CLAIM).value;
    assert TableOf(map[ClaimKey(CLAIM) := CLAIM]) == map[ClaimKey(CLAIM) := al];
    OneClaimCharge(ClaimKey(CLAIM), al.results[0], al.usedBy, "node");
  }

  /** A kept device in use makes an added slice disturb the node. */
  lemma KeptInUse(es: seq<Event>, k: nat, s: ResourceSlice, a: Address)
    requires k < |es| && es[k] == SliceAdded(s) && s.nodeName == Some(a.node) && a.slice != s.name
    requires var st := FromScratch(After(es[..k])); a in st.used && st.used[a] != Usage(0, 0)
    ensures !Undisturbing(es, false, k)
  {
    hide FromScratch, After;
    assert !KeptIdle(FromScratch(After(es[..k])), a.node, s.name);
  }

  lemma SecondSliceDisturbs()
    ensures !Undisturbing(TWO_SLICES, false, 2)
  {
    hide Undisturbing, FromScratch, After;
    ExampleScratch();
    assert TWO_SLICES[2] == SliceAdded(SECOND);
    KeptInUse(TWO_SLICES, 2, SECOND, Address("node", "a", 0));
  }

  /** Adding the second slice, though it holds no device at all, makes the cache show too much. */
  lemma SecondSliceOvercounts()
    ensures Run(TWO_SLICES, false) != FromScratch(After(TWO_SLICES))
  {
    hide Run, FromScratch, After, Undisturbing, LegalRun, NonNegativeRun;
    ExampleIsLegal();
    ExampleBefore();
    SecondSliceDisturbs();
    DisturbedDiffers(TWO_SLICES, false);
  }

  /** Starting the kept devices at zero, as the rebuild's comment intends, gives the right usage. */
  lemma SecondSliceReset()
    ensures Run(TWO_SLICES, true) == FromScratch(After(TWO_SLICES))
  {
    hide Run, FromScratch, After, LegalRun, NonNegativeRun;
    ExampleIsLegal();
    RefinementTheorem(TWO_SLICES, true);
    assert RefinedAt(TWO_SLICES, true, 3);
    assert TWO_SLICES[..3] == TWO_SLICES;
  }
}
