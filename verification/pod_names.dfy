/** When the claims of one pod take different names, so that only other objects can be in their way. */
module PodNames {
  import opened Options
  import opened ClaimNames
  import opened DeviceConfigs
  import opened Capacities
  import opened ObjectStore
  import opened ClaimConversion
  import opened ConversionOrder
  import opened PodConversion

  // The length of a random name segment.
  const SEGMENT := 5

  function OwnerAt(pod: PodValue, draw: Draw, i: nat, cfg: DeviceConfig): string {
    if pod.name == "" then draw(i, cfg) else pod.name
  }

  function RawAt(pod: PodValue, draw: Draw, i: nat, cfg: DeviceConfig): string
    requires i < |pod.containers|
  {
    RawName(pod.namespace, OwnerAt(pod, draw, i, cfg), pod.containers[i].name, cfg.Suffix())
  }

  /** The name of the claim of container i and config j. */
  function NameAt(s: Settings, pod: PodValue, draw: Draw, i: nat, j: nat): string
    requires i < |pod.containers| && j < |s.configs|
  {
    Naming(s.hash, pod.namespace, pod.name, pod.containers[i].name, i, draw)(s.configs[j])
  }

  lemma NameAtIs(s: Settings, pod: PodValue, draw: Draw, i: nat, j: nat)
    requires i < |pod.containers| && j < |s.configs|
    ensures NameAt(s, pod, draw, i, j) == Truncate(RawAt(pod, draw, i, s.configs[j]), s.hash)
  {
    hide Truncate, RawName;
    var cfg, container := s.configs[j], pod.containers[i].name;
    assert NameAt(s, pod, draw, i, j)
        == ClaimName(pod.namespace, OwnerAt(pod, draw, i, cfg), container, cfg.Suffix(), s.hash);
  }

  /** Suffixes that are there, and none of which is another or a dash-separated tail of another. */
  ghost predicate SuffixesApart(cfgs: seq<DeviceConfig>) {
    && SuffixesDistinct(cfgs)
    && forall d, e | d in cfgs && e in cfgs :: d.Suffix() != "" && Separates(d.Suffix(), e.Suffix())
  }

  predicate ContainersDistinct(pod: PodValue) {
    forall i, j | 0 <= i < j < |pod.containers| :: pod.containers[i].name != pod.containers[j].name
  }

  /** Container i asks for the device of config j. */
  predicate Requested(s: Settings, pod: PodValue, i: int, j: int) {
    && 0 <= i < |pod.containers| && 0 <= j < |s.configs|
    && s.configs[j].countName in pod.containers[i].resources.limits
  }

  ghost predicate SegmentsDrawn(s: Settings, pod: PodValue, draw: Draw) {
    pod.name == "" ==> forall i, j | Requested(s, pod, i, j) :: |draw(i, s.configs[j])| == SEGMENT
  }

  /** Where names are cut, their hashes tell them apart; nothing is asked of names of at most 63 characters. */
  ghost predicate HashesApart(s: Settings, pod: PodValue, draw: Draw) {
    forall i, j, k, l | Requested(s, pod, i, j) && Requested(s, pod, k, l) ::
      RawAt(pod, draw, i, s.configs[j]) != RawAt(pod, draw, k, s.configs[l]) ==>
        Distinguished(RawAt(pod, draw, i, s.configs[j]), RawAt(pod, draw, k, s.configs[l]), s.hash)
  }

  ghost predicate NamesApart(s: Settings, pod: PodValue, draw: Draw) {
    forall i, j, k, l | Requested(s, pod, i, j) && Requested(s, pod, k, l) ::
      NameAt(s, pod, draw, i, j) == NameAt(s, pod, draw, k, l) ==> i == k && j == l
  }

  /** Resolved configs with the built-in chips have such suffixes. */
  lemma BuiltinSuffixesApart(c: Config, vendors: seq<string>)
    requires Resolvable(c, vendors) && c.ascend.devices == [] && c.ascend.countName == ""
    ensures SuffixesApart(AllConfigs(c, vendors))
  {
    hide AllConfigs, Separates, Fits, VendorConfigs;
    ConfigsSuffixed(c, vendors);
    assert forall s | s in BUILTIN_SUFFIXES :: s != "" by {
      forall s | s in BUILTIN_SUFFIXES ensures s != "" { LiteralDash(s); }
    }
    forall d, e | d in AllConfigs(c, vendors) && e in AllConfigs(c, vendors)
      ensures Separates(d.Suffix(), e.Suffix())
    {
      BuiltinSuffixesSeparate(c, vendors, d, e);
    }
  }

  lemma NamesAreApart(s: Settings, pod: PodValue, draw: Draw)
    requires ContainersDistinct(pod) && SuffixesApart(s.configs)
    requires SegmentsDrawn(s, pod, draw) && HashesApart(s, pod, draw)
    ensures NamesApart(s, pod, draw)
  {
    hide Truncate, RawName, Separates, Distinguished;
    forall i, j, k, l |
      && Requested(s, pod, i, j) && Requested(s, pod, k, l)
      && NameAt(s, pod, draw, i, j) == NameAt(s, pod, draw, k, l)
      ensures i == k && j == l
    {
      var d, e := s.configs[j], s.configs[l];
      var x, y := RawAt(pod, draw, i, d), RawAt(pod, draw, k, e);
      NameAtIs(s, pod, draw, i, j);
      NameAtIs(s, pod, draw, k, l);
      if x != y { TruncationApart(x, y, s.hash); }
      RawNamesInjective(pod.namespace, OwnerAt(pod, draw, i, d), pod.containers[i].name, d.Suffix(),
                        OwnerAt(pod, draw, k, e), pod.containers[k].name, e.Suffix());
    }
  }

  ghost predicate DistinctNames(entries: seq<Entry>) {
    forall i, j | 0 <= i < j < |entries| :: entries[i].name != entries[j].name
  }

  lemma {:induction false} RestWithin(cfgs: seq<DeviceConfig>, ctx: Context, naming: DeviceConfig -> string,
                                      r: Resources)
    requires Convert(cfgs, ctx, naming, r).Success?
    ensures Convert(cfgs, ctx, naming, r).value.rest.limits.Keys <= r.limits.Keys
  {
    hide TurnOf, Taken;
    if cfgs != [] {
      var n := |cfgs| - 1;
      RestWithin(cfgs[..n], ctx, naming, r);
      TurnLeaves(cfgs[n], ctx, Convert(cfgs[..n], ctx, naming, r).value.rest);
    }
  }

  /** The entries of one container are named by requested configs of ascending position. */
  lemma {:induction false} ContainerNames(cfgs: seq<DeviceConfig>, ctx: Context, naming: DeviceConfig -> string,
                                          r: Resources)
    requires Convert(cfgs, ctx, naming, r).Success?
    requires forall j, l | 0 <= j < l < |cfgs| && cfgs[j].countName in r.limits && cfgs[l].countName in r.limits ::
      naming(cfgs[j]) != naming(cfgs[l])
    ensures var entries := Convert(cfgs, ctx, naming, r).value.entries;
            && DistinctNames(entries)
            && forall e | e in entries :: exists j ::
                 0 <= j < |cfgs| && cfgs[j].countName in r.limits && e.name == naming(cfgs[j])
  {
    hide TurnOf;
    if cfgs != [] {
      var n := |cfgs| - 1;
      ContainerNames(cfgs[..n], ctx, naming, r);
      RestWithin(cfgs[..n], ctx, naming, r);
      var c := Convert(cfgs[..n], ctx, naming, r).value;
      if cfgs[n].countName !in r.limits { NotAsked(cfgs[n], ctx, c.rest); }
      forall e | e in c.entries
        ensures exists j :: 0 <= j < n && cfgs[j].countName in r.limits && e.name == naming(cfgs[j])
      {
        var j :| 0 <= j < n && cfgs[..n][j].countName in r.limits && e.name == naming(cfgs[..n][j]);
        assert cfgs[..n][j] == cfgs[j];
      }
      assert forall k | 0 <= k < |c.entries| :: c.entries[k] in c.entries;
    }
  }

  /** So the entries of the first n containers have different names. */
  lemma {:induction false} PodEntryNames(s: Settings, slices: Option<seq<DriverSlice>>, pod: PodValue, n: nat,
                                         draw: Draw)
    requires n <= |pod.containers| && AdmitContainers(s, slices, pod, n, draw).Success?
    requires NamesApart(s, pod, draw)
    ensures var entries := AdmitContainers(s, slices, pod, n, draw).value.entries;
            && DistinctNames(entries)
            && forall e | e in entries :: NamedWithin(s, pod, draw, n, e.name)
  {
    hide Convert, Naming;
    if n > 0 {
      PodEntryNames(s, slices, pod, n - 1, draw);
      var before := AdmitContainers(s, slices, pod, n - 1, draw).value.entries;
      var more := ConvertContainer(s, slices, pod, n - 1, draw).value.entries;
      var i := n - 1;
      var c := pod.containers[i];
      var naming := Naming(s.hash, pod.namespace, pod.name, c.name, i, draw);
      assert forall j | 0 <= j < |s.configs| :: naming(s.configs[j]) == NameAt(s, pod, draw, n - 1, j);
      forall j, l | 0 <= j < l < |s.configs|
        && s.configs[j].countName in c.resources.limits && s.configs[l].countName in c.resources.limits
        ensures naming(s.configs[j]) != naming(s.configs[l])
      {
        assert Requested(s, pod, n - 1, j) && Requested(s, pod, n - 1, l);
      }
      ContainerNames(s.configs, Context(pod.annotations, slices), naming, c.resources);
      forall e | e in more
        ensures NamedWithin(s, pod, draw, n, e.name)
        ensures exists j :: Requested(s, pod, i, j) && e.name == NameAt(s, pod, draw, i, j)
      {
        var j :| 0 <= j < |s.configs| && s.configs[j].countName in c.resources.limits && e.name == naming(s.configs[j]);
        assert Requested(s, pod, i, j) && e.name == NameAt(s, pod, draw, i, j);
      }
      forall k, l | 0 <= k < |before| && 0 <= l < |more| ensures before[k].name != more[l].name {
        assert before[k] in before && more[l] in more;
      }
    }
  }

  /** Some requested config of the first n containers names it. */
  ghost predicate NamedWithin(s: Settings, pod: PodValue, draw: Draw, n: nat, name: string) {
    exists i, j :: i < n && Requested(s, pod, i, j) && name == NameAt(s, pod, draw, i, j)
  }

  /** No other object has one of the pod's names. */
  predicate NamesFree(s: Settings, pod: PodValue, entries: seq<Entry>, store: Store) {
    forall e | e in entries :: Key(s.Kind(), pod.namespace, e.name) !in store
  }

  /** Then only a name that some other object has keeps the claims of the pod from being created. */
  lemma CollisionFree(s: Settings, slices: Option<seq<DriverSlice>>, pod: PodValue, draw: Draw, store: Store)
    requires Admit(s, slices, pod, draw).Success?
    requires ContainersDistinct(pod) && SuffixesApart(s.configs)
    requires SegmentsDrawn(s, pod, draw) && HashesApart(s, pod, draw)
    ensures var a := Admit(s, slices, pod, draw).value;
            CanCreate(s, pod, a, store) <==> NamesFree(s, pod, a.entries, store)
  {
    hide ContainersDistinct, SuffixesApart, SegmentsDrawn, HashesApart, NamesApart, AdmitContainers;
    NamesAreApart(s, pod, draw);
    PodEntryNames(s, slices, pod, |pod.containers|, draw);
    var a := Admit(s, slices, pod, draw).value;
    assert forall i | 0 <= i < |a.entries| :: a.entries[i] in a.entries;
  }

  /******* The suffixes that keep names apart *******/

  /** A pod whose containers "c" and "c-u" ask for one device each, of d and of e. */
  function CollidingPod(d: DeviceConfig, e: DeviceConfig, u: string, namespace: string): PodValue {
    PodValue(
      namespace, "p", map[], map[],
      [ContainerValue("c", Resources(map[d.countName := 1], map[]), []),
       ContainerValue("c-" + u, Resources(map[e.countName := 1], map[]), [])],
      [])
  }

  /**
   Where a suffix is a dash-separated tail of another, this pod is admitted but refused, whatever the
   store holds, although its containers and its untruncated names give no other reason.
   */
  lemma TailCollides(s: Settings, j: nat, l: nat, u: string, slices: Option<seq<DriverSlice>>,
                     namespace: string, draw: Draw, store: Store)
    requires Admissible(s.configs) && j < |s.configs| && l < |s.configs|
    requires s.configs[l].Suffix() != "" && s.configs[j].Suffix() == u + "-" + s.configs[l].Suffix()
    ensures var pod := CollidingPod(s.configs[j], s.configs[l], u, namespace);
            var a := Admit(s, slices, pod, draw);
            && ContainersDistinct(pod) && SegmentsDrawn(s, pod, draw) && HashesApart(s, pod, draw)
            && a.Success? && !CanCreate(s, pod, a.value, store)
  {
    var pod := CollidingPod(s.configs[j], s.configs[l], u, namespace);
    CollidingRequests(s, j, l, u, namespace);
    CollidingNames(s, j, l, u, namespace, draw);
    assert ContainersDistinct(pod) by { assert |"c"| != |"c-" + u|; }
    hide Admit, CanCreate, RawAt, Requested, Admissible, Naming, ContainersDistinct;
    CollidingEntries(s, j, l, u, slices, namespace, draw, store);
  }

  lemma CollidingEntries(s: Settings, j: nat, l: nat, u: string, slices: Option<seq<DriverSlice>>,
                         namespace: string, draw: Draw, store: Store)
    requires Admissible(s.configs) && j < |s.configs| && l < |s.configs|
    requires Naming(s.hash, namespace, "p", "c", 0, draw)(s.configs[j])
             == Naming(s.hash, namespace, "p", "c-" + u, 1, draw)(s.configs[l])
    ensures var pod := CollidingPod(s.configs[j], s.configs[l], u, namespace);
            var a := Admit(s, slices, pod, draw);
            a.Success? && !CanCreate(s, pod, a.value, store)
  {
    hide Admissible, Convert, AdmitContainers, Naming, Fresh;
    var pod := CollidingPod(s.configs[j], s.configs[l], u, namespace);
    var first := Naming(s.hash, namespace, "p", "c", 0, draw);
    var second := Naming(s.hash, namespace, "p", "c-" + u, 1, draw);
    CountOnly(s.configs, slices, first, pod.containers[0].resources, j);
    CountOnly(s.configs, slices, second, pod.containers[1].resources, l);
    var a := ConvertContainer(s, slices, pod, 0, draw).value.entries;
    var b := ConvertContainer(s, slices, pod, 1, draw).value.entries;
    AdmitPair(s, slices, pod, draw);
    SharedName(a, b, first(s.configs[j]), s.Kind(), namespace, store);
  }

  lemma AdmitPair(s: Settings, slices: Option<seq<DriverSlice>>, pod: PodValue, draw: Draw)
    requires |pod.containers| == 2
    requires ConvertContainer(s, slices, pod, 0, draw).Success? && ConvertContainer(s, slices, pod, 1, draw).Success?
    ensures Admit(s, slices, pod, draw).Success?
    ensures Admit(s, slices, pod, draw).value.entries ==
            ConvertContainer(s, slices, pod, 0, draw).value.entries
            + ConvertContainer(s, slices, pod, 1, draw).value.entries
  {
    hide ConvertContainer, AdmitContainers;
    AdmitNone(s, slices, pod, draw);
    AdmitOne(s, slices, pod, 0, draw);
    AdmitOne(s, slices, pod, 1, draw);
    var a := ConvertContainer(s, slices, pod, 0, draw).value.entries;
    assert [] + a == a;
  }

  lemma CollidingRequests(s: Settings, j: nat, l: nat, u: string, namespace: string)
    requires Admissible(s.configs) && j < |s.configs| && l < |s.configs|
    ensures var pod := CollidingPod(s.configs[j], s.configs[l], u, namespace);
            forall i, k :: Requested(s, pod, i, k) <==> (i == 0 && k == j) || (i == 1 && k == l)
  {
    var pod := CollidingPod(s.configs[j], s.configs[l], u, namespace);
    forall k: nat | k < |s.configs|
      ensures s.configs[k].countName == s.configs[j].countName <==> k == j
      ensures s.configs[k].countName == s.configs[l].countName <==> k == l
    {
      assert s.configs[k].Names()[0] == s.configs[k].countName;
      assert s.configs[j].Names()[0] == s.configs[j].countName && s.configs[l].Names()[0] == s.configs[l].countName;
    }
  }

  lemma CollidingNames(s: Settings, j: nat, l: nat, u: string, namespace: string, draw: Draw)
    requires j < |s.configs| && l < |s.configs|
    requires s.configs[l].Suffix() != "" && s.configs[j].Suffix() == u + "-" + s.configs[l].Suffix()
    ensures var pod := CollidingPod(s.configs[j], s.configs[l], u, namespace);
            && RawAt(pod, draw, 0, s.configs[j]) == RawAt(pod, draw, 1, s.configs[l])
            && Naming(s.hash, namespace, "p", "c", 0, draw)(s.configs[j])
               == Naming(s.hash, namespace, "p", "c-" + u, 1, draw)(s.configs[l])
  {
    var pod := CollidingPod(s.configs[j], s.configs[l], u, namespace);
    var base, t := namespace + "-" + "p" + "-", s.configs[l].Suffix();
    assert RawName(namespace, "p", "c", u + "-" + t) == base + ("c-" + u + "-" + t);
    assert RawName(namespace, "p", "c-" + u, t) == base + ("c-" + u + "-" + t);
    NameAtIs(s, pod, draw, 0, j);
    NameAtIs(s, pod, draw, 1, l);
  }

  /** A name on both lists is taken when it is needed the second time. */
  lemma SharedName(a: seq<Entry>, b: seq<Entry>, name: string, kind: Kind, namespace: string, store: Store)
    requires exists e :: e in a && e.name == name
    requires exists e :: e in b && e.name == name
    ensures !Fresh(kind, namespace, a + b, store) && !DistinctNames(a + b)
  {
    var e :| e in a && e.name == name;
    var f :| f in b && f.name == name;
    var i: nat :| i < |a| && a[i] == e;
    var k: nat :| k < |b| && b[k] == f;
    assert (a + b)[i] == e && (a + b)[|a| + k] == f;
  }

  /** The claims of a pod with distinct containers, and telling hashes, are in nobody's way but others'. */
  ghost predicate OnlyOthersBlock(s: Settings, slices: Option<seq<DriverSlice>>, pod: PodValue, draw: Draw,
                                  store: Store)
  {
    var a := Admit(s, slices, pod, draw);
    a.Success? && ContainersDistinct(pod) && SegmentsDrawn(s, pod, draw) && HashesApart(s, pod, draw) ==>
      (CanCreate(s, pod, a.value, store) <==> NamesFree(s, pod, a.value.entries, store))
  }

  /** For resolved configs this holds of all pods if and only if no suffix is a tail of another. */
  lemma SuffixesApartIff(s: Settings)
    requires Admissible(s.configs) && forall c | c in s.configs :: c.Suffix() != ""
    ensures (forall slices, pod, draw, store :: OnlyOthersBlock(s, slices, pod, draw, store))
            <==> SuffixesApart(s.configs)
  {
    hide Admit, CanCreate, SegmentsDrawn, HashesApart, ContainersDistinct;
    if SuffixesApart(s.configs) {
      forall slices, pod, draw, store ensures OnlyOthersBlock(s, slices, pod, draw, store) {
        var a := Admit(s, slices, pod, draw);
        if a.Success? && ContainersDistinct(pod) && SegmentsDrawn(s, pod, draw) && HashesApart(s, pod, draw) {
          CollisionFree(s, slices, pod, draw, store);
        }
      }
    } else {
      var d, e :| d in s.configs && e in s.configs && !Separates(d.Suffix(), e.Suffix());
      SeparatesIff(d.Suffix(), e.Suffix());
      if Tail(d.Suffix(), e.Suffix()) { TailBlocks(s, e, d); } else { TailBlocks(s, d, e); }
    }
  }

  lemma TailBlocks(s: Settings, d: DeviceConfig, e: DeviceConfig)
    requires Admissible(s.configs) && d in s.configs && e in s.configs
    requires e.Suffix() != "" && Tail(e.Suffix(), d.Suffix())
    ensures exists slices, pod, draw, store :: !OnlyOthersBlock(s, slices, pod, draw, store)
  {
    hide Admit, CanCreate, SegmentsDrawn, HashesApart, ContainersDistinct, Admissible;
    var u: string :| d.Suffix() == u + "-" + e.Suffix();
    var j: nat :| j < |s.configs| && s.configs[j] == d;
    var l: nat :| l < |s.configs| && s.configs[l] == e;
    TailCollides(s, j, l, u, None, "n", NO_SEGMENTS, map[]);
    assert !OnlyOthersBlock(s, None, CollidingPod(d, e, u, "n"), NO_SEGMENTS, map[]);
  }

  const NO_SEGMENTS: Draw := (i, cfg) => ""

  /** The suffixes of resolved configs are there. */
  lemma {:induction false} ResolvedSuffixed(c: Config, vendors: seq<string>)
    ensures forall d | d in AllConfigs(c, vendors) :: d.Suffix() != ""
  {
    if vendors != [] {
      ResolvedSuffixed(c, vendors[..|vendors| - 1]);
      AscendSuffixed(c.ascend, Chips(c.ascend));
    }
  }

  lemma {:induction false} AscendSuffixed(c: AscendConfig, chips: seq<Chip>)
    ensures forall d | d in AscendDevices(c, chips) :: d.Suffix() != ""
  {
    if chips != [] { AscendSuffixed(c, chips[..|chips| - 1]); }
  }

  /******* Resolution does not keep names apart *******/

  // The suffix "b" of the first chip is a tail of the suffix "a-b" of the second; neither names a memory resource.
  const TAIL_CHIPS: seq<Chip> := [Chip("b", "b", "", "n"), Chip("a-b", "x", "", "z")]

  lemma TailConfigs(c: Config)
    requires c.ascend.devices == TAIL_CHIPS
    ensures AllConfigs(c, [ASCEND]) == [AscendDevice(c.ascend, TAIL_CHIPS[0]), AscendDevice(c.ascend, TAIL_CHIPS[1])]
    ensures VendorConfigs(c, ASCEND) == AllConfigs(c, [ASCEND])
  {
    hide AscendDevice;
    var first := AscendDevice(c.ascend, TAIL_CHIPS[0]);
    assert TAIL_CHIPS[..1][..0] == [] && TAIL_CHIPS[..1] == [TAIL_CHIPS[0]];
    assert AscendDevices(c.ascend, TAIL_CHIPS[..1]) == [first];
    assert [ASCEND][..0] == [];
    assert VendorConfigs(c, ASCEND) == [first, AscendDevice(c.ascend, TAIL_CHIPS[1])];
  }

  lemma TailAdmissible(d: DeviceConfig, e: DeviceConfig)
    requires d.Names() == ["b", "", "n", ""] && e.Names() == ["x", "", "z", ""]
    requires d.Suffix() == "b" && e.Suffix() == "a-b"
    ensures Admissible([d, e])
  {
    assert d.countName == d.Names()[0] && e.countName == e.Names()[0];
    assert |d.Suffix()| != |e.Suffix()|;
  }

  lemma TailChipsResolve(c: Config)
    requires c.legacyVendor == "" && c.ascend.devices == TAIL_CHIPS
    ensures Resolvable(c, [ASCEND])
    ensures AllConfigs(c, [ASCEND]) == [AscendDevice(c.ascend, TAIL_CHIPS[0]), AscendDevice(c.ascend, TAIL_CHIPS[1])]
  {
    hide AscendDevice, AllConfigs, VendorConfigs, Admissible;
    TailConfigs(c);
    TailNames(c.ascend);
    TailAdmissible(AscendDevice(c.ascend, TAIL_CHIPS[0]), AscendDevice(c.ascend, TAIL_CHIPS[1]));
  }

  lemma TailNames(c: AscendConfig)
    ensures AscendDevice(c, TAIL_CHIPS[0]).Names() == ["b", "", "n", ""]
    ensures AscendDevice(c, TAIL_CHIPS[1]).Names() == ["x", "", "z", ""]
    ensures AscendDevice(c, TAIL_CHIPS[0]).Suffix() == "b" && AscendDevice(c, TAIL_CHIPS[1]).Suffix() == "a-b"
  {
    assert ToLower("b") == "b";
    assert ToLower("a-b") == "a-b";
  }

  /** A limit with the empty name goes to whichever of these chips comes first. */
  lemma TailChipsOrder(c: Config, naming: DeviceConfig -> string)
    requires c.legacyVendor == "" && c.ascend.devices == TAIL_CHIPS
    requires naming(AscendDevice(c.ascend, TAIL_CHIPS[0])) != naming(AscendDevice(c.ascend, TAIL_CHIPS[1]))
    ensures Resolvable(c, [ASCEND])
    ensures var d, e := AscendDevice(c.ascend, TAIL_CHIPS[0]), AscendDevice(c.ascend, TAIL_CHIPS[1]);
            var ctx, r := Context(map[], None), Resources(map["b" := 1, "x" := 1, "" := 5], map[]);
            var de, ed := Convert([d, e], ctx, naming, r), Convert([e, d], ctx, naming, r);
            && AllConfigs(c, [ASCEND]) == [d, e] && de.Success? && ed.Success?
            && !(forall x :: x in de.value.entries <==> x in ed.value.entries)
  {
    hide Convert, Resolvable, AscendDevice, AllConfigs;
    TailChipsResolve(c);
    TailNames(c.ascend);
    EmptyNameExample(AscendDevice(c.ascend, TAIL_CHIPS[0]), AscendDevice(c.ascend, TAIL_CHIPS[1]), naming);
  }

  /** The containers "c" and "c-a" of a pod need one name, so it is refused, whatever the store holds. */
  lemma TailChipsCollide(c: Config, asTemplate: bool, hash: string -> Digest, slices: Option<seq<DriverSlice>>,
                         namespace: string, draw: Draw, store: Store)
    requires c.legacyVendor == "" && c.ascend.devices == TAIL_CHIPS
    ensures var s := Settings(AllConfigs(c, [ASCEND]), asTemplate, hash);
            && Resolvable(c, [ASCEND]) && |s.configs| == 2
            && var pod := CollidingPod(s.configs[1], s.configs[0], "a", namespace);
               var a := Admit(s, slices, pod, draw);
               a.Success? && !CanCreate(s, pod, a.value, store)
  {
    hide Admit, AllConfigs, AscendDevice, CanCreate, VendorConfigs;
    var s := Settings(AllConfigs(c, [ASCEND]), asTemplate, hash);
    TailChipsResolve(c);
    TailNames(c.ascend);
    assert "a" + "-" + "b" == "a-b";
    TailCollides(s, 1, 0, "a", slices, namespace, draw, store);
  }
}
