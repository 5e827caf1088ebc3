/** How far the order of the configs matters, and when the claims are those of the original limits. */
module ConversionOrder {
  import opened Options
  import opened DeviceConfigs
  import opened Selectors
  import opened Capacities
  import opened ObjectStore
  import opened ClaimConversion

  /******* What one config sees *******/

  /** The turn of config j, on the original resources without the names taken before it. */
  ghost function TurnAt(cfgs: seq<DeviceConfig>, ctx: Context, r: Resources, j: nat): Turn
    requires j < |cfgs|
  {
    TurnOf(cfgs[j], ctx, r.Without(TakenBy(cfgs[..j], r.limits)))
  }

  /** Each config's turn decides whether there are claims, and which. */
  lemma {:induction false} ConvertMeaning(cfgs: seq<DeviceConfig>, ctx: Context, naming: DeviceConfig -> string,
                                          r: Resources)
    requires CountsKept(cfgs, r.limits)
    ensures Convert(cfgs, ctx, naming, r).Success? <==> forall j | 0 <= j < |cfgs| :: TurnAt(cfgs, ctx, r, j) != Refused
    ensures Convert(cfgs, ctx, naming, r).Success? ==>
      forall e :: e in Convert(cfgs, ctx, naming, r).value.entries <==> MadeBy(cfgs, ctx, naming, r, e)
  {
    hide TurnOf, Taken, TakenBy, CountsKept;
    if cfgs != [] {
      var n := |cfgs| - 1;
      CountsKeptPrefix(cfgs, r.limits, n);
      ConvertMeaning(cfgs[..n], ctx, naming, r);
      forall j | 0 <= j < n ensures TurnAt(cfgs[..n], ctx, r, j) == TurnAt(cfgs, ctx, r, j) {
        assert cfgs[..n][..j] == cfgs[..j];
      }
      var before := Convert(cfgs[..n], ctx, naming, r);
      if before.Success? {
        ConvertLeaves(cfgs[..n], ctx, naming, r);
        assert TurnAt(cfgs, ctx, r, n) == TurnOf(cfgs[n], ctx, before.value.rest);
        forall e ensures MadeBy(cfgs, ctx, naming, r, e) <==>
          MadeBy(cfgs[..n], ctx, naming, r, e)
          || (TurnAt(cfgs, ctx, r, n).Converted? && e == Entry(naming(cfgs[n]), TurnAt(cfgs, ctx, r, n).request))
        {
          if MadeBy(cfgs[..n], ctx, naming, r, e) {
            var j: nat :| j < n && MadeAt(cfgs[..n], ctx, naming, r, e, j);
            assert MadeAt(cfgs, ctx, naming, r, e, j);
          }
          if MadeBy(cfgs, ctx, naming, r, e) {
            var j: nat :| j < |cfgs| && MadeAt(cfgs, ctx, naming, r, e, j);
            assert j < n ==> MadeAt(cfgs[..n], ctx, naming, r, e, j);
          }
          assert MadeAt(cfgs, ctx, naming, r, e, n) ==> MadeBy(cfgs, ctx, naming, r, e);
        }
      }
    }
  }

  ghost predicate MadeAt(cfgs: seq<DeviceConfig>, ctx: Context, naming: DeviceConfig -> string, r: Resources,
                         e: Entry, j: nat)
    requires j < |cfgs|
  {
    TurnAt(cfgs, ctx, r, j).Converted? && e == Entry(naming(cfgs[j]), TurnAt(cfgs, ctx, r, j).request)
  }

  /** Some config's turn makes the claim. */
  ghost predicate MadeBy(cfgs: seq<DeviceConfig>, ctx: Context, naming: DeviceConfig -> string, r: Resources,
                         e: Entry)
  {
    exists j: nat :: j < |cfgs| && MadeAt(cfgs, ctx, naming, r, e, j)
  }

  /** Two turns ask for the same. */
  predicate SameTurn(a: Turn, b: Turn) {
    && (a.Skipped? <==> b.Skipped?) && (a.Refused? <==> b.Refused?)
    && (a.Converted? && b.Converted? ==> a.request == b.request)
  }

  /** A config does not notice that names it does not read are gone. */
  lemma TurnLocal(cfg: DeviceConfig, ctx: Context, r: Resources, gone: set<string>)
    requires cfg.countName in r.limits ==>
      forall k | 0 <= k < 4 && Reads(cfg, k) :: cfg.Names()[k] in r.limits ==> cfg.Names()[k] !in gone
    ensures SameTurn(TurnOf(cfg, ctx, r.Without(gone)), TurnOf(cfg, ctx, r))
  {
    hide CoreCapacity, MemoryCapacity, Finished;
    assert cfg.Names()[0] == cfg.countName && cfg.Names()[1] == cfg.memoryName;
    assert cfg.Names()[2] == cfg.coreName && cfg.Names()[3] == cfg.percentageName;
    if cfg.countName in r.limits {
      assert Reads(cfg, 0) && Reads(cfg, 1) && Reads(cfg, 2);
      assert cfg.percentageName != "" ==> Reads(cfg, 3);
      var a, b := r.limits - {cfg.countName}, r.limits - gone - {cfg.countName};
      CoreReads(cfg, ctx, a, b);
      var c := if cfg.coreName in a then a - {cfg.coreName} else a;
      var d := if cfg.coreName in b then b - {cfg.coreName} else b;
      assert cfg.memoryName in c <==> cfg.memoryName in d;
      forall core ensures MemoryCapacity(cfg, c, core) == MemoryCapacity(cfg, d, core) {
        MemoryReads(cfg, c, d, core);
      }
      var x := if cfg.memoryName in c then c - {cfg.memoryName} else c;
      var y := if cfg.memoryName in d then d - {cfg.memoryName} else d;
      assert UsesPercentage(cfg, x) <==> UsesPercentage(cfg, y);
      assert UsesPercentage(cfg, x) ==> x[cfg.percentageName] == y[cfg.percentageName];
    }
  }

  /** No limit is read by two requested configs; one config may read it in two places. */
  ghost predicate ReadApart(cfgs: seq<DeviceConfig>, limits: map<string, int>) {
    forall i, j, k, l |
      && ReadsLimit(cfgs, limits, i, k) && ReadsLimit(cfgs, limits, j, l)
      && cfgs[i].Names()[k] == cfgs[j].Names()[l]
      :: i == j
  }

  lemma ReadNotTaken(cfgs: seq<DeviceConfig>, limits: map<string, int>, j: nat)
    requires ReadApart(cfgs, limits) && j < |cfgs| && cfgs[j].countName in limits
    ensures forall k | 0 <= k < 4 && Reads(cfgs[j], k) ::
      cfgs[j].Names()[k] in limits ==> cfgs[j].Names()[k] !in TakenBy(cfgs[..j], limits)
  {
    forall k | 0 <= k < 4 && Reads(cfgs[j], k) && cfgs[j].Names()[k] in limits
      ensures cfgs[j].Names()[k] !in TakenBy(cfgs[..j], limits)
    {
      var x := cfgs[j].Names()[k];
      assert ReadsLimit(cfgs, limits, j, k);
      forall c | c in cfgs[..j] ensures x !in Taken(c, limits) {
        var i :| 0 <= i < j && cfgs[i] == c;
        forall l | 0 <= l < 4 && Reads(c, l) && c.countName in limits ensures c.Names()[l] != x {
          assert c.Names()[l] == x ==> ReadsLimit(cfgs, limits, i, l);
        }
      }
    }
  }

  lemma ReadApartKeepsCounts(cfgs: seq<DeviceConfig>, limits: map<string, int>)
    requires ReadApart(cfgs, limits)
    ensures CountsKept(cfgs, limits)
  {
    hide ReadApart, TakenBy;
    forall j | 0 <= j < |cfgs| && cfgs[j].countName in limits
      ensures cfgs[j].countName !in TakenBy(cfgs[..j], limits)
    {
      ReadNotTaken(cfgs, limits, j);
      assert Reads(cfgs[j], 0) && cfgs[j].Names()[0] == cfgs[j].countName;
    }
  }

  /** Then every config converts as it would alone. */
  lemma AsAlone(cfgs: seq<DeviceConfig>, ctx: Context, r: Resources, j: nat)
    requires ReadApart(cfgs, r.limits) && j < |cfgs|
    ensures SameTurn(TurnAt(cfgs, ctx, r, j), TurnOf(cfgs[j], ctx, r))
  {
    hide ReadApart, TakenBy, TurnOf;
    if cfgs[j].countName in r.limits { ReadNotTaken(cfgs, r.limits, j); }
    TurnLocal(cfgs[j], ctx, r, TakenBy(cfgs[..j], r.limits));
  }

  predicate SameEntries(a: seq<Entry>, b: seq<Entry>) {
    forall e | e in a + b :: e in a && e in b
  }

  /** The same claims, and the same resources left. */
  predicate SameOutcome(a: Result<Conversion>, b: Result<Conversion>) {
    && (a.Success? <==> b.Success?)
    && (a.Success? ==> a.value.rest == b.value.rest && SameEntries(a.value.entries, b.value.entries))
  }

  lemma MadeAsAlone(cfgs: seq<DeviceConfig>, ctx: Context, naming: DeviceConfig -> string, r: Resources, e: Entry)
    requires ReadApart(cfgs, r.limits)
    ensures MadeBy(cfgs, ctx, naming, r, e) <==>
      exists c | c in cfgs :: TurnOf(c, ctx, r).Converted? && e == Entry(naming(c), TurnOf(c, ctx, r).request)
  {
    hide TurnOf, TurnAt, ReadApart;
    forall j: nat | j < |cfgs| ensures SameTurn(TurnAt(cfgs, ctx, r, j), TurnOf(cfgs[j], ctx, r)) {
      AsAlone(cfgs, ctx, r, j);
    }
    if c :| c in cfgs && TurnOf(c, ctx, r).Converted? && e == Entry(naming(c), TurnOf(c, ctx, r).request) {
      var j: nat :| j < |cfgs| && cfgs[j] == c;
      assert MadeAt(cfgs, ctx, naming, r, e, j);
    }
  }

  /** Any two orders of the configs create the same claims and leave the same resources. */
  lemma OrderIrrelevant(cfgs: seq<DeviceConfig>, other: seq<DeviceConfig>, ctx: Context,
                        naming: DeviceConfig -> string, r: Resources)
    requires ReadApart(cfgs, r.limits) && ReadApart(other, r.limits)
    requires forall c :: c in cfgs <==> c in other
    ensures SameOutcome(Convert(cfgs, ctx, naming, r), Convert(other, ctx, naming, r))
  {
    hide ReadApart, Convert, TurnOf, TurnAt, Taken, MadeBy;
    ReadApartKeepsCounts(cfgs, r.limits);
    ReadApartKeepsCounts(other, r.limits);
    ConvertMeaning(cfgs, ctx, naming, r);
    ConvertMeaning(other, ctx, naming, r);
    forall j: nat | j < |cfgs| ensures SameTurn(TurnAt(cfgs, ctx, r, j), TurnOf(cfgs[j], ctx, r)) {
      AsAlone(cfgs, ctx, r, j);
    }
    forall j: nat | j < |other| ensures SameTurn(TurnAt(other, ctx, r, j), TurnOf(other[j], ctx, r)) {
      AsAlone(other, ctx, r, j);
    }
    assert forall j | 0 <= j < |cfgs| :: cfgs[j] in other;
    assert forall j | 0 <= j < |other| :: other[j] in cfgs;
    var a, b := Convert(cfgs, ctx, naming, r), Convert(other, ctx, naming, r);
    if a.Success? && b.Success? {
      ConvertLeaves(cfgs, ctx, naming, r);
      ConvertLeaves(other, ctx, naming, r);
      assert TakenBy(cfgs, r.limits) == TakenBy(other, r.limits);
      forall e ensures e in a.value.entries <==> e in b.value.entries {
        MadeAsAlone(cfgs, ctx, naming, r, e);
        MadeAsAlone(other, ctx, naming, r, e);
      }
    }
  }

  /******* The empty name *******/

  /** The empty name is the memory or core name of one requested place at most. */
  ghost predicate EmptyReadOnce(cfgs: seq<DeviceConfig>, limits: map<string, int>) {
    forall i, j, k, l |
      && ReadsLimit(cfgs, limits, i, k) && cfgs[i].Names()[k] == ""
      && ReadsLimit(cfgs, limits, j, l) && cfgs[j].Names()[l] == ""
      :: i == j && k == l
  }

  /** Among resolved configs only a limit with the empty name can be read twice. */
  lemma ResolvedUsedOnceIff(cfgs: seq<DeviceConfig>, limits: map<string, int>)
    requires NamesDistinct(cfgs)
    ensures UsedOnce(cfgs, limits) <==> EmptyReadOnce(cfgs, limits)
    ensures "" !in limits ==> UsedOnce(cfgs, limits)
  {
    forall i, j, k, l |
      && ReadsLimit(cfgs, limits, i, k) && ReadsLimit(cfgs, limits, j, l)
      && cfgs[i].Names()[k] == cfgs[j].Names()[l] && cfgs[i].Names()[k] != ""
      ensures i == j && k == l
    {
    }
  }

  /** A request for one device with some capacities. */
  function PlainRequest(cfg: DeviceConfig, capacity: map<string, int>): Request {
    Exactly(cfg.requestName, cfg.EffectiveClassName(), [TypeSelector(cfg)], 1, capacity)
  }

  /** Two configs that both read the empty name: whichever comes first takes the memory. */
  lemma EmptyNameExample(a: DeviceConfig, b: DeviceConfig, naming: DeviceConfig -> string)
    requires a.Names() == ["b", "", "n", ""] && b.Names() == ["x", "", "z", ""] && naming(a) != naming(b)
    ensures var ctx := Context(map[], None);
            var r := Resources(map["b" := 1, "x" := 1, "" := 5], map[]);
            var ab, ba := Convert([a, b], ctx, naming, r), Convert([b, a], ctx, naming, r);
            && ab.Success? && ba.Success?
            && !(forall e :: e in ab.value.entries <==> e in ba.value.entries)
  {
    hide TurnOf, Convert;
    var ctx := Context(map[], None);
    var r := Resources(map["b" := 1, "x" := 1, "" := 5], map[]);
    var rest := r.Without({"", "b"});
    var rest' := r.Without({"", "x"});
    assert a.countName == a.Names()[0] && a.memoryName == a.Names()[1] && a.coreName == a.Names()[2];
    assert b.countName == b.Names()[0] && b.memoryName == b.Names()[1] && b.coreName == b.Names()[2];
    assert a.percentageName == a.Names()[3] && b.percentageName == b.Names()[3];
    EmptyTurn(a, "b", r);
    EmptyTurn(b, "x", r);
    MissingTurn(b, "x", None, rest);
    MissingTurn(a, "b", None, rest');
    TwoClaims(a, b, ctx, naming, r);
    TwoClaims(b, a, ctx, naming, r);
    var with, without := PlainRequest(a, map["memory" := 5 * MIB]), PlainRequest(a, map[]);
    assert "memory" in with.capacity && "memory" !in without.capacity;
    var ab, ba := Convert([a, b], ctx, naming, r).value.entries, Convert([b, a], ctx, naming, r).value.entries;
    assert ab[0] == Entry(naming(a), with) && ba[0].name == naming(b) && ba[1] == Entry(naming(a), without);
    assert Entry(naming(a), with) in ab && Entry(naming(a), with) !in ba;
  }

  lemma TwoClaims(a: DeviceConfig, b: DeviceConfig, ctx: Context, naming: DeviceConfig -> string, r: Resources)
    requires TurnOf(a, ctx, r).Converted? && TurnOf(b, ctx, TurnOf(a, ctx, r).rest).Converted?
    ensures Convert([a, b], ctx, naming, r).Success?
    ensures Convert([a, b], ctx, naming, r).value.entries ==
            [Entry(naming(a), TurnOf(a, ctx, r).request),
             Entry(naming(b), TurnOf(b, ctx, TurnOf(a, ctx, r).rest).request)]
  {
    hide TurnOf, Convert;
    assert [a, b][..0] == [] && [a, b][..2] == [a, b];
    ConvertNone(ctx, naming, r);
    ConvertOne([a, b], ctx, naming, r, 0);
    ConvertOne([a, b], ctx, naming, r, 1);
  }

  /** A requested config takes the memory limit under the empty name. */
  lemma EmptyTurn(cfg: DeviceConfig, count: string, r: Resources)
    requires cfg.countName == count && cfg.memoryName == "" == cfg.percentageName
    requires cfg.coreName !in r.limits && count != ""
    requires count in r.limits && r.limits[count] == 1 && "" in r.limits && r.limits[""] == 5
    ensures TurnOf(cfg, Context(map[], None), r) ==
      Converted(r.Without({"", count}), PlainRequest(cfg, map["memory" := 5 * MIB]))
  {
    hide AnnotationSelectors, ConvertMemory, TypeSelector;
    NoAnnotations(cfg);
    assert ConvertMemory(5) == Success(5 * MIB);
    var counted := r.Without({count});
    assert counted.Without({""}) == r.Without({"", count}) by {
      WithoutTwice(r, {count}, {""});
      assert {count} + {""} == {"", count};
    }
    assert PrimaryRequest(cfg).selectors + [] == PrimaryRequest(cfg).selectors;
  }

  /** Without it the claim asks for no memory. */
  lemma MissingTurn(cfg: DeviceConfig, count: string, slices: Option<seq<DriverSlice>>, r: Resources)
    requires cfg.countName == count && cfg.memoryName !in r.limits && cfg.percentageName == ""
    requires cfg.coreName !in r.limits && count in r.limits && r.limits[count] == 1
    ensures TurnOf(cfg, Context(map[], slices), r) == Converted(r.Without({count}), PlainRequest(cfg, map[]))
  {
    hide AnnotationSelectors, TypeSelector;
    NoAnnotations(cfg);
    assert PrimaryRequest(cfg).selectors + [] == PrimaryRequest(cfg).selectors;
  }

  /******* A container that asks for one device *******/

  /** With nothing but a count, resolved configs make the claim of the config that is asked for. */
  lemma CountOnly(cfgs: seq<DeviceConfig>, slices: Option<seq<DriverSlice>>, naming: DeviceConfig -> string,
                  r: Resources, j: nat)
    requires Admissible(cfgs) && j < |cfgs| && r.limits == map[cfgs[j].countName := 1]
    ensures var c := Convert(cfgs, Context(map[], slices), naming, r);
            c.Success? && exists e :: e in c.value.entries && e.name == naming(cfgs[j])
  {
    hide Convert, UsedOnce, WantedEntries, Wanted, TakenBy;
    var ctx := Context(map[], slices);
    ResolvedUsedOnceIff(cfgs, r.limits);
    ConvertAtOnce(cfgs, ctx, naming, r);
    WantedMeaning(cfgs, ctx, naming, r.limits);
    OneAsked(cfgs, ctx, r.limits, j);
    var e := Entry(naming(cfgs[j]), Wanted(cfgs[j], ctx, r.limits).value);
    assert cfgs[j] in cfgs;
    assert e in WantedEntries(cfgs, ctx, naming, r.limits).value;
  }

  lemma OneAsked(cfgs: seq<DeviceConfig>, ctx: Context, limits: map<string, int>, j: nat)
    requires Admissible(cfgs) && j < |cfgs| && limits == map[cfgs[j].countName := 1] && ctx.annotations == map[]
    ensures forall c | c in cfgs && c.countName in limits :: c == cfgs[j]
    ensures Wanted(cfgs[j], ctx, limits).Success?
  {
    hide Wanted;
    var cfg := cfgs[j];
    assert cfg.Names()[0] == cfg.countName && cfg.Names()[1] == cfg.memoryName;
    assert cfg.Names()[2] == cfg.coreName && cfg.Names()[3] == cfg.percentageName;
    forall c | c in cfgs && c.countName in limits ensures c == cfg {
      var i: nat :| i < |cfgs| && cfgs[i] == c;
      assert cfgs[i].Names()[0] == cfgs[j].Names()[0] != "";
    }
    WantedIff(cfg, ctx, limits);
  }

  /******* When the order matters *******/

  /** A requested config reads the limit with the empty name. */
  predicate ReadsEmpty(cfg: DeviceConfig, limits: map<string, int>) {
    cfg.countName in limits && "" in limits && (cfg.memoryName == "" || cfg.coreName == "")
  }

  /** At most one requested config does. */
  predicate OneEmptyReader(cfgs: seq<DeviceConfig>, limits: map<string, int>) {
    forall c, d | c in cfgs && d in cfgs && ReadsEmpty(c, limits) && ReadsEmpty(d, limits) :: c == d
  }

  lemma AdmissibleReadApart(cfgs: seq<DeviceConfig>, limits: map<string, int>)
    requires Admissible(cfgs) && OneEmptyReader(cfgs, limits)
    ensures ReadApart(cfgs, limits)
  {
    forall i, j, k, l |
      && ReadsLimit(cfgs, limits, i, k) && ReadsLimit(cfgs, limits, j, l)
      && cfgs[i].Names()[k] == cfgs[j].Names()[l]
      ensures i == j
    {
      if cfgs[i].Names()[k] == "" {
        assert cfgs[i] in cfgs && cfgs[j] in cfgs;
        assert ReadsEmpty(cfgs[i], limits) && ReadsEmpty(cfgs[j], limits);
        assert cfgs[i].Names()[0] == cfgs[j].Names()[0] != "";
      }
    }
  }

  /** The capacity of the cores has a name of its own. */
  predicate CoresNamed(cfgs: seq<DeviceConfig>) {
    forall c | c in cfgs :: c.EffectiveCoreCapacity() != "memory"
  }

  lemma {:induction false} ResolvedCoresNamed(c: Config, vendors: seq<string>)
    ensures CoresNamed(AllConfigs(c, vendors))
  {
    if vendors != [] {
      ResolvedCoresNamed(c, vendors[..|vendors| - 1]);
      AscendCoresNamed(c.ascend, Chips(c.ascend));
    }
  }

  lemma {:induction false} AscendCoresNamed(c: AscendConfig, chips: seq<Chip>)
    ensures CoresNamed(AscendDevices(c, chips))
  {
    if chips != [] { AscendCoresNamed(c, chips[..|chips| - 1]); }
  }

  predicate AsksMemory(q: Request) {
    q.Exactly? && "memory" in q.capacity
  }

  predicate AsksCores(cfg: DeviceConfig, q: Request) {
    if q.Exactly? then cfg.EffectiveCoreCapacity() in q.capacity
    else q.subs != [] && cfg.EffectiveCoreCapacity() in q.subs[0].capacity
  }

  lemma FinishedShape(cfg: DeviceConfig, ctx: Context, count: int, capacity: map<string, int>, pct: Option<int>)
    requires cfg.EffectiveCoreCapacity() != "memory" && Finished(cfg, ctx, count, capacity, pct).Success?
    ensures var q := Finished(cfg, ctx, count, capacity, pct).value;
            && (AsksCores(cfg, q) <==> cfg.EffectiveCoreCapacity() in capacity)
            && (AsksMemory(q) <==> pct.None? && "memory" in capacity)
  {
    hide Sizes, AnnotationSelectors, Share;
  }

  lemma CapacityKeys(cfg: DeviceConfig, ctx: Context, a: map<string, int>, b: map<string, int>)
    requires CoreCapacity(cfg, ctx, a).Success?
    requires MemoryCapacity(cfg, b, CoreCapacity(cfg, ctx, a).value).Success?
    requires cfg.EffectiveCoreCapacity() != "memory"
    ensures var capacity := MemoryCapacity(cfg, b, CoreCapacity(cfg, ctx, a).value).value;
            && (cfg.EffectiveCoreCapacity() in capacity <==> cfg.coreName in a)
            && ("memory" in capacity <==> cfg.memoryName in b)
  {
    hide WithReference, ConvertCores, ConvertMemory;
  }

  /** One request for cores and one for memory show which limits were read at one stroke. */
  lemma WantedShape(cfg: DeviceConfig, ctx: Context, limits: map<string, int>)
    requires cfg.countName in limits && Wanted(cfg, ctx, limits).Success?
    requires cfg.EffectiveCoreCapacity() != "memory"
    ensures var q := Wanted(cfg, ctx, limits).value;
            && (AsksCores(cfg, q) <==> cfg.coreName in limits)
            && (AsksMemory(q) <==> cfg.memoryName in limits)
  {
    hide CoreCapacity, MemoryCapacity, Finished, AsksCores, AsksMemory;
    var capacity := MemoryCapacity(cfg, limits, CoreCapacity(cfg, ctx, limits).value).value;
    var percent := UsesPercentage(cfg, limits) && cfg.memoryName !in limits;
    var pct := if percent then Some(limits[cfg.percentageName]) else None;
    CapacityKeys(cfg, ctx, limits, limits);
    FinishedShape(cfg, ctx, limits[cfg.countName], capacity, pct);
  }

  /** And which were left to be read in a turn. */
  lemma TurnShape(cfg: DeviceConfig, ctx: Context, r: Resources)
    requires TurnOf(cfg, ctx, r).Converted? && cfg.EffectiveCoreCapacity() != "memory"
    ensures var q := TurnOf(cfg, ctx, r).request;
            && (AsksCores(cfg, q) <==> cfg.coreName in r.limits && cfg.coreName != cfg.countName)
            && (AsksMemory(q) <==>
                  cfg.memoryName in r.limits && cfg.memoryName != cfg.countName && cfg.memoryName != cfg.coreName)
  {
    hide CoreCapacity, MemoryCapacity, Finished, AsksCores, AsksMemory;
    var counted := r.Without({cfg.countName});
    var cored := WithoutIf(counted, cfg.coreName, cfg.coreName in counted.limits);
    var hasMemory := cfg.memoryName in cored.limits;
    var sized := WithoutIf(cored, cfg.memoryName, hasMemory);
    var percent := UsesPercentage(cfg, sized.limits);
    var pct := if percent && !hasMemory then Some(sized.limits[cfg.percentageName]) else None;
    var capacity := MemoryCapacity(cfg, cored.limits, CoreCapacity(cfg, ctx, counted.limits).value).value;
    CapacityKeys(cfg, ctx, counted.limits, cored.limits);
    FinishedShape(cfg, ctx, r.limits[cfg.countName], capacity, pct);
  }

  /** A limit with the empty name that is read twice gives other claims than at one stroke. */
  lemma {:induction false} AtOnceOnly(cfgs: seq<DeviceConfig>, ctx: Context, naming: DeviceConfig -> string,
                                      r: Resources)
    requires Admissible(cfgs) && CoresNamed(cfgs)
    requires Convert(cfgs, ctx, naming, r).Success? && WantedEntries(cfgs, ctx, naming, r.limits).Success?
    requires Convert(cfgs, ctx, naming, r).value.entries == WantedEntries(cfgs, ctx, naming, r.limits).value
    ensures EmptyReadOnce(cfgs, r.limits)
  {
    hide Admissible, TurnOf, Wanted, TakenBy, EmptyReadOnce;
    if cfgs == [] {
      NothingReadOnce(r.limits);
    } else {
      var n := |cfgs| - 1;
      var cfg, rest := cfgs[n], Convert(cfgs[..n], ctx, naming, r).value.rest;
      assert cfgs == cfgs[..n] + [cfg];
      AdmissiblePrefix(cfgs[..n], [cfg]);
      AdmissibleKeepsCounts(cfgs, r.limits);
      CountsKeptPrefix(cfgs, r.limits, n);
      ConvertLeaves(cfgs[..n], ctx, naming, r);
      var gone := TakenBy(cfgs[..n], r.limits);
      assert rest == r.Without(gone);
      if cfg.countName in r.limits {
        assert cfg.countName in rest.limits;
        RequestedTurn(cfg, ctx, rest);
        var a := Convert(cfgs[..n], ctx, naming, r).value.entries;
        var b := WantedEntries(cfgs[..n], ctx, naming, r.limits).value;
        var x := Entry(naming(cfg), TurnOf(cfg, ctx, rest).request);
        var y := Entry(naming(cfg), Wanted(cfg, ctx, r.limits).value);
        assert a + [x] == b + [y];
        assert a == (a + [x])[..|a|] && b == (b + [y])[..|b|] && (a + [x])[|a|] == x && (b + [y])[|b|] == y;
        AtOnceOnly(cfgs[..n], ctx, naming, r);
        TurnShape(cfg, ctx, rest);
        WantedShape(cfg, ctx, r.limits);
        LastReadsFresh(cfgs, r.limits);
      } else {
        NotAsked(cfg, ctx, rest);
        AtOnceOnly(cfgs[..n], ctx, naming, r);
        LastNotRequested(cfgs, r.limits);
      }
    }
  }

  lemma NothingReadOnce(limits: map<string, int>)
    ensures EmptyReadOnce([], limits)
  {
  }

  lemma LastNotRequested(cfgs: seq<DeviceConfig>, limits: map<string, int>)
    requires cfgs != [] && cfgs[|cfgs| - 1].countName !in limits && EmptyReadOnce(cfgs[..|cfgs| - 1], limits)
    ensures EmptyReadOnce(cfgs, limits)
  {
    var n := |cfgs| - 1;
    assert forall i, k | ReadsLimit(cfgs, limits, i, k) ::
      ReadsLimit(cfgs[..n], limits, i, k) && cfgs[..n][i] == cfgs[i];
  }

  /** The last config reads the empty name in one place at most, and only if no config before it took it. */
  lemma LastReadsFresh(cfgs: seq<DeviceConfig>, limits: map<string, int>)
    requires cfgs != [] && Admissible(cfgs) && EmptyReadOnce(cfgs[..|cfgs| - 1], limits)
    requires var n := |cfgs| - 1;
             var cfg, gone := cfgs[n], TakenBy(cfgs[..n], limits);
             && cfg.countName in limits
             && (cfg.coreName in limits ==> cfg.coreName in limits - gone && cfg.coreName != cfg.countName)
             && (cfg.memoryName in limits ==> cfg.memoryName in limits - gone && cfg.memoryName != cfg.coreName)
    ensures EmptyReadOnce(cfgs, limits)
  {
    var n := |cfgs| - 1;
    var cfg, gone := cfgs[n], TakenBy(cfgs[..n], limits);
    assert cfg.Names()[0] == cfg.countName && cfg.Names()[1] == cfg.memoryName;
    assert cfg.Names()[2] == cfg.coreName && cfg.Names()[3] == cfg.percentageName;
    forall i, k | i < n && ReadsLimit(cfgs, limits, i, k) && cfgs[i].Names()[k] == ""
      ensures ReadsLimit(cfgs[..n], limits, i, k) && cfgs[..n][i].Names()[k] == "" && "" in gone
    {
      assert cfgs[..n][i] == cfgs[i] && "" in Taken(cfgs[i], limits);
      assert cfgs[i] in cfgs[..n];
    }
    forall i, j, k, l |
      && ReadsLimit(cfgs, limits, i, k) && cfgs[i].Names()[k] == ""
      && ReadsLimit(cfgs, limits, j, l) && cfgs[j].Names()[l] == ""
      ensures i == j && k == l
    {
    }
  }

  /**
   For resolved configs the delete-as-you-go loop gives the claims of the original limits if and only if
   the limit with the empty name, if there is one, is read in one place at most.
   */
  lemma AtOnceIff(cfgs: seq<DeviceConfig>, ctx: Context, naming: DeviceConfig -> string, r: Resources)
    requires Admissible(cfgs) && CoresNamed(cfgs)
    requires WantedEntries(cfgs, ctx, naming, r.limits).Success?
    ensures Convert(cfgs, ctx, naming, r)
            == Success(Conversion(r.Without(TakenBy(cfgs, r.limits)), WantedEntries(cfgs, ctx, naming, r.limits).value))
            <==> EmptyReadOnce(cfgs, r.limits)
  {
    hide Convert, WantedEntries, EmptyReadOnce, TakenBy, UsedOnce, CoresNamed;
    ResolvedUsedOnceIff(cfgs, r.limits);
    if EmptyReadOnce(cfgs, r.limits) {
      ConvertAtOnce(cfgs, ctx, naming, r);
    }
    var c := Convert(cfgs, ctx, naming, r);
    if c.Success? && c.value.entries == WantedEntries(cfgs, ctx, naming, r.limits).value {
      AtOnceOnly(cfgs, ctx, naming, r);
    }
  }

  /** Different configs name their claims differently. */
  ghost predicate NamedApart(cfgs: seq<DeviceConfig>, naming: DeviceConfig -> string) {
    forall c, d | c in cfgs && d in cfgs && naming(c) == naming(d) :: c == d
  }

  /** Another order of the configs, if it is one, has the same outcome. */
  ghost predicate OrderAgrees(cfgs: seq<DeviceConfig>, other: seq<DeviceConfig>, ctx: Context,
                              naming: DeviceConfig -> string, r: Resources)
  {
    Admissible(other) && (forall c :: c in cfgs <==> c in other) ==>
      SameOutcome(Convert(cfgs, ctx, naming, r), Convert(other, ctx, naming, r))
  }

  /** The configs with config j moved to the front. */
  function MovedFirst(cfgs: seq<DeviceConfig>, j: nat): seq<DeviceConfig>
    requires j < |cfgs|
  {
    [cfgs[j]] + cfgs[..j] + cfgs[j + 1..]
  }

  /** Where entry k of the moved list comes from. */
  function MovedFrom(j: nat, k: nat): nat {
    if k == 0 then j else if k <= j then k - 1 else k
  }

  lemma MovedFirstAdmissible(cfgs: seq<DeviceConfig>, j: nat)
    requires Admissible(cfgs) && j < |cfgs|
    ensures Admissible(MovedFirst(cfgs, j))
    ensures forall c :: c in cfgs <==> c in MovedFirst(cfgs, j)
  {
    hide Admissible;
    var other := MovedFirst(cfgs, j);
    assert forall k: nat | k < |cfgs| :: MovedFrom(j, k) < |cfgs| && other[k] == cfgs[MovedFrom(j, k)];
    Reindexed(cfgs, other, j);
    forall c | c in cfgs ensures c in other {
      var i :| 0 <= i < |cfgs| && cfgs[i] == c;
      assert other[if i == j then 0 else if i < j then i + 1 else i] == c;
    }
  }

  lemma Reindexed(cfgs: seq<DeviceConfig>, other: seq<DeviceConfig>, j: nat)
    requires Admissible(cfgs) && |other| == |cfgs|
    requires forall k: nat | k < |cfgs| :: MovedFrom(j, k) < |cfgs| && other[k] == cfgs[MovedFrom(j, k)]
    ensures Admissible(other)
  {
    forall x: nat, y: nat, k, l | x < |other| && y < |other| && 0 <= k < 4 && 0 <= l < 4
      ensures other[x].Names()[k] != "" && other[x].Names()[k] == other[y].Names()[l] ==> x == y && k == l
    {
      assert other[x] == cfgs[MovedFrom(j, x)] && other[y] == cfgs[MovedFrom(j, y)];
    }
    forall x: nat, y: nat | x < y < |other| ensures other[x].Suffix() != other[y].Suffix() {
      assert other[x] == cfgs[MovedFrom(j, x)] && other[y] == cfgs[MovedFrom(j, y)];
    }
  }

  /** A config that reads the empty name asks for something else when another one took it before. */
  lemma EmptyShows(cfg: DeviceConfig, ctx: Context, r: Resources, gone: set<string>)
    requires ReadsEmpty(cfg, r.limits) && cfg.countName != "" && "" in gone
    requires cfg.EffectiveCoreCapacity() != "memory"
    ensures var a, b := TurnOf(cfg, ctx, r), TurnOf(cfg, ctx, r.Without(gone));
            a.Converted? && b.Converted? ==> a.request != b.request
  {
    hide TurnOf, AsksCores, AsksMemory;
    var a, b := TurnOf(cfg, ctx, r), TurnOf(cfg, ctx, r.Without(gone));
    if a.Converted? && b.Converted? {
      TurnShape(cfg, ctx, r);
      TurnShape(cfg, ctx, r.Without(gone));
    }
  }

  /** With two readers, the order that lets the second one read first has another outcome. */
  lemma ReadersDisagree(cfgs: seq<DeviceConfig>, ctx: Context, naming: DeviceConfig -> string, r: Resources,
                        i: nat, j: nat)
    requires Admissible(cfgs) && CoresNamed(cfgs) && NamedApart(cfgs, naming)
    requires Convert(cfgs, ctx, naming, r).Success?
    requires i < j < |cfgs| && ReadsEmpty(cfgs[i], r.limits) && ReadsEmpty(cfgs[j], r.limits)
    ensures !OrderAgrees(cfgs, MovedFirst(cfgs, j), ctx, naming, r)
  {
    var b := cfgs[j];
    assert cfgs[j].Names()[0] != "";
    EmptyTaken(cfgs, r.limits, i, j);
    hide Admissible, Convert, TurnOf, TakenBy, CountsKept, TurnAt, MovedFirst, SameOutcome, ReadsEmpty;
    var other := MovedFirst(cfgs, j);
    MovedFirstAdmissible(cfgs, j);
    MovedHead(cfgs, j);
    AdmissibleKeepsCounts(cfgs, r.limits);
    AdmissibleKeepsCounts(other, r.limits);
    ConvertMeaning(cfgs, ctx, naming, r);
    ConvertMeaning(other, ctx, naming, r);
    var first := TurnAt(other, ctx, r, 0);
    FirstTurn(other, ctx, r);
    RequestedTurn(b, ctx, r);
    EmptyShows(b, ctx, r, TakenBy(cfgs[..j], r.limits));
    TurnAtIs(cfgs, ctx, r, j);
    if Convert(other, ctx, naming, r).Success? {
      assert first != Refused;
      var e := Entry(naming(b), first.request);
      assert MadeAt(other, ctx, naming, r, e, 0);
      if e in Convert(cfgs, ctx, naming, r).value.entries {
        var k: nat :| k < |cfgs| && MadeAt(cfgs, ctx, naming, r, e, k);
        assert cfgs[k] in cfgs && b in cfgs;
        SamePlace(cfgs, k, j);
      }
      assert e !in Convert(cfgs, ctx, naming, r).value.entries;
      OutcomeHas(Convert(cfgs, ctx, naming, r), Convert(other, ctx, naming, r), e);
    } else {
      OutcomeFails(Convert(cfgs, ctx, naming, r), Convert(other, ctx, naming, r));
    }
  }

  lemma MovedHead(cfgs: seq<DeviceConfig>, j: nat)
    requires j < |cfgs|
    ensures |MovedFirst(cfgs, j)| == |cfgs| && MovedFirst(cfgs, j)[0] == cfgs[j]
  {
  }

  lemma TurnAtIs(cfgs: seq<DeviceConfig>, ctx: Context, r: Resources, j: nat)
    requires j < |cfgs|
    ensures TurnAt(cfgs, ctx, r, j) == TurnOf(cfgs[j], ctx, r.Without(TakenBy(cfgs[..j], r.limits)))
  {
    hide TurnOf;
  }

  lemma OutcomeHas(a: Result<Conversion>, b: Result<Conversion>, e: Entry)
    requires a.Success? && b.Success? && e !in a.value.entries && e in b.value.entries
    ensures !SameOutcome(a, b)
  {
    assert e in a.value.entries + b.value.entries;
  }

  lemma OutcomeFails(a: Result<Conversion>, b: Result<Conversion>)
    requires a.Success? && b.Failure?
    ensures !SameOutcome(a, b)
  {
  }

  lemma FirstTurn(cfgs: seq<DeviceConfig>, ctx: Context, r: Resources)
    requires cfgs != []
    ensures TurnAt(cfgs, ctx, r, 0) == TurnOf(cfgs[0], ctx, r)
  {
    hide TurnOf;
    assert cfgs[..0] == [];
    NothingTakenBy(r.limits);
    assert r.limits - {} == r.limits && r.requests - {} == r.requests;
  }

  lemma SamePlace(cfgs: seq<DeviceConfig>, k: nat, j: nat)
    requires Admissible(cfgs) && k < |cfgs| && j < |cfgs| && cfgs[k] == cfgs[j]
    ensures k == j
  {
    assert cfgs[k].Names()[0] == cfgs[j].Names()[0] != "";
  }

  lemma EmptyTaken(cfgs: seq<DeviceConfig>, limits: map<string, int>, i: nat, j: nat)
    requires i < j < |cfgs| && ReadsEmpty(cfgs[i], limits)
    ensures "" in TakenBy(cfgs[..j], limits)
  {
    TakenNames(cfgs[i], limits);
    assert cfgs[..j][i] == cfgs[i];
  }

  /**
   For resolved configs that name their claims differently, the outcome of a successful conversion is
   that of every other order of the configs if and only if at most one requested config reads the limit
   with the empty name.
   */
  lemma OrderIff(cfgs: seq<DeviceConfig>, ctx: Context, naming: DeviceConfig -> string, r: Resources)
    requires Admissible(cfgs) && CoresNamed(cfgs) && NamedApart(cfgs, naming)
    requires Convert(cfgs, ctx, naming, r).Success?
    ensures (forall other :: OrderAgrees(cfgs, other, ctx, naming, r)) <==> OneEmptyReader(cfgs, r.limits)
  {
    hide Admissible, Convert, NamedApart, CoresNamed, ReadsEmpty;
    if OneEmptyReader(cfgs, r.limits) {
      AdmissibleReadApart(cfgs, r.limits);
      forall other ensures OrderAgrees(cfgs, other, ctx, naming, r) {
        if Admissible(other) && forall c :: c in cfgs <==> c in other {
          AdmissibleReadApart(other, r.limits);
          OrderIrrelevant(cfgs, other, ctx, naming, r);
        }
      }
    } else {
      var c, d :| c in cfgs && d in cfgs && ReadsEmpty(c, r.limits) && ReadsEmpty(d, r.limits) && c != d;
      var i: nat :| i < |cfgs| && cfgs[i] == c;
      var j: nat :| j < |cfgs| && cfgs[j] == d;
      if i < j {
        ReadersDisagree(cfgs, ctx, naming, r, i, j);
      } else {
        ReadersDisagree(cfgs, ctx, naming, r, j, i);
      }
    }
  }
}
