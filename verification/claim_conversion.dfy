/** Translating the resource limits of containers into claims, config by config and at one stroke. */
module ClaimConversion {
  import opened Options
  import opened DeviceConfigs
  import opened AnnotationValues
  import opened Selectors
  import opened Capacities
  import opened ObjectStore

  /** The limits and requests of a container. */
  datatype Resources = Resources(limits: map<string, int>, requests: map<string, int>)
  {
    function Without(names: set<string>): Resources {
      Resources(limits - names, requests - names)
    }
  }

  /** What a claim depends on beside its container: the pod annotations and the published slices. */
  datatype Context = Context(annotations: map<string, string>, slices: Option<seq<DriverSlice>>)

  /******* The parts of a request *******/

  ghost function CoreCapacity(cfg: DeviceConfig, ctx: Context, limits: map<string, int>): Result<map<string, int>> {
    if cfg.coreName !in limits then Success(map[]) else
      match WithReference(cfg, ctx.slices)
      case Failure => Failure
      case Success(coreCfg) =>
        match ConvertCores(coreCfg, limits[cfg.coreName])
        case Failure => Failure
        case Success(units) => Success(map[cfg.EffectiveCoreCapacity() := units])
  }

  function MemoryCapacity(cfg: DeviceConfig, limits: map<string, int>, capacity: map<string, int>)
    : Result<map<string, int>>
  {
    if cfg.memoryName !in limits then Success(capacity) else
      match ConvertMemory(limits[cfg.memoryName])
      case Failure => Failure
      case Success(bytes) => Success(capacity["memory" := bytes])
  }

  /** The request with annotation selectors, sized by a memory percentage if there is one. */
  ghost function Finished(cfg: DeviceConfig, ctx: Context, count: int, capacity: map<string, int>, pct: Option<int>)
    : Result<Request>
  {
    match AnnotationSelectors(cfg, ctx.annotations)
    case Failure => Failure
    case Success(selectors) =>
      var primary := PrimaryRequest(cfg);
      var request := primary.(selectors := primary.selectors + selectors, count := count, capacity := capacity);
      if pct.Some? then PercentageRequest(request, cfg, pct.value, ctx.slices) else Success(request)
  }

  predicate UsesPercentage(cfg: DeviceConfig, limits: map<string, int>) {
    cfg.percentageName != "" && cfg.percentageName in limits
  }

  /******* Config by config *******/

  datatype Turn = Skipped | Refused | Converted(rest: Resources, request: Request)

  function WithoutIf(r: Resources, name: string, removed: bool): Resources {
    if removed then r.Without({name}) else r
  }

  /** One config's turn; each name is removed from limits and requests as it is converted. */
  ghost function TurnOf(cfg: DeviceConfig, ctx: Context, r: Resources): Turn {
    if cfg.countName !in r.limits then Skipped else
      var counted := r.Without({cfg.countName});
      match CoreCapacity(cfg, ctx, counted.limits)
      case Failure => Refused
      case Success(core) =>
        var cored := WithoutIf(counted, cfg.coreName, cfg.coreName in counted.limits);
        match MemoryCapacity(cfg, cored.limits, core)
        case Failure => Refused
        case Success(capacity) =>
          var hasMemory := cfg.memoryName in cored.limits;
          var sized := WithoutIf(cored, cfg.memoryName, hasMemory);
          var percent := UsesPercentage(cfg, sized.limits);
          var pct := if percent && !hasMemory then Some(sized.limits[cfg.percentageName]) else None;
          match Finished(cfg, ctx, r.limits[cfg.countName], capacity, pct)
          case Failure => Refused
          case Success(request) => Converted(WithoutIf(sized, cfg.percentageName, percent), request)
  }

  datatype Conversion = Conversion(rest: Resources, entries: seq<Entry>)

  /** All configs in turn, each on what the ones before it left. */
  ghost function Convert(cfgs: seq<DeviceConfig>, ctx: Context, naming: DeviceConfig -> string, r: Resources)
    : Result<Conversion>
  {
    if cfgs == [] then Success(Conversion(r, []))
    else
      var n := |cfgs| - 1;
      match Convert(cfgs[..n], ctx, naming, r)
      case Failure => Failure
      case Success(c) =>
        match TurnOf(cfgs[n], ctx, c.rest)
        case Skipped => Success(c)
        case Refused => Failure
        case Converted(rest, request) => Success(Conversion(rest, c.entries + [Entry(naming(cfgs[n]), request)]))
  }

  lemma ConvertNone(ctx: Context, naming: DeviceConfig -> string, r: Resources)
    ensures Convert([], ctx, naming, r) == Success(Conversion(r, []))
  {
  }

  /** One more config. */
  lemma ConvertOne(cfgs: seq<DeviceConfig>, ctx: Context, naming: DeviceConfig -> string, r: Resources, j: nat)
    requires j < |cfgs| && Convert(cfgs[..j], ctx, naming, r).Success?
    ensures var c := Convert(cfgs[..j], ctx, naming, r).value;
            Convert(cfgs[..j + 1], ctx, naming, r) ==
              match TurnOf(cfgs[j], ctx, c.rest) {
                case Skipped => Success(c)
                case Refused => Failure
                case Converted(rest, request) =>
                  Success(Conversion(rest, c.entries + [Entry(naming(cfgs[j]), request)]))
              }
  {
    hide TurnOf;
    assert cfgs[..j + 1][..j] == cfgs[..j];
  }

  lemma ConvertPrefix(cfgs: seq<DeviceConfig>, ctx: Context, naming: DeviceConfig -> string, r: Resources, i: nat)
    requires i <= |cfgs| && Convert(cfgs, ctx, naming, r).Success?
    ensures Convert(cfgs[..i], ctx, naming, r).Success?
    ensures Convert(cfgs[..i], ctx, naming, r).value.entries <= Convert(cfgs, ctx, naming, r).value.entries
  {
    hide TurnOf;
    if i < |cfgs| {
      var n := |cfgs| - 1;
      assert cfgs[..n][..i] == cfgs[..i];
      ConvertPrefix(cfgs[..n], ctx, naming, r, i);
    } else {
      assert cfgs[..i] == cfgs;
    }
  }

  /******* At one stroke *******/

  /** The request one config asks for, from the original limits alone. */
  ghost function Wanted(cfg: DeviceConfig, ctx: Context, limits: map<string, int>): Result<Request>
    requires cfg.countName in limits
  {
    match CoreCapacity(cfg, ctx, limits)
    case Failure => Failure
    case Success(core) =>
      match MemoryCapacity(cfg, limits, core)
      case Failure => Failure
      case Success(capacity) =>
        var percent := UsesPercentage(cfg, limits) && cfg.memoryName !in limits;
        var pct := if percent then Some(limits[cfg.percentageName]) else None;
        Finished(cfg, ctx, limits[cfg.countName], capacity, pct)
  }

  /** A config reads the limit of every name it has in place k, a percentage only under a nonempty name. */
  predicate Reads(cfg: DeviceConfig, k: nat) {
    k < 3 || (k == 3 && cfg.percentageName != "")
  }

  /** The names a config takes out of the limits. */
  function Taken(cfg: DeviceConfig, limits: map<string, int>): set<string> {
    if cfg.countName !in limits then {}
    else set k | 0 <= k < 4 && Reads(cfg, k) && cfg.Names()[k] in limits :: cfg.Names()[k]
  }

  function TakenBy(cfgs: seq<DeviceConfig>, limits: map<string, int>): set<string> {
    set c, x | c in cfgs && x in Taken(c, limits) :: x
  }

  /** The claims of all requested configs, from the original limits alone. */
  ghost function WantedEntries(cfgs: seq<DeviceConfig>, ctx: Context, naming: DeviceConfig -> string,
                               limits: map<string, int>)
    : Result<seq<Entry>>
  {
    if cfgs == [] then Success([])
    else
      var n := |cfgs| - 1;
      match WantedEntries(cfgs[..n], ctx, naming, limits)
      case Failure => Failure
      case Success(entries) =>
        if cfgs[n].countName !in limits then Success(entries) else
          match Wanted(cfgs[n], ctx, limits)
          case Failure => Failure
          case Success(request) => Success(entries + [Entry(naming(cfgs[n]), request)])
  }

  predicate ReadsLimit(cfgs: seq<DeviceConfig>, limits: map<string, int>, i: int, k: int) {
    && 0 <= i < |cfgs| && 0 <= k < 4
    && cfgs[i].countName in limits && Reads(cfgs[i], k) && cfgs[i].Names()[k] in limits
  }

  /** Every limit is read in one place of one config at most, among the configs whose count is asked for. */
  ghost predicate UsedOnce(cfgs: seq<DeviceConfig>, limits: map<string, int>) {
    forall i, j, k, l |
      && ReadsLimit(cfgs, limits, i, k) && ReadsLimit(cfgs, limits, j, l)
      && cfgs[i].Names()[k] == cfgs[j].Names()[l]
      :: i == j && k == l
  }

  /** Removing names as they are converted gives the same request as reading all of them first. */
  lemma TurnAtOnce(cfg: DeviceConfig, ctx: Context, r: Resources)
    requires cfg.countName in r.limits && UsedOnce([cfg], r.limits)
    ensures TurnOf(cfg, ctx, r) ==
      match Wanted(cfg, ctx, r.limits) {
        case Failure => Refused
        case Success(request) => Converted(r.Without(Taken(cfg, r.limits)), request)
      }
  {
    hide CoreCapacity, MemoryCapacity, Finished, Taken, UsedOnce;
    var limits := r.limits;
    OwnNamesApart(cfg, limits);
    var counted := r.Without({cfg.countName});
    CoreReads(cfg, ctx, counted.limits, limits);
    var cored := WithoutIf(counted, cfg.coreName, cfg.coreName in limits);
    assert cored.limits == limits - {cfg.countName, cfg.coreName};
    assert cfg.memoryName in limits ==>
        cfg.memoryName in cored.limits && cored.limits[cfg.memoryName] == limits[cfg.memoryName];
    forall core ensures MemoryCapacity(cfg, cored.limits, core) == MemoryCapacity(cfg, limits, core) {
      MemoryReads(cfg, cored.limits, limits, core);
    }
    var sized := WithoutIf(cored, cfg.memoryName, cfg.memoryName in limits);
    assert sized.limits == limits - {cfg.countName, cfg.coreName, cfg.memoryName};
    assert UsesPercentage(cfg, sized.limits) <==> UsesPercentage(cfg, limits);
    TurnLeaves(cfg, ctx, r);
  }

  lemma CoreReads(cfg: DeviceConfig, ctx: Context, a: map<string, int>, b: map<string, int>)
    requires cfg.coreName in a <==> cfg.coreName in b
    requires cfg.coreName in a ==> a[cfg.coreName] == b[cfg.coreName]
    ensures CoreCapacity(cfg, ctx, a) == CoreCapacity(cfg, ctx, b)
  {
    hide WithReference, ConvertCores;
  }

  lemma MemoryReads(cfg: DeviceConfig, a: map<string, int>, b: map<string, int>, capacity: map<string, int>)
    requires cfg.memoryName in a <==> cfg.memoryName in b
    requires cfg.memoryName in a ==> a[cfg.memoryName] == b[cfg.memoryName]
    ensures MemoryCapacity(cfg, a, capacity) == MemoryCapacity(cfg, b, capacity)
  {
  }

  /** Whatever the names, a turn that succeeds leaves the resources without the names it takes. */
  lemma TurnLeaves(cfg: DeviceConfig, ctx: Context, r: Resources)
    ensures TurnOf(cfg, ctx, r).Converted? ==> TurnOf(cfg, ctx, r).rest == r.Without(Taken(cfg, r.limits))
  {
    hide Taken, CoreCapacity, MemoryCapacity, Finished, WithoutIf;
    if TurnOf(cfg, ctx, r).Converted? {
      TakenNames(cfg, r.limits);
      var one := {cfg.countName};
      var cored := cfg.coreName in (r.limits - one);
      var two := one + if cored then {cfg.coreName} else {};
      AlsoWithout(r, one, cfg.coreName, cored);
      var sized := cfg.memoryName in (r.limits - two);
      var three := two + if sized then {cfg.memoryName} else {};
      AlsoWithout(r, two, cfg.memoryName, sized);
      var percent := UsesPercentage(cfg, r.limits - three);
      AlsoWithout(r, three, cfg.percentageName, percent);
      assert Taken(cfg, r.limits) == three + if percent then {cfg.percentageName} else {};
    }
  }

  lemma AlsoWithout(r: Resources, names: set<string>, name: string, removed: bool)
    ensures WithoutIf(r.Without(names), name, removed) == r.Without(names + if removed then {name} else {})
  {
    if removed {
      assert r.limits - names - {name} == r.limits - (names + {name});
      assert r.requests - names - {name} == r.requests - (names + {name});
    } else {
      assert names + {} == names;
    }
  }

  lemma OwnNamesApart(cfg: DeviceConfig, limits: map<string, int>)
    requires cfg.countName in limits && UsedOnce([cfg], limits)
    ensures cfg.countName != cfg.memoryName && cfg.countName != cfg.coreName
    ensures cfg.memoryName in limits ==> cfg.memoryName != cfg.coreName
    ensures cfg.percentageName != "" && cfg.percentageName in limits ==>
      cfg.percentageName !in [cfg.countName, cfg.memoryName, cfg.coreName]
  {
    assert cfg.Names()[0] == cfg.countName && cfg.Names()[1] == cfg.memoryName;
    assert cfg.Names()[2] == cfg.coreName && cfg.Names()[3] == cfg.percentageName;
    forall k, l | 0 <= k < 4 && 0 <= l < 4 && Reads(cfg, k) && Reads(cfg, l) && cfg.Names()[k] in limits && k != l
      ensures cfg.Names()[k] != cfg.Names()[l]
    {
      assert ReadsLimit([cfg], limits, 0, k);
      assert cfg.Names()[k] == cfg.Names()[l] ==> ReadsLimit([cfg], limits, 0, l);
    }
  }

  lemma TakenNames(cfg: DeviceConfig, limits: map<string, int>)
    requires cfg.countName in limits
    ensures forall x :: x in Taken(cfg, limits) <==>
      x in limits && (x == cfg.countName || x == cfg.memoryName || x == cfg.coreName || x == cfg.percentageName != "")
  {
    assert cfg.Names()[0] == cfg.countName && cfg.Names()[1] == cfg.memoryName;
    assert cfg.Names()[2] == cfg.coreName && cfg.Names()[3] == cfg.percentageName;
  }

  /** A config reads and takes only the limits with its own names. */
  lemma WantedReads(cfg: DeviceConfig, ctx: Context, a: map<string, int>, gone: set<string>)
    requires cfg.countName in a ==>
      forall k | 0 <= k < 4 && Reads(cfg, k) :: cfg.Names()[k] in a ==> cfg.Names()[k] !in gone
    ensures cfg.countName in a - gone <==> cfg.countName in a
    ensures Taken(cfg, a - gone) == Taken(cfg, a)
    ensures cfg.countName in a ==> Wanted(cfg, ctx, a - gone) == Wanted(cfg, ctx, a)
  {
    hide CoreCapacity, MemoryCapacity, Finished, Taken;
    assert cfg.Names()[0] == cfg.countName && cfg.Names()[1] == cfg.memoryName;
    assert cfg.Names()[2] == cfg.coreName && cfg.Names()[3] == cfg.percentageName;
    var b := a - gone;
    if cfg.countName in a {
      assert Reads(cfg, 0) && Reads(cfg, 1) && Reads(cfg, 2);
      assert cfg.percentageName != "" ==> Reads(cfg, 3);
      TakenNames(cfg, a);
      TakenNames(cfg, b);
      CoreReads(cfg, ctx, a, b);
      forall core ensures MemoryCapacity(cfg, a, core) == MemoryCapacity(cfg, b, core) {
        MemoryReads(cfg, a, b, core);
      }
    } else {
      NothingTaken(cfg, a);
      NothingTaken(cfg, b);
    }
  }

  lemma NothingTaken(cfg: DeviceConfig, limits: map<string, int>)
    requires cfg.countName !in limits
    ensures Taken(cfg, limits) == {}
  {
  }

  /** What the configs before the last one take is none of the limits the last one reads. */
  lemma TakenApart(cfgs: seq<DeviceConfig>, limits: map<string, int>)
    requires cfgs != [] && UsedOnce(cfgs, limits)
    ensures var n := |cfgs| - 1;
            && UsedOnce(cfgs[..n], limits) && UsedOnce([cfgs[n]], limits)
            && (cfgs[n].countName in limits ==> forall k | 0 <= k < 4 && Reads(cfgs[n], k) ::
                  cfgs[n].Names()[k] in limits ==> cfgs[n].Names()[k] !in TakenBy(cfgs[..n], limits))
  {
    var n := |cfgs| - 1;
    assert forall i | 0 <= i < n :: cfgs[..n][i] == cfgs[i];
    assert forall i, k | ReadsLimit(cfgs[..n], limits, i, k) :: ReadsLimit(cfgs, limits, i, k);
    assert forall k | ReadsLimit([cfgs[n]], limits, 0, k) :: ReadsLimit(cfgs, limits, n, k);
    if cfgs[n].countName in limits {
      forall k | 0 <= k < 4 && Reads(cfgs[n], k) && cfgs[n].Names()[k] in limits
        ensures cfgs[n].Names()[k] !in TakenBy(cfgs[..n], limits)
      {
        var x := cfgs[n].Names()[k];
        forall c | c in cfgs[..n] ensures x !in Taken(c, limits) {
          var i :| 0 <= i < n && cfgs[i] == c;
          assert ReadsLimit(cfgs, limits, n, k);
          forall l | 0 <= l < 4 && Reads(c, l) && c.countName in limits ensures c.Names()[l] != x {
            assert c.Names()[l] == x ==> ReadsLimit(cfgs, limits, i, l);
          }
        }
      }
    }
  }

  lemma TakenByMore(cfgs: seq<DeviceConfig>, cfg: DeviceConfig, limits: map<string, int>)
    ensures TakenBy(cfgs + [cfg], limits) == TakenBy(cfgs, limits) + Taken(cfg, limits)
  {
    hide Taken;
    forall x ensures x in TakenBy(cfgs + [cfg], limits) <==> x in TakenBy(cfgs, limits) || x in Taken(cfg, limits) {
      if x in TakenBy(cfgs, limits) {
        var c :| c in cfgs && x in Taken(c, limits);
        assert c in cfgs + [cfg];
      }
      if x in Taken(cfg, limits) { assert cfg in cfgs + [cfg]; }
    }
  }

  /**
   With every limit read once, converting config by config and deleting names on the way creates the
   claims that the original limits ask for, and leaves the original limits without the converted names.
   */
  lemma {:induction false} ConvertAtOnce(cfgs: seq<DeviceConfig>, ctx: Context, naming: DeviceConfig -> string,
                                         r: Resources)
    requires UsedOnce(cfgs, r.limits)
    ensures Convert(cfgs, ctx, naming, r) ==
      match WantedEntries(cfgs, ctx, naming, r.limits) {
        case Failure => Failure
        case Success(entries) => Success(Conversion(r.Without(TakenBy(cfgs, r.limits)), entries))
      }
  {
    hide UsedOnce, TurnOf, Wanted, Taken, TakenBy;
    if cfgs == [] {
      NothingTakenBy(r.limits);
      assert r.limits - {} == r.limits && r.requests - {} == r.requests;
    } else {
      var n := |cfgs| - 1;
      var cfg, gone := cfgs[n], TakenBy(cfgs[..n], r.limits);
      TakenApart(cfgs, r.limits);
      ConvertAtOnce(cfgs[..n], ctx, naming, r);
      assert cfgs == cfgs[..n] + [cfg];
      TakenByMore(cfgs[..n], cfg, r.limits);
      WantedReads(cfg, ctx, r.limits, gone);
      var rest := r.Without(gone);
      assert rest.limits == r.limits - gone;
      if cfg.countName in r.limits {
        UsedOnceLess([cfg], r.limits, gone);
        TurnAtOnce(cfg, ctx, rest);
        WithoutTwice(r, gone, Taken(cfg, r.limits));
      } else {
        NothingTaken(cfg, r.limits);
        assert TurnOf(cfg, ctx, rest) == Skipped by { NotAsked(cfg, ctx, rest); }
        assert gone + {} == gone;
      }
    }
  }

  lemma UsedOnceLess(cfgs: seq<DeviceConfig>, limits: map<string, int>, gone: set<string>)
    requires UsedOnce(cfgs, limits)
    ensures UsedOnce(cfgs, limits - gone)
  {
    assert forall i, k | ReadsLimit(cfgs, limits - gone, i, k) :: ReadsLimit(cfgs, limits, i, k);
  }

  lemma NothingTakenBy(limits: map<string, int>)
    ensures TakenBy([], limits) == {}
  {
  }

  lemma NotAsked(cfg: DeviceConfig, ctx: Context, r: Resources)
    requires cfg.countName !in r.limits
    ensures TurnOf(cfg, ctx, r) == Skipped
  {
  }

  lemma WithoutTwice(r: Resources, a: set<string>, b: set<string>)
    ensures r.Without(a).Without(b) == r.Without(a + b)
  {
    assert r.limits - a - b == r.limits - (a + b);
    assert r.requests - a - b == r.requests - (a + b);
  }

  /** The requested configs decide together whether there are claims, and which. */
  lemma {:induction false} WantedMeaning(cfgs: seq<DeviceConfig>, ctx: Context, naming: DeviceConfig -> string,
                                         limits: map<string, int>)
    ensures WantedEntries(cfgs, ctx, naming, limits).Success?
            <==> forall c | c in cfgs && c.countName in limits :: Wanted(c, ctx, limits).Success?
    ensures WantedEntries(cfgs, ctx, naming, limits).Success? ==>
      forall e :: e in WantedEntries(cfgs, ctx, naming, limits).value <==>
        exists c | c in cfgs && c.countName in limits :: e == Entry(naming(c), Wanted(c, ctx, limits).value)
  {
    hide Wanted;
    if cfgs != [] {
      var n := |cfgs| - 1;
      WantedMeaning(cfgs[..n], ctx, naming, limits);
      assert cfgs == cfgs[..n] + [cfgs[n]];
    }
  }

  /** No config's count is taken by the configs before it. */
  ghost predicate CountsKept(cfgs: seq<DeviceConfig>, limits: map<string, int>) {
    forall j | 0 <= j < |cfgs| && cfgs[j].countName in limits :: cfgs[j].countName !in TakenBy(cfgs[..j], limits)
  }

  lemma AdmissibleKeepsCounts(cfgs: seq<DeviceConfig>, limits: map<string, int>)
    requires Admissible(cfgs)
    ensures CountsKept(cfgs, limits)
  {
    forall j | 0 <= j < |cfgs| && cfgs[j].countName in limits
      ensures cfgs[j].countName !in TakenBy(cfgs[..j], limits)
    {
      var x := cfgs[j].Names()[0];
      forall c | c in cfgs[..j] ensures x !in Taken(c, limits) {
        var i :| 0 <= i < j && cfgs[i] == c;
        assert forall l | 0 <= l < 4 :: cfgs[i].Names()[l] != x;
      }
    }
  }

  lemma CountsKeptPrefix(cfgs: seq<DeviceConfig>, limits: map<string, int>, n: nat)
    requires CountsKept(cfgs, limits) && n <= |cfgs|
    ensures CountsKept(cfgs[..n], limits)
  {
    assert forall j | 0 <= j < n :: cfgs[..n][..j] == cfgs[..j] && cfgs[..n][j] == cfgs[j];
  }

  /** What conversion leaves, however often the other limits are read: all but the names taken. */
  lemma {:induction false} ConvertLeaves(cfgs: seq<DeviceConfig>, ctx: Context, naming: DeviceConfig -> string,
                                         r: Resources)
    requires CountsKept(cfgs, r.limits)
    requires Convert(cfgs, ctx, naming, r).Success?
    ensures Convert(cfgs, ctx, naming, r).value.rest == r.Without(TakenBy(cfgs, r.limits))
  {
    hide TurnOf, Taken, TakenBy;
    if cfgs == [] {
      NothingTakenBy(r.limits);
      assert r.limits - {} == r.limits && r.requests - {} == r.requests;
    } else {
      var n := |cfgs| - 1;
      var cfg, gone := cfgs[n], TakenBy(cfgs[..n], r.limits);
      assert cfgs == cfgs[..n] + [cfg];
      CountsKeptPrefix(cfgs, r.limits, n);
      ConvertLeaves(cfgs[..n], ctx, naming, r);
      TakenByMore(cfgs[..n], cfg, r.limits);
      var rest := r.Without(gone);
      if cfg.countName in r.limits {
        TurnLeaves(cfg, ctx, rest);
        RequestedTurn(cfg, ctx, rest);
        WithoutTwice(r, gone, Taken(cfg, rest.limits));
        TakenLess(cfg, r.limits, gone);
      } else {
        NotAsked(cfg, ctx, rest);
        NothingTaken(cfg, r.limits);
        assert gone + {} == gone;
      }
    }
  }

  lemma RequestedTurn(cfg: DeviceConfig, ctx: Context, r: Resources)
    requires cfg.countName in r.limits
    ensures !TurnOf(cfg, ctx, r).Skipped?
  {
    hide CoreCapacity, MemoryCapacity, Finished;
  }

  lemma TakenLess(cfg: DeviceConfig, limits: map<string, int>, gone: set<string>)
    requires cfg.countName in limits && cfg.countName !in gone
    ensures gone + Taken(cfg, limits - gone) == gone + Taken(cfg, limits)
  {
    TakenNames(cfg, limits);
    TakenNames(cfg, limits - gone);
  }

  /******* What the claims ask for *******/

  /** A core limit needs a reference where the device type has percentages. */
  ghost predicate CoresConvertible(cfg: DeviceConfig, ctx: Context) {
    exists units ::
      ReferenceIs(cfg, ctx.slices, units) && (cfg.deviceType == "hcu" || cfg.deviceType == "amdgpu" ==> units > 0)
  }

  /** A percentage needs a listing with one to eight sizes of the config's devices. */
  ghost predicate PercentageConvertible(cfg: DeviceConfig, ctx: Context, pct: int) {
    1 <= pct <= 100 && ctx.slices.Some? && 1 <= |CapacityValues(ctx.slices.value, cfg, "memory")| <= 8
  }

  /** Each of the four annotations has some value, if it is there. */
  ghost predicate AnnotationsUsable(cfg: DeviceConfig, annotations: map<string, string>) {
    forall name | name in [cfg.useUuid, cfg.noUseUuid, cfg.useType, cfg.noUseType] && name in annotations ::
      exists v :: IsValue(annotations[name], v)
  }

  function CoreKey(cfg: DeviceConfig): string {
    if cfg.coreCapacityName == "" then "cores" else cfg.coreCapacityName
  }

  /** The value is what a core limit comes to under the config's reference. */
  ghost predicate CoresFor(cfg: DeviceConfig, ctx: Context, cores: int, value: int) {
    exists units :: ReferenceIs(cfg, ctx.slices, units) && CoresAsked(cfg.(referenceUnits := units), cores, value)
  }

  /** The core units and the memory bytes that the limits ask for; `sized` if a percentage asks for memory. */
  ghost predicate AsksFor(cfg: DeviceConfig, ctx: Context, limits: map<string, int>, sized: bool,
                          capacity: map<string, int>) {
    && (forall key :: key in capacity <==>
          || (cfg.coreName in limits && key == CoreKey(cfg))
          || ((sized || cfg.memoryName in limits) && key == "memory"))
    && (cfg.coreName in limits && CoreKey(cfg) != "memory" ==>
          CoresFor(cfg, ctx, limits[cfg.coreName], capacity[CoreKey(cfg)]))
    && (cfg.memoryName in limits ==> capacity["memory"] == limits[cfg.memoryName] * 1048576)
  }

  /** The devices that the selectors for type and annotations leave. */
  ghost predicate Suits(cfg: DeviceConfig, ctx: Context, d: Device) {
    RightType(cfg, d) && AnnotationsAllow(cfg, ctx.annotations, d)
  }

  predicate OfSize(cfg: DeviceConfig, d: Device, size: int) {
    var domain := if cfg.driverName == "" then "hami-core-gpu.project-hami.io" else cfg.driverName;
    domain in d.memory && d.memory[domain] == size as real
  }

  predicate OfClass(cfg: DeviceConfig, className: string) {
    className == if cfg.deviceClassName == "" then "hami-core-gpu.project-hami.io" else cfg.deviceClassName
  }

  /** One request for devices of any size. */
  ghost predicate AsksOnce(cfg: DeviceConfig, ctx: Context, limits: map<string, int>, r: Request)
    requires cfg.countName in limits
  {
    && r.Exactly? && r.name == cfg.requestName && OfClass(cfg, r.className) && r.count == limits[cfg.countName]
    && AsksFor(cfg, ctx, limits, false, r.capacity)
    && forall d :: Accepts(r.selectors, d) <==> Suits(cfg, ctx, d)
  }

  /** The subrequest with number k, for the devices of one size. */
  ghost predicate AsksShare(cfg: DeviceConfig, ctx: Context, limits: map<string, int>, s: SubRequest, k: nat, size: int)
    requires cfg.countName in limits && cfg.percentageName in limits
  {
    && s.ordinal == k && OfClass(cfg, s.className) && s.count == limits[cfg.countName]
    && AsksFor(cfg, ctx, limits, true, s.capacity) && s.capacity["memory"] == Share(size, limits[cfg.percentageName])
    && forall d :: Accepts(s.selectors, d) <==> Suits(cfg, ctx, d) && OfSize(cfg, d, size)
  }

  /** One subrequest for every published size, in ascending order. */
  ghost predicate AsksShares(cfg: DeviceConfig, ctx: Context, limits: map<string, int>, r: Request)
    requires cfg.countName in limits && cfg.percentageName in limits && ctx.slices.Some?
  {
    && r.FirstAvailable? && r.name == cfg.requestName
    && exists sizes ::
         && Enumerates(sizes, CapacityValues(ctx.slices.value, cfg, "memory")) && |sizes| == |r.subs|
         && forall k | 0 <= k < |sizes| :: AsksShare(cfg, ctx, limits, r.subs[k], k, sizes[k])
  }

  lemma CoreMeaning(cfg: DeviceConfig, ctx: Context, limits: map<string, int>)
    requires cfg.coreName in limits
    ensures var core := CoreCapacity(cfg, ctx, limits);
      && (core.Success? <==> CoresConvertible(cfg, ctx))
      && (core.Success? ==> core.value.Keys == {CoreKey(cfg)}
                            && CoresFor(cfg, ctx, limits[cfg.coreName], core.value[CoreKey(cfg)]))
  {
    hide WithReference, ReferenceIs, ConvertCores, CoresAsked;
    forall units ensures WithReference(cfg, ctx.slices) == Success(cfg.(referenceUnits := units))
                         <==> ReferenceIs(cfg, ctx.slices, units) {
      ReferenceIff(cfg, ctx.slices, units);
    }
    if WithReference(cfg, ctx.slices).Success? {
      ReferenceIff(cfg, ctx.slices, 0);
      var ref := WithReference(cfg, ctx.slices).value;
      assert ReferenceIs(cfg, ctx.slices, ref.referenceUnits);
      ConvertCoresIff(ref, limits[cfg.coreName]);
    }
  }

  lemma CapacityMeaning(cfg: DeviceConfig, ctx: Context, limits: map<string, int>, sized: bool, share: int)
    requires CoreCapacity(cfg, ctx, limits).Success?
    requires MemoryCapacity(cfg, limits, CoreCapacity(cfg, ctx, limits).value).Success?
    requires sized ==> cfg.memoryName !in limits
    ensures var capacity := MemoryCapacity(cfg, limits, CoreCapacity(cfg, ctx, limits).value).value;
            AsksFor(cfg, ctx, limits, sized, if sized then capacity["memory" := share] else capacity)
  {
    hide CoreCapacity, CoresFor;
    if cfg.coreName in limits { CoreMeaning(cfg, ctx, limits); } else { NoCores(cfg, ctx, limits); }
  }

  lemma NoCores(cfg: DeviceConfig, ctx: Context, limits: map<string, int>)
    requires cfg.coreName !in limits
    ensures CoreCapacity(cfg, ctx, limits) == Success(map[])
  {
  }

  lemma SelectorsMeaning(cfg: DeviceConfig, ctx: Context, d: Device)
    requires AnnotationSelectors(cfg, ctx.annotations).Success?
    ensures Accepts(PrimaryRequest(cfg).selectors + AnnotationSelectors(cfg, ctx.annotations).value, d)
            <==> Suits(cfg, ctx, d)
  {
    hide AnnotationSelectors, RightType, AnnotationsAllow, PrimaryRequest;
    PrimaryMeaning(cfg, d);
    AnnotationsMeaning(cfg, ctx.annotations, d);
    AcceptsMore(PrimaryRequest(cfg).selectors, AnnotationSelectors(cfg, ctx.annotations).value, d);
  }

  lemma AcceptsMore(a: seq<Expr>, b: seq<Expr>, d: Device)
    ensures Accepts(a + b, d) <==> Accepts(a, d) && Accepts(b, d)
  {
    hide Eval;
    assert forall e :: e in a + b <==> e in a || e in b;
  }

  /**
   A claim is refused exactly for one of four reasons. Otherwise it asks for the count, cores and memory of the
   limits on a device that suits, or for the percentage of each published size.
   */
  lemma WantedIff(cfg: DeviceConfig, ctx: Context, limits: map<string, int>)
    requires cfg.countName in limits
    ensures var percent := cfg.percentageName != "" && cfg.percentageName in limits && cfg.memoryName !in limits;
      Wanted(cfg, ctx, limits).Success? <==>
        && (cfg.coreName in limits ==> CoresConvertible(cfg, ctx))
        && (cfg.memoryName in limits ==> 0 <= limits[cfg.memoryName] * 1048576 <= 0x7fff_ffff_ffff_ffff)
        && AnnotationsUsable(cfg, ctx.annotations)
        && (percent ==> PercentageConvertible(cfg, ctx, limits[cfg.percentageName]))
    ensures var percent := cfg.percentageName != "" && cfg.percentageName in limits && cfg.memoryName !in limits;
      Wanted(cfg, ctx, limits).Success? ==>
        var r := Wanted(cfg, ctx, limits).value;
        if percent then ctx.slices.Some? && AsksShares(cfg, ctx, limits, r) else AsksOnce(cfg, ctx, limits, r)
  {
    hide CoreCapacity, Finished, CoresConvertible, PercentageConvertible, AnnotationsUsable, AsksShares, AsksOnce;
    if cfg.coreName in limits { CoreMeaning(cfg, ctx, limits); } else { NoCores(cfg, ctx, limits); }
    var core := CoreCapacity(cfg, ctx, limits);
    if core.Success? && MemoryCapacity(cfg, limits, core.value).Success? {
      FinishedMeaning(cfg, ctx, limits);
    }
  }

  /** The four reasons that remain once cores and memory are converted, and what the claim asks for. */
  lemma FinishedMeaning(cfg: DeviceConfig, ctx: Context, limits: map<string, int>)
    requires cfg.countName in limits && CoreCapacity(cfg, ctx, limits).Success?
    requires MemoryCapacity(cfg, limits, CoreCapacity(cfg, ctx, limits).value).Success?
    ensures var capacity := MemoryCapacity(cfg, limits, CoreCapacity(cfg, ctx, limits).value).value;
      var percent := cfg.percentageName != "" && cfg.percentageName in limits && cfg.memoryName !in limits;
      var pct := if percent then Some(limits[cfg.percentageName]) else None;
      var r := Finished(cfg, ctx, limits[cfg.countName], capacity, pct);
      && (r.Success? <==> AnnotationsUsable(cfg, ctx.annotations)
                          && (percent ==> PercentageConvertible(cfg, ctx, limits[cfg.percentageName])))
      && (r.Success? ==> if percent then ctx.slices.Some? && AsksShares(cfg, ctx, limits, r.value)
                         else AsksOnce(cfg, ctx, limits, r.value))
  {
    hide CoreCapacity, MemoryCapacity, AnnotationSelectors, Share, AsksFor, Accepts, Suits, TypeSelector;
    UnusableIff(cfg, ctx.annotations);
    var capacity := MemoryCapacity(cfg, limits, CoreCapacity(cfg, ctx, limits).value).value;
    var percent := cfg.percentageName != "" && cfg.percentageName in limits && cfg.memoryName !in limits;
    if AnnotationSelectors(cfg, ctx.annotations).Success? {
      PrimaryMeaning(cfg, Device("", map[], map[]));
      forall d ensures Accepts(PrimaryRequest(cfg).selectors + AnnotationSelectors(cfg, ctx.annotations).value, d)
                       <==> Suits(cfg, ctx, d) {
        SelectorsMeaning(cfg, ctx, d);
      }
      if percent {
        SharesMeaning(cfg, ctx, limits, capacity);
      } else {
        CapacityMeaning(cfg, ctx, limits, false, 0);
      }
    }
  }

  lemma SharesMeaning(cfg: DeviceConfig, ctx: Context, limits: map<string, int>, capacity: map<string, int>)
    requires cfg.countName in limits && cfg.percentageName in limits && cfg.memoryName !in limits
    requires CoreCapacity(cfg, ctx, limits).Success?
    requires MemoryCapacity(cfg, limits, CoreCapacity(cfg, ctx, limits).value) == Success(capacity)
    requires AnnotationSelectors(cfg, ctx.annotations).Success?
    ensures var pct := limits[cfg.percentageName];
      var r := Finished(cfg, ctx, limits[cfg.countName], capacity, Some(pct));
      && (r.Success? <==> PercentageConvertible(cfg, ctx, pct))
      && (r.Success? ==> ctx.slices.Some? && AsksShares(cfg, ctx, limits, r.value))
  {
    hide CoreCapacity, MemoryCapacity, AnnotationSelectors, Share, AsksFor, Accepts, Suits, TypeSelector, Eval;
    var pct := limits[cfg.percentageName];
    var primary := PrimaryRequest(cfg);
    var selectors := primary.selectors + AnnotationSelectors(cfg, ctx.annotations).value;
    var request := primary.(selectors := selectors, count := limits[cfg.countName], capacity := capacity);
    if ctx.slices.Some? {
      var values := CapacityValues(ctx.slices.value, cfg, "memory");
      var sizes := AscendingOf(values);
      SizesCounted(sizes, values);
      forall k | 0 <= k < |sizes|
        ensures AsksShare(cfg, ctx, limits, SubFor(request, cfg, pct, sizes, k), k, sizes[k])
      {
        ShareMeaning(cfg, ctx, limits, capacity, sizes, k);
      }
    }
  }

  lemma SizesCounted(sizes: seq<int>, values: set<int>)
    requires Enumerates(sizes, values)
    ensures |sizes| == |values|
  {
    if sizes == [] {
      EmptyIff(sizes, values);
    } else {
      WithoutLast(sizes, values);
      SizesCounted(sizes[..|sizes| - 1], values - {sizes[|sizes| - 1]});
    }
  }

  lemma ShareMeaning(cfg: DeviceConfig, ctx: Context, limits: map<string, int>, capacity: map<string, int>,
                     sizes: seq<int>, k: nat)
    requires cfg.countName in limits && cfg.percentageName in limits && cfg.memoryName !in limits && k < |sizes|
    requires CoreCapacity(cfg, ctx, limits).Success?
    requires MemoryCapacity(cfg, limits, CoreCapacity(cfg, ctx, limits).value) == Success(capacity)
    requires AnnotationSelectors(cfg, ctx.annotations).Success?
    ensures var primary := PrimaryRequest(cfg);
      var selectors := primary.selectors + AnnotationSelectors(cfg, ctx.annotations).value;
      var request := primary.(selectors := selectors, count := limits[cfg.countName], capacity := capacity);
      AsksShare(cfg, ctx, limits, SubFor(request, cfg, limits[cfg.percentageName], sizes, k), k, sizes[k])
  {
    hide CoreCapacity, MemoryCapacity, AnnotationSelectors, Share, AsksFor, Accepts, Suits, TypeSelector;
    PrimaryMeaning(cfg, Device("", map[], map[]));
    CapacityMeaning(cfg, ctx, limits, true, Share(sizes[k], limits[cfg.percentageName]));
    var size := MemoryIs(cfg.EffectiveDriver(), sizes[k]);
    forall d
      ensures Accepts(PrimaryRequest(cfg).selectors + AnnotationSelectors(cfg, ctx.annotations).value + [size], d)
              <==> Suits(cfg, ctx, d) && OfSize(cfg, d, sizes[k])
    {
      SelectorsMeaning(cfg, ctx, d);
      AcceptsMore(PrimaryRequest(cfg).selectors + AnnotationSelectors(cfg, ctx.annotations).value, [size], d);
      AcceptsOne(size, d);
    }
  }

  lemma AcceptsOne(e: Expr, d: Device)
    ensures Accepts([e], d) <==> Eval(e, d) == Yes
  {
    hide Eval;
    assert e in [e];
  }
}
