/** Pods as values: what admission, re-application and deletion make of them, and how these undo each other. */
module PodConversion {
  import opened Options
  import opened ClaimNames
  import opened DeviceConfigs
  import opened Capacities
  import opened ObjectStore
  import opened ClaimConversion

  const DRA_LABEL := "hami.io/dra"

  datatype ContainerValue = ContainerValue(name: string, resources: Resources, claims: seq<string>)

  /** An entry of a pod's resource claims, referring to a claim or a template. */
  datatype PodClaim = PodClaim(name: string, claim: Option<string>, template: Option<string>)

  datatype PodValue = PodValue(
    namespace: string, name: string, annotations: map<string, string>, labels: map<string, string>,
    containers: seq<ContainerValue>, resourceClaims: seq<PodClaim>)

  /** The webhook's settings: the resolved configs, whether it makes templates, and SHA-256. */
  datatype Settings = Settings(configs: seq<DeviceConfig>, asTemplate: bool, hash: string -> Digest)
  {
    function Kind(): Kind {
      if asTemplate then Template else Claim
    }
  }

  /** The random name segments, drawn for every container and config of a pod without a name. */
  type Draw = (nat, DeviceConfig) -> string

  /******* Admission *******/

  function Naming(hash: string -> Digest, namespace: string, owner: string, container: string, i: nat, draw: Draw)
    : DeviceConfig -> string
  {
    cfg => ClaimName(namespace, if owner == "" then draw(i, cfg) else owner, container, cfg.Suffix(), hash)
  }

  function ClaimFor(asTemplate: bool, name: string): PodClaim {
    if asTemplate then PodClaim(name, None, Some(name)) else PodClaim(name, Some(name), None)
  }

  function PodClaims(asTemplate: bool, names: seq<string>): (r: seq<PodClaim>)
    ensures |r| == |names|
  {
    seq(|names|, i requires 0 <= i < |names| => ClaimFor(asTemplate, names[i]))
  }

  lemma PodClaimsMore(asTemplate: bool, a: seq<string>, b: seq<string>)
    ensures PodClaims(asTemplate, a + b) == PodClaims(asTemplate, a) + PodClaims(asTemplate, b)
  {
  }

  ghost function ConvertContainer(s: Settings, slices: Option<seq<DriverSlice>>, pod: PodValue, i: nat, draw: Draw)
    : Result<Conversion>
    requires i < |pod.containers|
  {
    var c := pod.containers[i];
    Convert(s.configs, Context(pod.annotations, slices),
            Naming(s.hash, pod.namespace, pod.name, c.name, i, draw), c.resources)
  }

  datatype Admitted = Admitted(containers: seq<ContainerValue>, entries: seq<Entry>)

  /** The first n containers, converted one after the other. */
  ghost function AdmitContainers(s: Settings, slices: Option<seq<DriverSlice>>, pod: PodValue, n: nat, draw: Draw)
    : (r: Result<Admitted>)
    requires n <= |pod.containers|
    ensures r.Success? ==> |r.value.containers| == n
  {
    if n == 0 then Success(Admitted([], []))
    else
      match AdmitContainers(s, slices, pod, n - 1, draw)
      case Failure => Failure
      case Success(a) =>
        match ConvertContainer(s, slices, pod, n - 1, draw)
        case Failure => Failure
        case Success(v) =>
          var c := pod.containers[n - 1];
          Success(Admitted(a.containers + [ContainerValue(c.name, v.rest, c.claims + EntryNames(v.entries))],
                           a.entries + v.entries))
  }

  /** The pod with the claims of the entries. */
  function WithClaims(s: Settings, pod: PodValue, a: Admitted): PodValue {
    pod.(containers := a.containers,
         resourceClaims := pod.resourceClaims + PodClaims(s.asTemplate, EntryNames(a.entries)),
         labels := if a.entries == [] then pod.labels else pod.labels[DRA_LABEL := "true"])
  }

  ghost function Admit(s: Settings, slices: Option<seq<DriverSlice>>, pod: PodValue, draw: Draw): Result<Admitted> {
    AdmitContainers(s, slices, pod, |pod.containers|, draw)
  }

  /** The objects made for an admitted pod. */
  function Created(s: Settings, pod: PodValue, a: Admitted): Store {
    Stored(s.Kind(), pod.namespace, s.asTemplate, a.entries)
  }

  ghost predicate CanCreate(s: Settings, pod: PodValue, a: Admitted, store: Store) {
    Fresh(s.Kind(), pod.namespace, a.entries, store)
  }

  lemma AdmitNone(s: Settings, slices: Option<seq<DriverSlice>>, pod: PodValue, draw: Draw)
    ensures AdmitContainers(s, slices, pod, 0, draw) == Success(Admitted([], []))
  {
  }

  /** One more container. */
  lemma AdmitOne(s: Settings, slices: Option<seq<DriverSlice>>, pod: PodValue, i: nat, draw: Draw)
    requires i < |pod.containers| && AdmitContainers(s, slices, pod, i, draw).Success?
    ensures var a := AdmitContainers(s, slices, pod, i, draw).value;
            var c, v := pod.containers[i], ConvertContainer(s, slices, pod, i, draw);
            AdmitContainers(s, slices, pod, i + 1, draw) ==
              if v.Failure? then Failure
              else Success(Admitted(
                a.containers + [ContainerValue(c.name, v.value.rest, c.claims + EntryNames(v.value.entries))],
                a.entries + v.value.entries))
  {
  }

  lemma {:induction false} AdmitPrefix(s: Settings, slices: Option<seq<DriverSlice>>, pod: PodValue, n: nat, m: nat,
                                       draw: Draw)
    requires n <= m <= |pod.containers| && AdmitContainers(s, slices, pod, m, draw).Success?
    ensures AdmitContainers(s, slices, pod, n, draw).Success?
    ensures AdmitContainers(s, slices, pod, n, draw).value.entries
            <= AdmitContainers(s, slices, pod, m, draw).value.entries
  {
    if n < m { AdmitPrefix(s, slices, pod, n, m - 1, draw); }
  }

  /** Each container is converted by itself. */
  lemma {:induction false} AdmittedAt(s: Settings, slices: Option<seq<DriverSlice>>, pod: PodValue, n: nat, i: nat,
                                      draw: Draw)
    requires i < n <= |pod.containers| && AdmitContainers(s, slices, pod, n, draw).Success?
    ensures ConvertContainer(s, slices, pod, i, draw).Success?
    ensures var v, c := ConvertContainer(s, slices, pod, i, draw).value, pod.containers[i];
            AdmitContainers(s, slices, pod, n, draw).value.containers[i]
            == ContainerValue(c.name, v.rest, c.claims + EntryNames(v.entries))
  {
    hide ConvertContainer;
    if i < n - 1 { AdmittedAt(s, slices, pod, n - 1, i, draw); }
  }

  /** The claims of every container are among those of the pod. */
  lemma {:induction false} EntryAmong(s: Settings, slices: Option<seq<DriverSlice>>, pod: PodValue, n: nat, i: nat,
                                      draw: Draw)
    requires i < n <= |pod.containers| && AdmitContainers(s, slices, pod, n, draw).Success?
    ensures ConvertContainer(s, slices, pod, i, draw).Success?
    ensures forall e | e in ConvertContainer(s, slices, pod, i, draw).value.entries ::
      e in AdmitContainers(s, slices, pod, n, draw).value.entries
  {
    hide ConvertContainer;
    if i < n - 1 { EntryAmong(s, slices, pod, n - 1, i, draw); }
  }

  /**
   Every claim made for a container is listed by the container behind its own claims, and by the pod under the
   same name, where it refers to an object of that name: a labelled template or an unlabelled claim, as set,
   which was created and holds the request.
   */
  lemma ClaimsResolve(s: Settings, slices: Option<seq<DriverSlice>>, pod: PodValue, i: nat, k: nat, draw: Draw,
                      store: Store)
    requires i < |pod.containers| && Admit(s, slices, pod, draw).Success?
    requires CanCreate(s, pod, Admit(s, slices, pod, draw).value, store)
    requires ConvertContainer(s, slices, pod, i, draw).Success? ==>
      k < |ConvertContainer(s, slices, pod, i, draw).value.entries|
    ensures ConvertContainer(s, slices, pod, i, draw).Success?
    ensures var a := Admit(s, slices, pod, draw).value;
      var after, created := WithClaims(s, pod, a), Created(s, pod, a);
      var e, own := ConvertContainer(s, slices, pod, i, draw).value.entries[k], pod.containers[i].claims;
      var key := Key(if s.asTemplate then Template else Claim, pod.namespace, e.name);
      && own <= after.containers[i].claims && |own| + k < |after.containers[i].claims|
      && after.containers[i].claims[|own| + k] == e.name
      && pod.resourceClaims <= after.resourceClaims
      && (exists c :: c in after.resourceClaims && c.name == e.name
            && c.template == (if s.asTemplate then Some(e.name) else None)
            && c.claim == (if s.asTemplate then None else Some(e.name)))
      && key in created && created[key] == Object([e.request], s.asTemplate)
      && "hami.io/dra" in after.labels && after.labels["hami.io/dra"] == "true"
  {
    hide ConvertContainer, AdmitContainers, Stored;
    var n := |pod.containers|;
    AdmittedAt(s, slices, pod, n, i, draw);
    EntryAmong(s, slices, pod, n, i, draw);
    var a, e := Admit(s, slices, pod, draw).value, ConvertContainer(s, slices, pod, i, draw).value.entries[k];
    assert e in ConvertContainer(s, slices, pod, i, draw).value.entries;
    var j: nat :| j < |a.entries| && a.entries[j] == e;
    assert Fresh(s.Kind(), pod.namespace, a.entries, map[]);
    StoredAt(s.Kind(), pod.namespace, s.asTemplate, a.entries, j);
    var added := PodClaims(s.asTemplate, EntryNames(a.entries));
    assert added[j] in pod.resourceClaims + added && added[j].name == e.name;
  }

  /**
   For every config whose count a container limits, an admitted pod has an object under the config's name, which
   the container lists, and the object asks for just the devices, count, cores and memory of the original limits.
   */
  lemma AdmittedAsks(s: Settings, slices: Option<seq<DriverSlice>>, pod: PodValue, i: nat, cfg: DeviceConfig,
                     draw: Draw, store: Store)
    requires i < |pod.containers| && Admit(s, slices, pod, draw).Success?
    requires CanCreate(s, pod, Admit(s, slices, pod, draw).value, store)
    requires UsedOnce(s.configs, pod.containers[i].resources.limits)
    requires cfg in s.configs && cfg.countName in pod.containers[i].resources.limits
    ensures var a, c := Admit(s, slices, pod, draw).value, pod.containers[i];
      var limits, ctx, created := c.resources.limits, Context(pod.annotations, slices), Created(s, pod, a);
      var name := Naming(s.hash, pod.namespace, pod.name, c.name, i, draw)(cfg);
      var key := Key(if s.asTemplate then Template else Claim, pod.namespace, name);
      && name in WithClaims(s, pod, a).containers[i].claims && key in created && |created[key].requests| == 1
      && if cfg.percentageName != "" && cfg.percentageName in limits && cfg.memoryName !in limits
         then slices.Some? && AsksShares(cfg, ctx, limits, created[key].requests[0])
         else AsksOnce(cfg, ctx, limits, created[key].requests[0])
  {
    hide Admit, UsedOnce, Convert, Wanted, WantedEntries, TakenBy, AsksShares, AsksOnce, Stored, Naming;
    var c, ctx := pod.containers[i], Context(pod.annotations, slices);
    var naming := Naming(s.hash, pod.namespace, pod.name, c.name, i, draw);
    EntryAmongAll(s, slices, pod, i, draw);
    ConvertAtOnce(s.configs, ctx, naming, c.resources);
    WantedMeaning(s.configs, ctx, naming, c.resources.limits);
    WantedIff(cfg, ctx, c.resources.limits);
    var entries := ConvertContainer(s, slices, pod, i, draw).value.entries;
    var e := Entry(naming(cfg), Wanted(cfg, ctx, c.resources.limits).value);
    assert e in entries;
    var k: nat :| k < |entries| && entries[k] == e;
    ClaimsResolve(s, slices, pod, i, k, draw, store);
  }

  lemma EntryAmongAll(s: Settings, slices: Option<seq<DriverSlice>>, pod: PodValue, i: nat, draw: Draw)
    requires i < |pod.containers| && Admit(s, slices, pod, draw).Success?
    ensures ConvertContainer(s, slices, pod, i, draw).Success?
  {
    EntryAmong(s, slices, pod, |pod.containers|, i, draw);
  }

  /** Every name made for a pod with a name is recognised as the pod's. */
  lemma {:induction false} EntriesOwned(s: Settings, slices: Option<seq<DriverSlice>>, pod: PodValue, n: nat,
                                        draw: Draw)
    requires pod.name != "" && pod.name[|pod.name| - 1] != '-'
    requires n <= |pod.containers| && AdmitContainers(s, slices, pod, n, draw).Success?
    ensures forall e | e in AdmitContainers(s, slices, pod, n, draw).value.entries ::
      OwnsClaimName(e.name, pod.namespace, pod.name)
  {
    hide ConvertContainer, OwnsClaimName;
    if n > 0 {
      EntriesOwned(s, slices, pod, n - 1, draw);
      ContainerOwned(s, slices, pod, n - 1, draw);
    }
  }

  lemma ContainerOwned(s: Settings, slices: Option<seq<DriverSlice>>, pod: PodValue, i: nat, draw: Draw)
    requires pod.name != "" && pod.name[|pod.name| - 1] != '-'
    requires i < |pod.containers| && ConvertContainer(s, slices, pod, i, draw).Success?
    ensures forall e | e in ConvertContainer(s, slices, pod, i, draw).value.entries ::
      OwnsClaimName(e.name, pod.namespace, pod.name)
  {
    hide OwnsClaimName, ClaimName;
    var c := pod.containers[i];
    forall cfg: DeviceConfig
      ensures OwnsClaimName(Naming(s.hash, pod.namespace, pod.name, c.name, i, draw)(cfg), pod.namespace, pod.name)
    {
      OwnershipComplete(pod.namespace, pod.name, c.name, cfg.Suffix(), s.hash);
    }
    EntriesNamed(s.configs, Context(pod.annotations, slices),
                 Naming(s.hash, pod.namespace, pod.name, c.name, i, draw), c.resources);
  }

  lemma {:induction false} EntriesNamed(cfgs: seq<DeviceConfig>, ctx: Context, naming: DeviceConfig -> string,
                                        r: Resources)
    requires Convert(cfgs, ctx, naming, r).Success?
    ensures forall e | e in Convert(cfgs, ctx, naming, r).value.entries :: exists cfg :: e.name == naming(cfg)
  {
    hide TurnOf;
    if cfgs != [] {
      EntriesNamed(cfgs[..|cfgs| - 1], ctx, naming, r);
      assert naming(cfgs[|cfgs| - 1]) == naming(cfgs[|cfgs| - 1]);
    }
  }

  /******* Deletion *******/

  /** The objects that deleting a labelled pod takes away: claims by name, templates by label. */
  function Doomed(store: Store, pod: PodValue): set<Key> {
    (set c | c in pod.resourceClaims && c.claim.Some? && OwnsClaimName(c.claim.value, pod.namespace, pod.name)
      :: Key(Claim, pod.namespace, c.claim.value))
    + (set c | c in pod.resourceClaims && c.template.Some? && LabelledTemplate(store, pod.namespace, c.template.value)
      :: Key(Template, pod.namespace, c.template.value))
  }

  predicate LabelledTemplate(store: Store, namespace: string, name: string) {
    Key(Template, namespace, name) in store && store[Key(Template, namespace, name)].labelled
  }

  function Remaining(store: Store, pod: PodValue): Store {
    if DRA_LABEL in pod.labels then store - Doomed(store, pod) else store
  }

  /** Deleting the pod would take no object of the store away. */
  predicate Spares(store: Store, pod: PodValue) {
    forall c | c in pod.resourceClaims ::
      && (c.claim.Some? && OwnsClaimName(c.claim.value, pod.namespace, pod.name) ==>
            Key(Claim, pod.namespace, c.claim.value) !in store)
      && (c.template.Some? ==> !LabelledTemplate(store, pod.namespace, c.template.value))
  }

  ghost predicate Includes(store: Store, part: Store) {
    forall k | k in part :: k in store && store[k] == part[k]
  }

  /**
   Deleting an admitted pod takes away exactly what its admission created, whatever else happened to the
   store in between, if and only if the pod lists no object of the user's that looks like the webhook's own.
   */
  lemma DeletionIff(s: Settings, slices: Option<seq<DriverSlice>>, pod: PodValue, draw: Draw, between: Store)
    requires pod.name != "" && pod.name[|pod.name| - 1] != '-'
    requires Admit(s, slices, pod, draw).Success?
    requires Includes(between, Created(s, pod, Admit(s, slices, pod, draw).value))
    ensures var a := Admit(s, slices, pod, draw).value;
            var others := between - Created(s, pod, a).Keys;
            Remaining(between, WithClaims(s, pod, a)) == others
            <==> DRA_LABEL !in WithClaims(s, pod, a).labels || Spares(others, pod)
  {
    var a := Admit(s, slices, pod, draw).value;
    EntriesOwned(s, slices, pod, |pod.containers|, draw);
    CreatedDoomed(s, pod, a, between);
    hide OwnsClaimName, Stored, Admit, Doomed;
    var after, created := WithClaims(s, pod, a), Created(s, pod, a);
    var others := between - created.Keys;
    SparesIff(s, pod, a, between);
    if DRA_LABEL !in after.labels {
      assert a.entries == [];
      assert created == map[] by { NothingStored(s.Kind(), pod.namespace, s.asTemplate); }
      assert others == between;
    } else {
      assert created.Keys <= Doomed(between, after);
    }
  }

  /** What was created is taken away. */
  lemma CreatedDoomed(s: Settings, pod: PodValue, a: Admitted, between: Store)
    requires Includes(between, Created(s, pod, a))
    requires forall e | e in a.entries :: OwnsClaimName(e.name, pod.namespace, pod.name)
    ensures Created(s, pod, a).Keys <= Doomed(between, WithClaims(s, pod, a))
  {
    hide OwnsClaimName, Stored;
    StoredKeys(s.Kind(), pod.namespace, s.asTemplate, a.entries);
    StoredLabelled(s.Kind(), pod.namespace, s.asTemplate, a.entries);
    var after, created := WithClaims(s, pod, a), Created(s, pod, a);
    forall k | k in created.Keys ensures k in Doomed(between, after) {
      var i :| 0 <= i < |a.entries| && k == Key(s.Kind(), pod.namespace, a.entries[i].name);
      var c := PodClaims(s.asTemplate, EntryNames(a.entries))[i];
      assert c in after.resourceClaims && a.entries[i] in a.entries;
      assert s.asTemplate ==> LabelledTemplate(between, pod.namespace, c.template.value);
    }
  }

  /** Beside what was created, deletion takes something away just when a user's object is not spared. */
  lemma SparesIff(s: Settings, pod: PodValue, a: Admitted, between: Store)
    ensures var others := between - Created(s, pod, a).Keys;
            Spares(others, pod) <==> Doomed(between, WithClaims(s, pod, a)) !! others.Keys
  {
    hide OwnsClaimName, Stored;
    StoredKeys(s.Kind(), pod.namespace, s.asTemplate, a.entries);
    var after, created := WithClaims(s, pod, a), Created(s, pod, a);
    var others := between - created.Keys;
    var added := PodClaims(s.asTemplate, EntryNames(a.entries));
    forall c | c in added
      ensures c.claim.Some? ==> Key(Claim, pod.namespace, c.claim.value) in created
      ensures c.template.Some? ==> Key(Template, pod.namespace, c.template.value) in created
    {
      var i :| 0 <= i < |added| && c == added[i];
      assert EntryNames(a.entries)[i] == a.entries[i].name;
    }
    if Spares(others, pod) {
      forall c | c in after.resourceClaims
        ensures c.claim.Some? && OwnsClaimName(c.claim.value, pod.namespace, pod.name) ==>
          Key(Claim, pod.namespace, c.claim.value) !in others
        ensures c.template.Some? && LabelledTemplate(between, pod.namespace, c.template.value) ==>
          Key(Template, pod.namespace, c.template.value) !in others
      {
        assert c in pod.resourceClaims || c in added;
      }
    } else {
      var c :| c in pod.resourceClaims
        && !((c.claim.Some? && OwnsClaimName(c.claim.value, pod.namespace, pod.name) ==>
                Key(Claim, pod.namespace, c.claim.value) !in others)
             && (c.template.Some? ==> !LabelledTemplate(others, pod.namespace, c.template.value)));
      assert c in after.resourceClaims;
    }
  }

  /** A creation followed by the deletion returns the store to its starting contents, under the same condition. */
  lemma RoundTripIff(s: Settings, slices: Option<seq<DriverSlice>>, pod: PodValue, draw: Draw, store: Store)
    requires pod.name != "" && pod.name[|pod.name| - 1] != '-'
    requires Admit(s, slices, pod, draw).Success?
    requires CanCreate(s, pod, Admit(s, slices, pod, draw).value, store)
    ensures var a := Admit(s, slices, pod, draw).value;
            Remaining(store + Created(s, pod, a), WithClaims(s, pod, a)) == store
            <==> DRA_LABEL !in WithClaims(s, pod, a).labels || Spares(store, pod)
  {
    hide Admit, Spares, Stored, Remaining;
    var a := Admit(s, slices, pod, draw).value;
    StoredKeys(s.Kind(), pod.namespace, s.asTemplate, a.entries);
    Undone(s.Kind(), pod.namespace, s.asTemplate, a.entries, store);
    DeletionIff(s, slices, pod, draw, store + Created(s, pod, a));
  }

  /** The pod lists a claim or template under the name of one made for the other pod. */
  predicate ListsFrom(s: Settings, pod: PodValue, other: PodValue, b: Admitted) {
    pod.namespace == other.namespace && exists c | c in pod.resourceClaims ::
      if s.asTemplate then c.template.Some? && c.template.value in EntryNames(b.entries)
      else c.claim.Some? && c.claim.value in EntryNames(b.entries)
           && OwnsClaimName(c.claim.value, pod.namespace, pod.name)
  }

  /** What the pod lists decides whether its deletion spares the objects made for another one. */
  lemma SparesMoreIff(s: Settings, pod: PodValue, other: PodValue, b: Admitted, store: Store)
    requires CanCreate(s, other, b, store)
    ensures Spares(store + Created(s, other, b), pod) <==> Spares(store, pod) && !ListsFrom(s, pod, other, b)
  {
    hide OwnsClaimName, Stored;
    var made := Created(s, other, b);
    StoredKeys(s.Kind(), other.namespace, s.asTemplate, b.entries);
    StoredLabelled(s.Kind(), other.namespace, s.asTemplate, b.entries);
    forall name ensures Key(s.Kind(), pod.namespace, name) in made <==>
                        pod.namespace == other.namespace && name in EntryNames(b.entries)
    {
    }
    assert forall k | k in made :: k !in store;
  }

  /**
   Deleting one pod leaves the objects made for a pod admitted after it, and all others, if and only if
   the pod is unlabelled or lists neither an object of the user's that looks like the webhook's own nor
   one of the other pod's.
   */
  lemma OthersSurviveIff(s: Settings, slices: Option<seq<DriverSlice>>, pod: PodValue, other: PodValue,
                         draw: Draw, otherDraw: Draw, store: Store)
    requires pod.name != "" && pod.name[|pod.name| - 1] != '-'
    requires Admit(s, slices, pod, draw).Success? && Admit(s, slices, other, otherDraw).Success?
    requires CanCreate(s, pod, Admit(s, slices, pod, draw).value, store)
    requires CanCreate(s, other, Admit(s, slices, other, otherDraw).value,
                       store + Created(s, pod, Admit(s, slices, pod, draw).value))
    ensures var a, b := Admit(s, slices, pod, draw).value, Admit(s, slices, other, otherDraw).value;
            Remaining(store + Created(s, pod, a) + Created(s, other, b), WithClaims(s, pod, a))
            == store + Created(s, other, b)
            <==> DRA_LABEL !in WithClaims(s, pod, a).labels || (Spares(store, pod) && !ListsFrom(s, pod, other, b))
  {
    hide Admit, Spares, Stored, Remaining, ListsFrom;
    var a, b := Admit(s, slices, pod, draw).value, Admit(s, slices, other, otherDraw).value;
    var mine, others := Created(s, pod, a), Created(s, other, b);
    StoredKeys(s.Kind(), pod.namespace, s.asTemplate, a.entries);
    StoredKeys(s.Kind(), other.namespace, s.asTemplate, b.entries);
    assert mine.Keys !! store.Keys && others.Keys !! mine.Keys;
    assert store + mine + others - mine.Keys == store + others;
    DeletionIff(s, slices, pod, draw, store + mine + others);
    SparesMoreIff(s, pod, other, b, store);
  }

  /******* Re-application *******/

  /** handleUpdate: containers that hold claims lose every configured resource name. */
  ghost function Stripped(cfgs: seq<DeviceConfig>, c: ContainerValue): ContainerValue {
    if c.claims == [] then c else c.(resources := c.resources.Without(NamesIn(cfgs)))
  }

  ghost predicate HoldsConverted(cfgs: seq<DeviceConfig>, c: ContainerValue) {
    c.claims != [] && exists x :: x in NamesIn(cfgs) && (x in c.resources.limits || x in c.resources.requests)
  }

  ghost function Updated(cfgs: seq<DeviceConfig>, pod: PodValue): PodValue {
    pod.(containers := seq(|pod.containers|, i requires 0 <= i < |pod.containers| => Stripped(cfgs, pod.containers[i])))
  }

  ghost predicate Found(cfgs: seq<DeviceConfig>, pod: PodValue) {
    exists c :: c in pod.containers && HoldsConverted(cfgs, c)
  }

  /** The update path changes the pod exactly when it reports that it found something. */
  lemma StripChangesIff(cfgs: seq<DeviceConfig>, pod: PodValue)
    ensures Updated(cfgs, pod) != pod <==> Found(cfgs, pod)
  {
    hide NamesIn;
    var names := NamesIn(cfgs);
    forall c ensures Stripped(cfgs, c) == c <==> !HoldsConverted(cfgs, c) {
      var r := c.resources;
      if c.claims != [] && !HoldsConverted(cfgs, c) {
        assert r.limits - names == r.limits && r.requests - names == r.requests;
      }
      if x :| x in names && (x in r.limits || x in r.requests) {
        assert x !in r.Without(names).limits && x !in r.Without(names).requests;
      }
    }
    if Found(cfgs, pod) {
      var i :| 0 <= i < |pod.containers| && HoldsConverted(cfgs, pod.containers[i]);
      assert Updated(cfgs, pod).containers[i] != pod.containers[i];
    } else {
      assert forall i | 0 <= i < |pod.containers| :: pod.containers[i] in pod.containers;
      assert Updated(cfgs, pod).containers == pod.containers;
    }
  }

  /** A second update finds nothing. */
  lemma StripOnce(cfgs: seq<DeviceConfig>, pod: PodValue)
    ensures !Found(cfgs, Updated(cfgs, pod))
    ensures Updated(cfgs, Updated(cfgs, pod)) == Updated(cfgs, pod)
  {
    StripChangesIff(cfgs, Updated(cfgs, pod));
  }

  /** The pod a client sends that applies its original manifest on top of the admitted pod. */
  function Reapplied(original: PodValue, after: PodValue): PodValue
    requires |original.containers| == |after.containers|
  {
    after.(containers := seq(|after.containers|, i requires 0 <= i < |after.containers| =>
      ReappliedContainer(original.containers[i], after.containers[i])))
  }

  function ReappliedContainer(original: ContainerValue, after: ContainerValue): ContainerValue {
    after.(resources := Resources(after.resources.limits + original.resources.limits,
                                  after.resources.requests + original.resources.requests))
  }

  /** Every configured name the container uses is a limit beside the count it belongs to. */
  predicate BesideCounts(cfgs: seq<DeviceConfig>, r: Resources) {
    forall i, k | 0 <= i < |cfgs| && 0 <= k < 4 && cfgs[i].Names()[k] != "" ::
      cfgs[i].Names()[k] in r.limits || cfgs[i].Names()[k] in r.requests ==>
        cfgs[i].Names()[k] in r.limits && cfgs[i].countName in r.limits
  }

  /** No requested config reads a limit under the empty name, which stripping passes over. */
  predicate NoEmptyTaken(cfgs: seq<DeviceConfig>, limits: map<string, int>) {
    "" in limits ==> forall i | 0 <= i < |cfgs| && cfgs[i].countName in limits ::
      cfgs[i].memoryName != "" && cfgs[i].coreName != ""
  }

  /** What conversion takes is all that stripping takes just when the names sit beside their counts. */
  lemma TakenIsAllIff(cfgs: seq<DeviceConfig>, r: Resources)
    requires Admissible(cfgs)
    ensures r.Without(NamesIn(cfgs)) == r.Without(TakenBy(cfgs, r.limits))
            <==> BesideCounts(cfgs, r) && NoEmptyTaken(cfgs, r.limits)
  {
    var all, taken := NamesIn(cfgs), TakenBy(cfgs, r.limits);
    forall i, k | 0 <= i < |cfgs| && 0 <= k < 4 && cfgs[i].Names()[k] != ""
      ensures cfgs[i].Names()[k] in all
      ensures cfgs[i].Names()[k] in taken <==> cfgs[i].Names()[k] in r.limits && cfgs[i].countName in r.limits
    {
      TakenOf(cfgs, r.limits, i, k);
    }
    EmptyTakenIff(cfgs, r.limits);
    TakenNonEmpty(cfgs, r.limits);
    if BesideCounts(cfgs, r) && NoEmptyTaken(cfgs, r.limits) {
      assert r.limits - all == r.limits - taken;
      assert r.requests - all == r.requests - taken;
    } else if !BesideCounts(cfgs, r) {
      var i, k :| 0 <= i < |cfgs| && 0 <= k < 4 && cfgs[i].Names()[k] != ""
        && !(cfgs[i].Names()[k] in r.limits || cfgs[i].Names()[k] in r.requests ==>
               cfgs[i].Names()[k] in r.limits && cfgs[i].countName in r.limits);
      var x := cfgs[i].Names()[k];
      assert x !in taken && x in all;
      assert x in r.limits ==> x in r.limits - taken && x !in r.limits - all;
      assert x in r.requests ==> x in r.requests - taken && x !in r.requests - all;
    } else {
      assert "" in taken && "" !in all && "" in r.limits;
      assert "" in r.limits - all && "" !in r.limits - taken;
    }
  }

  lemma TakenNonEmpty(cfgs: seq<DeviceConfig>, limits: map<string, int>)
    ensures forall x | x in TakenBy(cfgs, limits) && x != "" :: x in NamesIn(cfgs)
  {
    forall x | x in TakenBy(cfgs, limits) && x != "" ensures x in NamesIn(cfgs) {
      var c :| c in cfgs && x in Taken(c, limits);
      var i :| 0 <= i < |cfgs| && cfgs[i] == c;
      var k :| 0 <= k < 4 && c.Names()[k] == x;
      assert cfgs[i].Names()[k] == x;
    }
  }

  lemma EmptyTakenIff(cfgs: seq<DeviceConfig>, limits: map<string, int>)
    requires forall i | 0 <= i < |cfgs| :: cfgs[i].countName != ""
    ensures "" in TakenBy(cfgs, limits) <==> !NoEmptyTaken(cfgs, limits)
  {
    forall i | 0 <= i < |cfgs| && cfgs[i].countName in limits
      ensures "" in Taken(cfgs[i], limits) <==> "" in limits && (cfgs[i].memoryName == "" || cfgs[i].coreName == "")
    {
      TakenNames(cfgs[i], limits);
    }
    if "" in TakenBy(cfgs, limits) {
      var c :| c in cfgs && "" in Taken(c, limits);
      var i :| 0 <= i < |cfgs| && cfgs[i] == c;
      assert cfgs[i].countName in limits;
    }
    if !NoEmptyTaken(cfgs, limits) {
      var i :| 0 <= i < |cfgs| && cfgs[i].countName in limits && (cfgs[i].memoryName == "" || cfgs[i].coreName == "");
      assert cfgs[i] in cfgs && "" in Taken(cfgs[i], limits);
    }
  }

  lemma TakenOf(cfgs: seq<DeviceConfig>, limits: map<string, int>, i: nat, k: nat)
    requires NamesDistinct(cfgs) && i < |cfgs| && k < 4 && cfgs[i].Names()[k] != ""
    ensures cfgs[i].Names()[k] in TakenBy(cfgs, limits)
            <==> cfgs[i].Names()[k] in limits && cfgs[i].countName in limits
  {
    var x := cfgs[i].Names()[k];
    if x in limits && cfgs[i].countName in limits {
      assert Reads(cfgs[i], k);
      assert x in Taken(cfgs[i], limits) && cfgs[i] in cfgs;
    }
    if x in TakenBy(cfgs, limits) {
      var c :| c in cfgs && x in Taken(c, limits);
      var j :| 0 <= j < |cfgs| && cfgs[j] == c;
      var l :| 0 <= l < 4 && c.Names()[l] == x;
      assert cfgs[i].Names()[k] == cfgs[j].Names()[l];
      assert i == j;
    }
  }

  /** Without a claim nothing was taken. */
  lemma {:induction false} NoEntriesSameRest(cfgs: seq<DeviceConfig>, ctx: Context, naming: DeviceConfig -> string,
                                             r: Resources)
    requires Convert(cfgs, ctx, naming, r).Success? && Convert(cfgs, ctx, naming, r).value.entries == []
    ensures Convert(cfgs, ctx, naming, r).value.rest == r
  {
    hide TurnOf;
    if cfgs != [] { NoEntriesSameRest(cfgs[..|cfgs| - 1], ctx, naming, r); }
  }

  lemma ReapplyContainerIff(cfgs: seq<DeviceConfig>, ctx: Context, naming: DeviceConfig -> string, c: ContainerValue)
    requires Admissible(cfgs)
    requires Convert(cfgs, ctx, naming, c.resources).Success?
    ensures var v := Convert(cfgs, ctx, naming, c.resources).value;
            var after := ContainerValue(c.name, v.rest, c.claims + EntryNames(v.entries));
            Stripped(cfgs, ReappliedContainer(c, after)) == after <==> after.claims == [] || Restored(cfgs, c.resources)
  {
    hide Admissible, Convert, TakenBy, NamesIn, BesideCounts, NoEmptyTaken;
    var r := c.resources;
    AdmissibleKeepsCounts(cfgs, r.limits);
    ConvertLeaves(cfgs, ctx, naming, r);
    TakenIsAllIff(cfgs, r);
    var v := Convert(cfgs, ctx, naming, r).value;
    var after := ContainerValue(c.name, v.rest, c.claims + EntryNames(v.entries));
    assert v.rest.limits + r.limits == r.limits && v.rest.requests + r.requests == r.requests;
    assert ReappliedContainer(c, after).resources == r;
    if after.claims == [] {
      assert v.entries == [];
      NoEntriesSameRest(cfgs, ctx, naming, r);
    }
  }

  /** Stripping the original resources leaves what conversion left. */
  predicate Restored(cfgs: seq<DeviceConfig>, r: Resources) {
    BesideCounts(cfgs, r) && NoEmptyTaken(cfgs, r.limits)
  }

  /**
   Applying the original manifest again and running the update path restores the admitted pod exactly
   when, in every container that holds claims, each configured name is a limit beside its count and no
   limit under the empty name was converted.
   */
  lemma ReapplyIff(s: Settings, slices: Option<seq<DriverSlice>>, pod: PodValue, draw: Draw)
    requires Admissible(s.configs)
    requires Admit(s, slices, pod, draw).Success?
    ensures var after := WithClaims(s, pod, Admit(s, slices, pod, draw).value);
            Updated(s.configs, Reapplied(pod, after)) == after
            <==> forall i | 0 <= i < |pod.containers| ::
                   after.containers[i].claims == [] || Restored(s.configs, pod.containers[i].resources)
  {
    hide Admissible, Convert, Restored, Stripped, AdmitContainers;
    var n := |pod.containers|;
    var after := WithClaims(s, pod, Admit(s, slices, pod, draw).value);
    var again := Reapplied(pod, after);
    forall i | 0 <= i < n
      ensures Stripped(s.configs, again.containers[i]) == after.containers[i]
              <==> after.containers[i].claims == [] || Restored(s.configs, pod.containers[i].resources)
    {
      var c := pod.containers[i];
      AdmittedAt(s, slices, pod, n, i, draw);
      ReapplyContainerIff(s.configs, Context(pod.annotations, slices),
                          Naming(s.hash, pod.namespace, pod.name, c.name, i, draw), c);
    }
    var updated := Updated(s.configs, again);
    assert updated == after <==> updated.containers == after.containers;
    assert forall i | 0 <= i < n :: updated.containers[i] == Stripped(s.configs, again.containers[i]);
  }
}
