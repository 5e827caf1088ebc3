/** The admission handlers for pods. */
module PodWebhook {
  import opened Options
  import opened ClaimNames
  import opened DeviceConfigs
  import opened Selectors
  import opened Capacities
  import opened ObjectStore
  import opened ClaimConversion
  import opened PodConversion

  datatype Response = Errored | Allowed | Patched

  class Container {
    const name: string
    var limits: map<string, int>
    var requests: map<string, int>
    var claims: seq<string>

    constructor (name: string, resources: Resources, claims: seq<string>)
      ensures View() == ContainerValue(name, resources, claims)
    {
      this.name, this.claims := name, claims;
      this.limits, this.requests := resources.limits, resources.requests;
    }

    function Amounts(): Resources
      reads `limits, `requests
    {
      Resources(limits, requests)
    }

    function View(): ContainerValue
      reads this
    {
      ContainerValue(name, Amounts(), claims)
    }

    method RemoveResource(resource: string)
      modifies `limits, `requests
      ensures Amounts() == old(Amounts()).Without({resource})
    {
      requests := requests - {resource};
      limits := limits - {resource};
    }
  }

  class Pod {
    const namespace: string
    const name: string
    const annotations: map<string, string>
    const containers: seq<Container>
    var labels: map<string, string>
    var resourceClaims: seq<PodClaim>

    constructor (namespace: string, name: string, annotations: map<string, string>, labels: map<string, string>,
                 containers: seq<Container>, resourceClaims: seq<PodClaim>)
      requires forall i, j | 0 <= i < j < |containers| :: containers[i] != containers[j]
      ensures Valid() && this.containers == containers
      ensures View() == PodValue(namespace, name, annotations, labels, Views(), resourceClaims)
    {
      this.namespace, this.name, this.annotations := namespace, name, annotations;
      this.containers, this.labels, this.resourceClaims := containers, labels, resourceClaims;
    }

    ghost predicate Valid() {
      forall i, j | 0 <= i < j < |containers| :: containers[i] != containers[j]
    }

    ghost function Views(): (r: seq<ContainerValue>)
      reads containers
      ensures |r| == |containers|
    {
      seq(|containers|, i requires 0 <= i < |containers| reads containers => containers[i].View())
    }

    ghost function View(): PodValue
      reads this, containers
    {
      PodValue(namespace, name, annotations, labels, Views(), resourceClaims)
    }
  }

  class MutatingAdmission {
    const client: ApiServer
    const settings: Settings

    constructor (client: ApiServer, settings: Settings)
      ensures this.client == client && this.settings == settings
    {
      this.client, this.settings := client, settings;
    }

    /** The work of one config on a container, up to the creation of the claim. */
    method BuildClaim(container: Container, cfg: DeviceConfig, annotations: map<string, string>) returns (turn: Turn)
      modifies container`limits, container`requests
      ensures turn == TurnOf(cfg, Context(annotations, client.slices), old(container.Amounts()))
      ensures turn.Skipped? ==> container.Amounts() == old(container.Amounts())
      ensures turn.Converted? ==> container.Amounts() == turn.rest
    {
      hide WithReference, ConvertCores, AnnotationSelectors, PercentageRequest;
      if cfg.countName !in container.limits { return Skipped; }
      var request := PrimaryRequest(cfg);
      request := request.(count := container.limits[cfg.countName]);
      container.RemoveResource(cfg.countName);

      var capacity: map<string, int> := map[];
      if cfg.coreName in container.limits {
        var coreCfg := WithReferenceComputeUnits(cfg, client.slices);
        if coreCfg.Failure? { return Refused; }
        var converted := ConvertCores(coreCfg.value, container.limits[cfg.coreName]);
        if converted.Failure? { return Refused; }
        capacity := capacity[cfg.EffectiveCoreCapacity() := converted.value];
        container.RemoveResource(cfg.coreName);
      }
      var hasMemory := cfg.memoryName in container.limits;
      if hasMemory {
        var memory := ConvertMemory(container.limits[cfg.memoryName]);
        if memory.Failure? { return Refused; }
        capacity := capacity["memory" := memory.value];
        container.RemoveResource(cfg.memoryName);
      }
      var pct: Option<int> := None;
      if cfg.percentageName != "" && cfg.percentageName in container.limits {
        if !hasMemory { pct := Some(container.limits[cfg.percentageName]); }
        container.RemoveResource(cfg.percentageName);
      }

      var selectors := AddAnnotationSelectors(request.selectors, cfg, annotations);
      if selectors.Failure? { return Refused; }
      request := request.(selectors := selectors.value, capacity := capacity);
      if pct.Some? {
        var sized := RequestMemoryPercentage(request, cfg, pct.value, client.slices);
        if sized.Failure? { return Refused; }
        request := sized.value;
      }
      return Converted(container.Amounts(), request);
    }

    /** The loop over the configs; on a failure the claims of this container and the earlier ones are deleted. */
    method HandleContainer(container: Container, pod: Pod, i: nat, draw: Draw, createdClaims: seq<string>)
      returns (r: Result<seq<string>>)
      modifies container`limits, container`requests, client
      ensures var kind := settings.Kind();
        var naming := Naming(settings.hash, pod.namespace, pod.name, container.name, i, draw);
        var c := Convert(settings.configs, Context(pod.annotations, client.slices), naming, old(container.Amounts()));
        var before := old(client.objects);
        && (r.Failure? ==> client.objects == before - KeysOf(kind, pod.namespace, createdClaims))
        && (r.Success? ==>
              && c.Success? && Fresh(kind, pod.namespace, c.value.entries, before)
              && container.Amounts() == c.value.rest && r.value == EntryNames(c.value.entries)
              && client.objects == before + Stored(kind, pod.namespace, settings.asTemplate, c.value.entries))
        && (client.reliable ==> (r.Success? <==> c.Success? && Fresh(kind, pod.namespace, c.value.entries, before)))
    {
      hide TurnOf, Fresh, Stored, Convert;
      var kind, ns := settings.Kind(), pod.namespace;
      var cfgs, ctx := settings.configs, Context(pod.annotations, client.slices);
      var naming := Naming(settings.hash, ns, pod.name, container.name, i, draw);
      ghost var amounts, before := container.Amounts(), client.objects;
      var rcNames: seq<string> := [];
      ghost var entries: seq<Entry> := [];
      NothingStored(kind, ns, settings.asTemplate);
      assert cfgs[..0] == [];
      ConvertNone(ctx, naming, amounts);
      NothingIsFresh(kind, ns, before);
      for j := 0 to |cfgs|
        invariant Convert(cfgs[..j], ctx, naming, amounts) == Success(Conversion(container.Amounts(), entries))
        invariant rcNames == EntryNames(entries) && Fresh(kind, ns, entries, before)
        invariant client.objects == before + Stored(kind, ns, settings.asTemplate, entries)
      {
        ConvertOne(cfgs, ctx, naming, amounts, j);
        var turn := BuildClaim(container, cfgs[j], pod.annotations);
        if turn.Refused? {
          CleanedUp(kind, ns, settings.asTemplate, createdClaims, entries, before);
          client.DeleteAll(kind, ns, createdClaims + rcNames);
          RefusedFails(cfgs, ctx, naming, amounts, j + 1);
          return Failure;
        }
        if turn.Converted? {
          var rcName := naming(cfgs[j]);
          ghost var entry := Entry(rcName, turn.request);
          StoredOneMore(kind, ns, settings.asTemplate, entries, entry, before);
          var ok := client.Create(Key(kind, ns, rcName), Object([turn.request], settings.asTemplate));
          if !ok {
            CleanedUp(kind, ns, settings.asTemplate, createdClaims, entries, before);
            client.DeleteAll(kind, ns, createdClaims + rcNames);
            if client.reliable {
              TakenFails(cfgs, ctx, naming, amounts, j + 1, kind, ns, before);
            }
            return Failure;
          }
          rcNames := rcNames + [rcName];
          entries := entries + [entry];
          assert EntryNames(entries) == rcNames;
        }
      }
      assert cfgs[..|cfgs|] == cfgs;
      return Success(rcNames);
    }

    /** Lists the claims in the container and in the pod. */
    method AttachClaims(container: Container, pod: Pod, rcNames: seq<string>)
      modifies container`claims, pod`resourceClaims
      ensures container.claims == old(container.claims) + rcNames
      ensures pod.resourceClaims == old(pod.resourceClaims) + PodClaims(settings.asTemplate, rcNames)
    {
      for k := 0 to |rcNames|
        invariant container.claims == old(container.claims) + rcNames[..k]
        invariant pod.resourceClaims == old(pod.resourceClaims) + PodClaims(settings.asTemplate, rcNames[..k])
      {
        assert rcNames[..k + 1] == rcNames[..k] + [rcNames[k]];
        var rcName := rcNames[k];
        container.claims := container.claims + [rcName];
        var podClaim := if settings.asTemplate then PodClaim(rcName, None, Some(rcName))
                        else PodClaim(rcName, Some(rcName), None);
        pod.resourceClaims := pod.resourceClaims + [podClaim];
      }
      assert rcNames[..|rcNames|] == rcNames;
    }

    /** The first i containers of the pod have been admitted, and their claims created. */
    ghost predicate Progress(pod: Pod, draw: Draw, i: nat, names: seq<string>, value: PodValue, a: Admitted,
                             before: Store)
      reads pod, pod.containers, client
    {
      && pod.Valid() && i <= |pod.containers| == |value.containers|
      && AdmitContainers(settings, client.slices, value, i, draw) == Success(a)
      && names == EntryNames(a.entries) && Fresh(settings.Kind(), value.namespace, a.entries, before)
      && client.objects == before + Stored(settings.Kind(), value.namespace, settings.asTemplate, a.entries)
      && pod.View() == value.(containers := pod.Views(),
                              resourceClaims := value.resourceClaims + PodClaims(settings.asTemplate, names))
      && (forall j | 0 <= j < i :: pod.containers[j].View() == a.containers[j])
      && (forall j | i <= j < |pod.containers| :: pod.containers[j].View() == value.containers[j])
    }

    /** The loop body of the admission. */
    method HandleNext(pod: Pod, draw: Draw, i: nat, rcNameList: seq<string>,
                      ghost value: PodValue, ghost admitted: Admitted, ghost before: Store)
      returns (ok: bool, names: seq<string>, ghost next: Admitted)
      requires i < |pod.containers| && Progress(pod, draw, i, rcNameList, value, admitted, before)
      modifies pod`resourceClaims, pod.containers, client
      ensures ok ==> Progress(pod, draw, i + 1, names, value, next, before)
      ensures !ok ==> client.objects == before
      ensures !ok && client.reliable ==>
        var a := Admit(settings, client.slices, value, draw);
        !(a.Success? && CanCreate(settings, value, a.value, before))
    {
      hide Fresh, Stored, Convert, AdmitContainers, EntryNames, PodClaims, Naming;
      ghost var kind, ns, slices := settings.Kind(), pod.namespace, client.slices;
      var container := pod.containers[i];
      assert container.View() == value.containers[i];
      ghost var c := ConvertContainer(settings, slices, value, i, draw);
      Undone(kind, ns, settings.asTemplate, admitted.entries, before);
      var rcNames := HandleContainer(container, pod, i, draw, rcNameList);
      if rcNames.Failure? {
        if client.reliable {
          if c.Success? { FreshMore(kind, ns, settings.asTemplate, admitted.entries, c.value.entries, before); }
          ContainerFails(settings, slices, value, i, draw, before);
        }
        UndoneAlready(kind, ns, admitted.entries, before);
        client.DeleteAll(settings.Kind(), pod.namespace, rcNameList);
        return false, [], admitted;
      }
      AttachClaims(container, pod, rcNames.value);
      names := rcNameList + rcNames.value;
      CreatedMore(kind, ns, settings.asTemplate, admitted.entries, c.value.entries, before);
      PodClaimsMore(settings.asTemplate, rcNameList, rcNames.value);
      AdmitOne(settings, slices, value, i, draw);
      next := AdmitContainers(settings, slices, value, i + 1, draw).value;
      assert container.View() == next.containers[i];
      return true, names, next;
    }

    /**
     The admission of a new pod. Whatever fails, at any container and config, the store is as it was;
     otherwise the pod and the store are exactly what the specification says, and a reliable server
     refuses a pod only if a conversion fails or a name is taken.
     */
    method Handle(pod: Pod, draw: Draw) returns (response: Response)
      requires pod.Valid()
      modifies pod, pod.containers, client
      ensures var before, value := old(client.objects), old(pod.View());
        var a := Admit(settings, client.slices, value, draw);
        && (response.Errored? ==> client.objects == before)
        && (!response.Errored? ==>
              && a.Success? && CanCreate(settings, value, a.value, before)
              && pod.View() == WithClaims(settings, value, a.value)
              && client.objects == before + Created(settings, value, a.value)
              && (response.Patched? <==> a.value.entries != []))
        && (client.reliable ==> (response.Errored? <==> !(a.Success? && CanCreate(settings, value, a.value, before))))
    {
      hide Fresh, Stored, AdmitContainers;
      ghost var before, value := client.objects, pod.View();
      ghost var admitted := Admitted([], []);
      var rcNameList: seq<string> := [];
      NothingStored(settings.Kind(), pod.namespace, settings.asTemplate);
      NothingIsFresh(settings.Kind(), pod.namespace, before);
      AdmitNone(settings, client.slices, value, draw);
      assert Progress(pod, draw, 0, rcNameList, value, admitted, before);
      for i := 0 to |pod.containers|
        invariant Progress(pod, draw, i, rcNameList, value, admitted, before)
      {
        var ok;
        ok, rcNameList, admitted := HandleNext(pod, draw, i, rcNameList, value, admitted, before);
        if !ok { return Errored; }
      }
      assert pod.Views() == admitted.containers;
      if rcNameList == [] {
        return Allowed;
      }
      pod.labels := pod.labels[DRA_LABEL := "true"];
      return Patched;
    }

    /** The loops over configs and names for one container that holds claims. */
    method StripContainer(container: Container) returns (found: bool)
      modifies container`limits, container`requests
      ensures container.Amounts() == old(container.Amounts()).Without(NamesIn(settings.configs))
      ensures found <==> Holds(NamesIn(settings.configs), old(container.Amounts()))
    {
      hide NamesIn, Holds;
      var cfgs := settings.configs;
      ghost var amounts := container.Amounts();
      ghost var gone: set<string> := {};
      found := false;
      NothingGone(amounts);
      for i := 0 to |cfgs|
        invariant gone == NamesIn(cfgs[..i])
        invariant container.Amounts() == amounts.Without(gone) && (found <==> Holds(gone, amounts))
      {
        var names := [cfgs[i].countName, cfgs[i].coreName, cfgs[i].memoryName, cfgs[i].percentageName];
        ghost var before := gone;
        assert before + NonEmpty(names[..0]) == before;
        for k := 0 to 4
          invariant gone == before + NonEmpty(names[..k])
          invariant container.Amounts() == amounts.Without(gone) && (found <==> Holds(gone, amounts))
        {
          var name := names[k];
          assert names[..k + 1] == names[..k] + [name];
          if name != "" {
            OneMoreGone(amounts, gone, name);
            if name in container.limits || name in container.requests {
              container.RemoveResource(name);
              found := true;
            }
            gone := gone + {name};
          }
        }
        assert names[..4] == names && cfgs[..i + 1] == cfgs[..i] + [cfgs[i]];
        NamesOfConfig(cfgs[..i], cfgs[i]);
      }
      assert cfgs[..|cfgs|] == cfgs;
    }

    /** Containers without claims are passed over. */
    method StripClaimed(container: Container) returns (found: bool)
      modifies container`limits, container`requests
      ensures container.View() == Stripped(settings.configs, old(container.View()))
      ensures found <==> HoldsConverted(settings.configs, old(container.View()))
    {
      hide NamesIn;
      if container.claims == [] { return false; }
      found := StripContainer(container);
    }

    /** The update path: converted resources are stripped again from containers that hold claims. */
    method HandleUpdate(pod: Pod) returns (response: Response)
      requires pod.Valid()
      modifies pod.containers
      ensures pod.View() == Updated(settings.configs, old(pod.View()))
      ensures response == if Found(settings.configs, old(pod.View())) then Patched else Allowed
    {
      hide Stripped, HoldsConverted;
      ghost var value := pod.View();
      var found := false;
      for i := 0 to |pod.containers|
        invariant found <==> exists j :: 0 <= j < i && HoldsConverted(settings.configs, value.containers[j])
        invariant forall j | 0 <= j < i :: pod.containers[j].View() == Stripped(settings.configs, value.containers[j])
        invariant forall j | i <= j < |pod.containers| :: pod.containers[j].View() == value.containers[j]
      {
        var container := pod.containers[i];
        assert container.View() == value.containers[i];
        var here := StripClaimed(container);
        found := found || here;
      }
      assert pod.Views() == Updated(settings.configs, value).containers;
      return if found then Patched else Allowed;
    }
  }

  ghost predicate Holds(names: set<string>, r: Resources) {
    exists x :: x in names && (x in r.limits || x in r.requests)
  }

  function NonEmpty(names: seq<string>): set<string> {
    set x | x in names && x != ""
  }

  lemma NothingGone(r: Resources)
    ensures NamesIn([]) == {} && r.Without({}) == r && !Holds({}, r)
  {
    assert r.limits - {} == r.limits && r.requests - {} == r.requests;
  }

  lemma OneMoreGone(r: Resources, gone: set<string>, name: string)
    ensures var now := r.Without(gone);
            && r.Without(gone + {name}) == now.Without({name})
            && (name !in now.limits && name !in now.requests ==>
                  now.Without({name}) == now && (Holds(gone + {name}, r) <==> Holds(gone, r)))
            && (name in now.limits || name in now.requests ==> Holds(gone + {name}, r))
  {
    var now := r.Without(gone);
    WithoutTwice(r, gone, {name});
    if name !in now.limits && name !in now.requests {
      assert now.limits - {name} == now.limits && now.requests - {name} == now.requests;
      if Holds(gone + {name}, r) {
        var x :| x in gone + {name} && (x in r.limits || x in r.requests);
        assert x in gone;
      }
      if Holds(gone, r) {
        var x :| x in gone && (x in r.limits || x in r.requests);
        assert x in gone + {name};
      }
    } else {
      assert name in gone + {name};
    }
  }

  lemma NamesOfConfig(cfgs: seq<DeviceConfig>, cfg: DeviceConfig)
    ensures NamesIn(cfgs + [cfg])
            == NamesIn(cfgs) + NonEmpty([cfg.countName, cfg.coreName, cfg.memoryName, cfg.percentageName])
  {
    hide NamesIn;
    SeenMore(cfgs, cfg);
    assert cfg.Names()[0] == cfg.countName && cfg.Names()[1] == cfg.memoryName;
    assert cfg.Names()[2] == cfg.coreName && cfg.Names()[3] == cfg.percentageName;
  }

  class ValidatingAdmission {
    const client: ApiServer

    constructor (client: ApiServer)
      ensures this.client == client
    {
      this.client := client;
    }

    /** Only a template with the DRA label is the webhook's own. */
    method DeleteResourceClaimTemplate(namespace: string, name: string)
      modifies client
      ensures client.objects == old(client.objects) -
        if LabelledTemplate(old(client.objects), namespace, name) then {Key(Template, namespace, name)} else {}
    {
      var key := Key(Template, namespace, name);
      if key !in client.objects { return; }
      if !client.objects[key].labelled { return; }
      client.Delete(key);
    }

    /** The deletion of a pod: its claims are known by their names, its templates by their label. */
    method Handle(pod: Pod)
      modifies client
      ensures client.objects == Remaining(old(client.objects), pod.View())
    {
      hide OwnsClaimName;
      if DRA_LABEL !in pod.labels { return; }
      ghost var before := client.objects;
      var claims, templates := ListedClaims(pod.resourceClaims), ListedTemplates(pod.resourceClaims);
      for i := 0 to |claims|
        invariant client.objects == before - OwnedKeys(claims[..i], pod.namespace, pod.name)
      {
        assert claims[..i + 1] == claims[..i] + [claims[i]];
        if OwnsClaimName(claims[i], pod.namespace, pod.name) {
          client.Delete(Key(Claim, pod.namespace, claims[i]));
        }
      }
      assert claims[..|claims|] == claims;
      ghost var owned := OwnedKeys(claims, pod.namespace, pod.name);
      for i := 0 to |templates|
        invariant client.objects == before - owned - LabelledKeys(templates[..i], pod.namespace, before)
      {
        assert templates[..i + 1] == templates[..i] + [templates[i]];
        DeleteResourceClaimTemplate(pod.namespace, templates[i]);
      }
      assert templates[..|templates|] == templates;
      assert Doomed(before, pod.View()) == owned + LabelledKeys(templates, pod.namespace, before);
    }
  }

  function ListedClaims(claims: seq<PodClaim>): (r: seq<string>)
    ensures forall n :: n in r <==> exists c :: c in claims && c.claim == Some(n)
  {
    if claims == [] then []
    else
      var n := |claims| - 1;
      assert claims == claims[..n] + [claims[n]];
      ListedClaims(claims[..n]) + if claims[n].claim.Some? then [claims[n].claim.value] else []
  }

  function ListedTemplates(claims: seq<PodClaim>): (r: seq<string>)
    ensures forall n :: n in r <==> exists c :: c in claims && c.template == Some(n)
  {
    if claims == [] then []
    else
      var n := |claims| - 1;
      assert claims == claims[..n] + [claims[n]];
      ListedTemplates(claims[..n]) + if claims[n].template.Some? then [claims[n].template.value] else []
  }

  ghost function OwnedKeys(names: seq<string>, namespace: string, owner: string): set<Key> {
    set n | n in names && OwnsClaimName(n, namespace, owner) :: Key(Claim, namespace, n)
  }

  ghost function LabelledKeys(names: seq<string>, namespace: string, store: Store): set<Key> {
    set n | n in names && LabelledTemplate(store, namespace, n) :: Key(Template, namespace, n)
  }

  /** A container that cannot be converted or created makes the whole pod fail. */
  lemma ContainerFails(s: Settings, slices: Option<seq<DriverSlice>>, pod: PodValue, i: nat, draw: Draw, store: Store)
    requires i < |pod.containers| && AdmitContainers(s, slices, pod, i, draw).Success?
    requires var c := ConvertContainer(s, slices, pod, i, draw);
             !(c.Success? && Fresh(s.Kind(), pod.namespace,
                                   AdmitContainers(s, slices, pod, i, draw).value.entries + c.value.entries, store))
    ensures var a := Admit(s, slices, pod, draw);
            !(a.Success? && CanCreate(s, pod, a.value, store))
  {
    hide ConvertContainer, AdmitContainers, Fresh;
    var a := Admit(s, slices, pod, draw);
    if a.Success? {
      AdmitPrefix(s, slices, pod, i + 1, |pod.containers|, draw);
      AdmitOne(s, slices, pod, i, draw);
      var e := AdmitContainers(s, slices, pod, i + 1, draw).value.entries;
      assert a.value.entries == e + a.value.entries[|e|..];
      if CanCreate(s, pod, a.value, store) {
        FreshPrefix(s.Kind(), pod.namespace, e, a.value.entries[|e|..], store);
      }
    }
  }

  lemma NothingIsFresh(kind: Kind, namespace: string, store: Store)
    ensures Fresh(kind, namespace, [], store)
  {
  }

  lemma RefusedFails(cfgs: seq<DeviceConfig>, ctx: Context, naming: DeviceConfig -> string, r: Resources, j: nat)
    requires j <= |cfgs| && Convert(cfgs[..j], ctx, naming, r).Failure?
    ensures Convert(cfgs, ctx, naming, r).Failure?
  {
    hide Convert;
    if Convert(cfgs, ctx, naming, r).Success? { ConvertPrefix(cfgs, ctx, naming, r, j); }
  }

  lemma TakenFails(cfgs: seq<DeviceConfig>, ctx: Context, naming: DeviceConfig -> string, r: Resources, j: nat,
                   kind: Kind, namespace: string, store: Store)
    requires j <= |cfgs| && Convert(cfgs[..j], ctx, naming, r).Success?
    requires !Fresh(kind, namespace, Convert(cfgs[..j], ctx, naming, r).value.entries, store)
    ensures Convert(cfgs, ctx, naming, r).Success? ==>
      !Fresh(kind, namespace, Convert(cfgs, ctx, naming, r).value.entries, store)
  {
    hide Convert;
    if Convert(cfgs, ctx, naming, r).Success? {
      ConvertPrefix(cfgs, ctx, naming, r, j);
      var a, b := Convert(cfgs[..j], ctx, naming, r).value.entries, Convert(cfgs, ctx, naming, r).value.entries;
      assert b == a + b[|a|..];
      if Fresh(kind, namespace, b, store) { FreshPrefix(kind, namespace, a, b[|a|..], store); }
    }
  }
}
