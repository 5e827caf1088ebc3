/** The admission handlers for Volcano jobs. */
module VolcanoWebhook {
  import opened Options
  import opened ClaimNames
  import opened DeviceConfigs
  import opened Capacities
  import opened ObjectStore
  import opened ClaimConversion
  import opened PodConversion
  import opened PodWebhook
  import opened VolcanoConversion

  class Task {
    const name: string
    const containers: seq<Container>
    var resourceClaims: seq<PodClaim>

    constructor (name: string, containers: seq<Container>, resourceClaims: seq<PodClaim>)
      ensures this.name == name && this.containers == containers && this.resourceClaims == resourceClaims
    {
      this.name, this.containers, this.resourceClaims := name, containers, resourceClaims;
    }

    ghost function Views(): (r: seq<ContainerValue>)
      reads containers
      ensures |r| == |containers|
    {
      seq(|containers|, i requires 0 <= i < |containers| reads containers => containers[i].View())
    }

    ghost function View(): TaskValue
      reads this, containers
    {
      TaskValue(name, Views(), resourceClaims)
    }

    ghost predicate Valid() {
      forall i, j | 0 <= i < j < |containers| :: containers[i] != containers[j]
    }
  }

  class Job {
    const namespace: string
    const name: string
    const tasks: seq<Task>
    var labels: map<string, string>

    constructor (namespace: string, name: string, tasks: seq<Task>, labels: map<string, string>)
      ensures this.namespace == namespace && this.name == name && this.tasks == tasks && this.labels == labels
    {
      this.namespace, this.name, this.tasks, this.labels := namespace, name, tasks, labels;
    }

    ghost function Containers(): (r: set<Container>)
      ensures forall i, c | 0 <= i < |tasks| && c in tasks[i].containers :: c in r
    {
      set t, c | t in tasks && c in t.containers :: c
    }

    ghost predicate Valid() {
      && (forall t | t in tasks :: t.Valid())
      && (forall i, j | 0 <= i < j < |tasks| :: tasks[i] != tasks[j])
      && (forall i, j, k | 0 <= i < |tasks| && 0 <= j < |tasks| && i != j && 0 <= k < |tasks[i].containers| ::
            tasks[i].containers[k] !in tasks[j].containers)
    }

    ghost function Views(): (r: seq<TaskValue>)
      reads tasks, Containers()
      ensures |r| == |tasks|
    {
      seq(|tasks|, i requires 0 <= i < |tasks| reads tasks, Containers() => tasks[i].View())
    }

    ghost function View(): JobValue
      reads this, tasks, Containers()
    {
      JobValue(namespace, name, labels, Views())
    }
  }

  class MutatingAdmission {
    const client: ApiServer
    const configs: seq<DeviceConfig>
    const hash: string -> Digest

    constructor (client: ApiServer, configs: seq<DeviceConfig>, hash: string -> Digest)
      ensures this.client == client && this.configs == configs && this.hash == hash
    {
      this.client, this.configs, this.hash := client, configs, hash;
    }

    /** The work of one config on a container, up to the creation of the template. */
    method BuildTemplate(container: Container, cfg: DeviceConfig) returns (turn: Turn)
      modifies container`limits, container`requests
      ensures turn == TurnOf(WithoutPercentage(cfg), JOB_CONTEXT, old(container.Amounts()))
      ensures turn.Skipped? ==> container.Amounts() == old(container.Amounts())
      ensures turn.Converted? ==> container.Amounts() == turn.rest
    {
      hide TurnOf, ConvertCores;
      if cfg.countName !in container.limits {
        NotAsked(WithoutPercentage(cfg), JOB_CONTEXT, container.Amounts());
        return Skipped;
      }
      JobTurn(cfg, container.Amounts());
      var request := PrimaryRequest(cfg);
      request := request.(count := container.limits[cfg.countName]);
      container.RemoveResource(cfg.countName);

      var capacity: map<string, int> := map[];
      if cfg.coreName in container.limits {
        var converted := ConvertCores(cfg, container.limits[cfg.coreName]);
        if converted.Failure? { return Refused; }
        capacity := capacity[cfg.EffectiveCoreCapacity() := converted.value];
        container.RemoveResource(cfg.coreName);
      }
      if cfg.memoryName in container.limits {
        var memory := ConvertMemory(container.limits[cfg.memoryName]);
        if memory.Failure? { return Refused; }
        capacity := capacity["memory" := memory.value];
        container.RemoveResource(cfg.memoryName);
      }
      return Converted(container.Amounts(), request.(capacity := capacity));
    }

    /** The loop over the configs. On a failure it reports the templates created so far, and leaves them. */
    method HandleContainerTemplate(container: Container, namespace: string, owner: string, ghost i: nat)
      returns (ok: bool, names: seq<string>, ghost entries: seq<Entry>)
      requires owner != ""
      modifies container, client
      ensures var s, before := JobSettings(configs, hash), old(client.objects);
        var c := Convert(s.configs, JOB_CONTEXT, Naming(hash, namespace, owner, container.name, i, NO_DRAW),
                         old(container.Amounts()));
        && names == EntryNames(entries) && Fresh(Template, namespace, entries, before)
        && client.objects == before + Stored(Template, namespace, false, entries)
        && (ok ==>
              && c == Success(Conversion(container.Amounts(), entries))
              && container.claims == old(container.claims) + names)
        && (!ok && client.reliable ==> !(c.Success? && Fresh(Template, namespace, c.value.entries, before)))
    {
      hide TurnOf, Fresh, Stored, Convert, ClaimName;
      ghost var cfgs := JobSettings(configs, hash).configs;
      ghost var naming := Naming(hash, namespace, owner, container.name, i, NO_DRAW);
      ghost var amounts, before, claims := container.Amounts(), client.objects, container.claims;
      names, entries := [], [];
      NothingStored(Template, namespace, false);
      assert cfgs[..0] == [];
      ConvertNone(JOB_CONTEXT, naming, amounts);
      NothingIsFresh(Template, namespace, before);
      for j := 0 to |configs|
        invariant Convert(cfgs[..j], JOB_CONTEXT, naming, amounts) == Success(Conversion(container.Amounts(), entries))
        invariant names == EntryNames(entries) && Fresh(Template, namespace, entries, before)
        invariant client.objects == before + Stored(Template, namespace, false, entries)
        invariant container.claims == claims + names
      {
        ConvertOne(cfgs, JOB_CONTEXT, naming, amounts, j);
        var turn := BuildTemplate(container, configs[j]);
        if turn.Refused? {
          RefusedFails(cfgs, JOB_CONTEXT, naming, amounts, j + 1);
          return false, names, entries;
        }
        if turn.Converted? {
          var name := ClaimName(namespace, owner, container.name, configs[j].Suffix(), hash);
          ghost var entry := Entry(name, turn.request);
          TemplateName(hash, namespace, owner, container.name, i, configs[j]);
          StoredOneMore(Template, namespace, false, entries, entry, before);
          var created := client.Create(Key(Template, namespace, name), Object([turn.request], false));
          if !created {
            if client.reliable {
              TakenFails(cfgs, JOB_CONTEXT, naming, amounts, j + 1, Template, namespace, before);
            }
            return false, names, entries;
          }
          container.claims := container.claims + [name];
          names, entries := names + [name], entries + [entry];
          assert names == EntryNames(entries);
        }
      }
      assert cfgs[..|configs|] == cfgs;
      ok := true;
    }

    /** The loop over the containers of a task, which also reports what was created before a failure. */
    method HandleTask(task: Task, namespace: string, jobName: string)
      returns (ok: bool, names: seq<string>, ghost entries: seq<Entry>)
      requires task.Valid()
      modifies task.containers, client
      ensures var s, before := JobSettings(configs, hash), old(client.objects);
        var a := Admit(s, NO_DEVICES, TaskPod(namespace, jobName, old(task.View())), NO_DRAW);
        && names == EntryNames(entries) && Fresh(Template, namespace, entries, before)
        && client.objects == before + Stored(Template, namespace, false, entries)
        && (ok ==> a == Success(Admitted(task.Views(), entries)))
        && (!ok && client.reliable ==> !(a.Success? && Fresh(Template, namespace, a.value.entries, before)))
    {
      hide Fresh, Stored, Convert, AdmitContainers, EntryNames, Naming;
      ghost var s, before := JobSettings(configs, hash), client.objects;
      ghost var pod := TaskPod(namespace, jobName, task.View());
      ghost var admitted := Admitted([], []);
      var owner := jobName + "-" + task.name;
      names := [];
      NothingStored(Template, namespace, false);
      NothingIsFresh(Template, namespace, before);
      AdmitNone(s, NO_DEVICES, pod, NO_DRAW);
      assert EntryNames([]) == [] by { NoNames(); }
      for i := 0 to |task.containers|
        invariant AdmitContainers(s, NO_DEVICES, pod, i, NO_DRAW) == Success(admitted)
        invariant names == EntryNames(admitted.entries) && Fresh(Template, namespace, admitted.entries, before)
        invariant client.objects == before + Stored(Template, namespace, false, admitted.entries)
        invariant forall j | 0 <= j < i :: task.containers[j].View() == admitted.containers[j]
        invariant forall j | i <= j < |task.containers| :: task.containers[j].View() == pod.containers[j]
      {
        var container := task.containers[i];
        assert container.View() == pod.containers[i];
        ghost var c := ConvertContainer(s, NO_DEVICES, pod, i, NO_DRAW);
        var done, more, made := HandleContainerTemplate(container, namespace, owner, i);
        CreatedMore(Template, namespace, false, admitted.entries, made, before);
        names := names + more;
        if !done {
          if client.reliable {
            if c.Success? { FreshMore(Template, namespace, false, admitted.entries, c.value.entries, before); }
            ContainerFails(s, NO_DEVICES, pod, i, NO_DRAW, before);
          }
          return false, names, admitted.entries + made;
        }
        AdmitOne(s, NO_DEVICES, pod, i, NO_DRAW);
        admitted := AdmitContainers(s, NO_DEVICES, pod, i + 1, NO_DRAW).value;
        assert container.View() == admitted.containers[i];
      }
      assert task.Views() == admitted.containers;
      return true, names, admitted.entries;
    }

    /** Lists the templates in the pod of a Volcano task. */
    method AttachTemplates(task: Task, names: seq<string>)
      modifies task`resourceClaims
      ensures task.resourceClaims == old(task.resourceClaims) + PodClaims(true, names)
    {
      for k := 0 to |names|
        invariant task.resourceClaims == old(task.resourceClaims) + PodClaims(true, names[..k])
      {
        assert names[..k + 1] == names[..k] + [names[k]];
        task.resourceClaims := task.resourceClaims + [PodClaim(names[k], None, Some(names[k]))];
      }
      assert names[..|names|] == names;
    }

    /** One task of a job: its conversion, and on success the listing of its templates. */
    method ConvertTask(job: Job, i: nat, draw: nat -> string)
      returns (ok: bool, names: seq<string>, ghost entries: seq<Entry>)
      requires job.Valid() && i < |job.tasks|
      modifies job.tasks[i], job.tasks[i].containers, client
      ensures var s, before, ns := JobSettings(configs, hash), old(client.objects), job.namespace;
        var t: Result<Admitted> := AdmitTask(s, old(job.View()), i, draw);
        var task := old(job.tasks[i].View());
        && names == EntryNames(entries) && Fresh(Template, ns, entries, before)
        && client.objects == before + Stored(Template, ns, false, entries)
        && (ok ==>
              && t.Success? && t.value.entries == entries
              && job.tasks[i].View()
                 == TaskValue(task.name, t.value.containers, task.resourceClaims + PodClaims(true, names)))
        && (!ok ==> job.tasks[i].resourceClaims == old(job.tasks[i].resourceClaims))
        && (!ok && client.reliable ==> !(t.Success? && Fresh(Template, ns, t.value.entries, before)))
      ensures forall j | 0 <= j < |job.tasks| && j != i :: job.tasks[j].View() == old(job.tasks[j].View())
    {
      hide Fresh, Stored, Admit, EntryNames, PodClaims;
      var task := job.tasks[i];
      OthersApart(job, i);
      var jobName := job.name;
      if jobName == "" { jobName := draw(i); }
      ok, names, entries := HandleTask(task, job.namespace, jobName);
      if ok { AttachTemplates(task, names); }
    }

    /** The first i tasks of the job have been admitted, and their templates created. */
    ghost predicate Progress(job: Job, draw: nat -> string, i: nat, names: seq<string>, value: JobValue,
                             a: AdmittedJob, before: Store)
      reads job, job.tasks, job.Containers(), client
    {
      && job.Valid() && i <= |job.tasks| == |value.tasks|
      && AdmitTasks(JobSettings(configs, hash), value, i, draw) == Success(a)
      && names == EntryNames(a.entries) && Fresh(Template, value.namespace, a.entries, before)
      && client.objects == before + Stored(Template, value.namespace, false, a.entries)
      && job.View() == value.(tasks := job.Views())
      && (forall j | 0 <= j < i :: job.tasks[j].View() == a.tasks[j])
      && (forall j | i <= j < |job.tasks| :: job.tasks[j].View() == value.tasks[j])
    }

    /** The loop body of the admission. */
    method HandleNext(job: Job, draw: nat -> string, i: nat, rctNameList: seq<string>,
                      ghost value: JobValue, ghost admitted: AdmittedJob, ghost before: Store)
      returns (ok: bool, names: seq<string>, ghost next: AdmittedJob)
      requires i < |job.tasks| && Progress(job, draw, i, rctNameList, value, admitted, before)
      modifies job.tasks, job.Containers(), client
      ensures ok ==> Progress(job, draw, i + 1, names, value, next, before)
      ensures !ok ==> client.objects == before
      ensures !ok && client.reliable ==>
        var a := AdmitJob(JobSettings(configs, hash), value, draw);
        !(a.Success? && Fresh(Template, value.namespace, a.value.entries, before))
    {
      hide Fresh, Stored, AdmitTask, AdmitTasks, EntryNames, PodClaims;
      ghost var ns, s := job.namespace, JobSettings(configs, hash);
      SameTask(s, job.View(), value, i, draw);
      ghost var t := AdmitTask(s, value, i, draw);
      var done, more, made := ConvertTask(job, i, draw);
      names := rctNameList + more;
      CreatedMore(Template, ns, false, admitted.entries, made, before);
      if !done {
        if client.reliable {
          if t.Success? { FreshMore(Template, ns, false, admitted.entries, t.value.entries, before); }
          TaskFails(s, value, i, draw, before);
        }
        Undone(Template, ns, false, admitted.entries + made, before);
        client.DeleteAll(Template, job.namespace, names);
        return false, [], admitted;
      }
      AdmitOneTask(s, value, i, draw);
      next := AdmitTasks(s, value, i + 1, draw).value;
      ok := true;
    }

    /**
     The admission of a new job. A failure anywhere leaves the store as it was; otherwise the job and the
     store are exactly what the specification says.
     */
    method Handle(job: Job, draw: nat -> string) returns (response: Response)
      requires job.Valid()
      modifies job, job.tasks, job.Containers(), client
      ensures var before, value, s := old(client.objects), old(job.View()), JobSettings(configs, hash);
        var a := AdmitJob(s, value, draw);
        && (response.Errored? ==> client.objects == before)
        && (!response.Errored? ==>
              && a.Success? && Fresh(Template, value.namespace, a.value.entries, before)
              && job.View() == WithTemplates(value, a.value)
              && client.objects == before + CreatedTemplates(value, a.value)
              && (response.Patched? <==> a.value.entries != []))
        && (client.reliable ==>
              (response.Errored? <==> !(a.Success? && Fresh(Template, value.namespace, a.value.entries, before))))
    {
      hide Fresh, Stored, AdmitTasks;
      ghost var before, value := client.objects, job.View();
      ghost var admitted := AdmittedJob([], []);
      var rctNameList: seq<string> := [];
      NothingStored(Template, job.namespace, false);
      NothingIsFresh(Template, job.namespace, before);
      NoTasks(JobSettings(configs, hash), value, draw);
      assert Progress(job, draw, 0, rctNameList, value, admitted, before);
      for i := 0 to |job.tasks|
        invariant Progress(job, draw, i, rctNameList, value, admitted, before)
      {
        var ok;
        ok, rctNameList, admitted := HandleNext(job, draw, i, rctNameList, value, admitted, before);
        if !ok { return Errored; }
      }
      assert job.Views() == admitted.tasks;
      if rctNameList == [] {
        return Allowed;
      }
      job.labels := job.labels[DRA_LABEL := "true"];
      return Patched;
    }
  }

  lemma OthersApart(job: Job, i: nat)
    requires job.Valid() && i < |job.tasks|
    ensures forall j, c | 0 <= j < |job.tasks| && j != i && c in job.tasks[j].containers ::
      c !in job.tasks[i].containers
  {
  }

  /** A task's admission depends on that task alone. */
  lemma SameTask(s: Settings, a: JobValue, b: JobValue, i: nat, draw: nat -> string)
    requires i < |a.tasks| && i < |b.tasks| && a.tasks[i] == b.tasks[i]
    requires a.namespace == b.namespace && a.name == b.name
    ensures AdmitTask(s, a, i, draw) == AdmitTask(s, b, i, draw)
  {
  }

  lemma NoTasks(s: Settings, job: JobValue, draw: nat -> string)
    ensures AdmitTasks(s, job, 0, draw) == Success(AdmittedJob([], []))
  {
  }

  /** One more task. */
  lemma AdmitOneTask(s: Settings, job: JobValue, i: nat, draw: nat -> string)
    requires i < |job.tasks| && AdmitTasks(s, job, i, draw).Success?
    ensures var a := AdmitTasks(s, job, i, draw).value;
            var task, t := job.tasks[i], AdmitTask(s, job, i, draw);
            AdmitTasks(s, job, i + 1, draw) ==
              if t.Failure? then Failure
              else Success(AdmittedJob(
                a.tasks + [TaskValue(task.name, t.value.containers,
                                     task.resourceClaims + PodClaims(true, EntryNames(t.value.entries)))],
                a.entries + t.value.entries))
  {
    hide AdmitTask;
  }

  /** A task that cannot be converted or created makes the whole job fail. */
  lemma TaskFails(s: Settings, job: JobValue, i: nat, draw: nat -> string, store: Store)
    requires i < |job.tasks| && AdmitTasks(s, job, i, draw).Success?
    requires var t := AdmitTask(s, job, i, draw);
             !(t.Success? && Fresh(Template, job.namespace,
                                   AdmitTasks(s, job, i, draw).value.entries + t.value.entries, store))
    ensures var a := AdmitJob(s, job, draw);
            !(a.Success? && Fresh(Template, job.namespace, a.value.entries, store))
  {
    hide AdmitTask, AdmitTasks, Fresh;
    var a := AdmitJob(s, job, draw);
    if a.Success? {
      AdmitTasksPrefix(s, job, i + 1, |job.tasks|, draw);
      AdmitOneTask(s, job, i, draw);
      var e := AdmitTasks(s, job, i + 1, draw).value.entries;
      assert a.value.entries == e + a.value.entries[|e|..];
      if Fresh(Template, job.namespace, a.value.entries, store) {
        FreshPrefix(Template, job.namespace, e, a.value.entries[|e|..], store);
      }
    }
  }

  lemma NoNames()
    ensures EntryNames([]) == []
  {
  }

  class ValidatingAdmission {
    const client: ApiServer

    constructor (client: ApiServer)
      ensures this.client == client
    {
      this.client := client;
    }

    /** The names of all claims listed in the Volcano tasks. */
    method GetResourceClaimName(job: Job) returns (names: seq<string>)
      ensures forall x :: x in names <==> Listed(job.View().tasks, x)
    {
      names := [];
      for i := 0 to |job.tasks|
        invariant forall x :: x in names <==> Listed(job.Views()[..i], x)
      {
        var task := job.tasks[i];
        assert job.Views()[i] == task.View();
        ghost var before := names;
        for k := 0 to |task.resourceClaims|
          invariant forall x :: x in names <==>
            x in before || Mentions(task.resourceClaims[..k], x)
        {
          assert task.resourceClaims[..k + 1] == task.resourceClaims[..k] + [task.resourceClaims[k]];
          names := names + [task.resourceClaims[k].name];
        }
        assert task.resourceClaims[..|task.resourceClaims|] == task.resourceClaims;
        assert job.Views()[..i + 1] == job.Views()[..i] + [task.View()];
      }
      assert job.Views()[..|job.tasks|] == job.Views();
    }

    /** The deletion of a job: its templates are known by their names. */
    method Handle(job: Job)
      modifies client
      ensures client.objects == JobRemaining(old(client.objects), job.View())
    {
      hide OwnsClaimName;
      if DRA_LABEL !in job.labels { return; }
      ghost var before, value := client.objects, job.View();
      var names := GetResourceClaimName(job);
      assert job.View() == value;
      OwnedAreDoomed(value, names);
      for i := 0 to |names|
        invariant job.View() == value
        invariant client.objects == before - OwnedTemplates(names[..i], job.namespace, job.name)
      {
        assert names[..i + 1] == names[..i] + [names[i]];
        if OwnsClaimName(names[i], job.namespace, job.name) {
          client.Delete(Key(Template, job.namespace, names[i]));
        }
      }
      assert names[..|names|] == names;
    }
  }

  ghost function OwnedTemplates(names: seq<string>, namespace: string, owner: string): set<Key> {
    set n | n in names && OwnsClaimName(n, namespace, owner) :: Key(Template, namespace, n)
  }

  lemma OwnedAreDoomed(job: JobValue, names: seq<string>)
    requires forall x :: x in names <==> Listed(job.tasks, x)
    ensures OwnedTemplates(names, job.namespace, job.name) == DoomedTemplates(job)
  {
    hide OwnsClaimName, Listed, DoomedTemplates;
    forall k ensures k in OwnedTemplates(names, job.namespace, job.name) <==> k in DoomedTemplates(job) {
      DoomedIff(job, k);
    }
  }
}
