/**
 Volcano jobs as values. A Volcano task is translated as a pod named after the job and itself would be, without
 annotations, in a cluster that publishes no devices, by configs without memory percentages.
 */
module VolcanoConversion {
  import opened Options
  import opened ClaimNames
  import opened DeviceConfigs
  import opened Selectors
  import opened Capacities
  import opened ObjectStore
  import opened ClaimConversion
  import opened PodConversion

  datatype TaskValue = TaskValue(name: string, containers: seq<ContainerValue>, resourceClaims: seq<PodClaim>)

  datatype JobValue = JobValue(namespace: string, name: string, labels: map<string, string>, tasks: seq<TaskValue>)

  const NO_DEVICES: Option<seq<DriverSlice>> := Some([])
  const JOB_CONTEXT := Context(map[], NO_DEVICES)
  const NO_DRAW: Draw := (i, cfg) => ""

  function WithoutPercentage(cfg: DeviceConfig): DeviceConfig {
    cfg.(percentageName := "")
  }

  function JobSettings(configs: seq<DeviceConfig>, hash: string -> Digest): Settings {
    Settings(seq(|configs|, i requires 0 <= i < |configs| => WithoutPercentage(configs[i])), true, hash)
  }

  /******* The context of a job *******/

  lemma NothingPublished(cfg: DeviceConfig)
    ensures WithReference(cfg, NO_DEVICES) == Success(cfg)
  {
    assert CapacityValues([], cfg, "computeUnits") == {};
    assert Sizes(NO_DEVICES, cfg, "computeUnits") == Success([]);
  }

  /** The core and memory capacities, without a derived reference. */
  function JobCapacity(cfg: DeviceConfig, limits: map<string, int>): Result<map<string, int>> {
    if cfg.coreName !in limits then Success(map[]) else
      match ConvertCores(cfg, limits[cfg.coreName])
      case Failure => Failure
      case Success(units) => Success(map[cfg.EffectiveCoreCapacity() := units])
  }

  /** A job's config asks for a count, cores and memory, and leaves a percentage limit in place. */
  lemma JobTurn(cfg: DeviceConfig, r: Resources)
    requires cfg.countName in r.limits
    ensures TurnOf(WithoutPercentage(cfg), JOB_CONTEXT, r) ==
      var counted := r.Without({cfg.countName});
      match JobCapacity(cfg, counted.limits) {
        case Failure => Refused
        case Success(core) =>
          var cored := WithoutIf(counted, cfg.coreName, cfg.coreName in counted.limits);
          match MemoryCapacity(cfg, cored.limits, core) {
            case Failure => Refused
            case Success(capacity) => Converted(
              WithoutIf(cored, cfg.memoryName, cfg.memoryName in cored.limits),
              PrimaryRequest(cfg).(count := r.limits[cfg.countName], capacity := capacity))
          }
      }
  {
    hide WithReference, AnnotationSelectors, ConvertCores, ConvertMemory, TypeSelector;
    var job := WithoutPercentage(cfg);
    NothingPublished(job);
    NoAnnotations(job);
    SameConversions(cfg);
    assert PrimaryRequest(job).selectors + [] == PrimaryRequest(job).selectors;
  }

  lemma SameConversions(cfg: DeviceConfig)
    ensures forall x :: ConvertCores(WithoutPercentage(cfg), x) == ConvertCores(cfg, x)
    ensures PrimaryRequest(WithoutPercentage(cfg)) == PrimaryRequest(cfg)
    ensures WithoutPercentage(cfg).EffectiveCoreCapacity() == cfg.EffectiveCoreCapacity()
  {
  }

  lemma TemplateName(hash: string -> Digest, namespace: string, owner: string, container: string, i: nat,
                     cfg: DeviceConfig)
    requires owner != ""
    ensures Naming(hash, namespace, owner, container, i, NO_DRAW)(WithoutPercentage(cfg))
            == ClaimName(namespace, owner, container, cfg.Suffix(), hash)
  {
    assert WithoutPercentage(cfg).Suffix() == cfg.Suffix();
  }

  /** The configs of a job are as apart as those of a pod. */
  lemma JobConfigsApart(configs: seq<DeviceConfig>, hash: string -> Digest, limits: map<string, int>)
    ensures NamesDistinct(configs) ==> NamesDistinct(JobSettings(configs, hash).configs)
    ensures Admissible(configs) ==> Admissible(JobSettings(configs, hash).configs)
    ensures UsedOnce(configs, limits) ==> UsedOnce(JobSettings(configs, hash).configs, limits)
  {
    var job := JobSettings(configs, hash).configs;
    forall i | 0 <= i < |job|
      ensures forall k | 0 <= k < 3 :: job[i].Names()[k] == configs[i].Names()[k]
      ensures job[i].Names()[3] == ""
      ensures job[i].countName == configs[i].countName && job[i].Suffix() == configs[i].Suffix()
    {
    }
    assert forall i, k | ReadsLimit(job, limits, i, k) :: k < 3 && ReadsLimit(configs, limits, i, k);
  }

  /******* Admission *******/

  /** A Volcano task as a pod; `owner` is the job's name, or a random segment for a job without one. */
  function TaskPod(namespace: string, owner: string, task: TaskValue): PodValue {
    PodValue(namespace, owner + "-" + task.name, map[], map[], task.containers, task.resourceClaims)
  }

  function OwnerName(job: JobValue, i: nat, draw: nat -> string): string {
    if job.name == "" then draw(i) else job.name
  }

  ghost function AdmitTask(s: Settings, job: JobValue, i: nat, draw: nat -> string): Result<Admitted>
    requires i < |job.tasks|
  {
    Admit(s, NO_DEVICES, TaskPod(job.namespace, OwnerName(job, i, draw), job.tasks[i]), NO_DRAW)
  }

  datatype AdmittedJob = AdmittedJob(tasks: seq<TaskValue>, entries: seq<Entry>)

  /** The first n tasks, one after the other. */
  ghost function AdmitTasks(s: Settings, job: JobValue, n: nat, draw: nat -> string): (r: Result<AdmittedJob>)
    requires n <= |job.tasks|
    ensures r.Success? ==> |r.value.tasks| == n
  {
    if n == 0 then Success(AdmittedJob([], []))
    else
      match AdmitTasks(s, job, n - 1, draw)
      case Failure => Failure
      case Success(a) =>
        match AdmitTask(s, job, n - 1, draw)
        case Failure => Failure
        case Success(t) =>
          var task := job.tasks[n - 1];
          Success(AdmittedJob(
            a.tasks + [TaskValue(task.name, t.containers,
                                 task.resourceClaims + PodClaims(true, EntryNames(t.entries)))],
            a.entries + t.entries))
  }

  ghost function AdmitJob(s: Settings, job: JobValue, draw: nat -> string): Result<AdmittedJob> {
    AdmitTasks(s, job, |job.tasks|, draw)
  }

  function WithTemplates(job: JobValue, a: AdmittedJob): JobValue {
    job.(tasks := a.tasks, labels := if a.entries == [] then job.labels else job.labels[DRA_LABEL := "true"])
  }

  /** Unlike those of pods, the templates made for a job carry no label. */
  function CreatedTemplates(job: JobValue, a: AdmittedJob): Store {
    Stored(Template, job.namespace, false, a.entries)
  }

  lemma {:induction false} AdmitTasksPrefix(s: Settings, job: JobValue, n: nat, m: nat, draw: nat -> string)
    requires n <= m <= |job.tasks| && AdmitTasks(s, job, m, draw).Success?
    ensures AdmitTasks(s, job, n, draw).Success?
    ensures AdmitTasks(s, job, n, draw).value.entries <= AdmitTasks(s, job, m, draw).value.entries
  {
    hide AdmitTask;
    if n < m { AdmitTasksPrefix(s, job, n, m - 1, draw); }
  }

  /**
   A container of an admitted Volcano task gets the claims that its original limits ask for, and keeps
   these limits without the converted names.
   */
  lemma TaskAtOnce(configs: seq<DeviceConfig>, hash: string -> Digest, job: JobValue, t: nat, i: nat,
                   draw: nat -> string)
    requires t < |job.tasks| && i < |job.tasks[t].containers|
    requires AdmitTask(JobSettings(configs, hash), job, t, draw).Success?
    requires UsedOnce(configs, job.tasks[t].containers[i].resources.limits)
    ensures var s, c := JobSettings(configs, hash), job.tasks[t].containers[i];
            var owner := OwnerName(job, t, draw) + "-" + job.tasks[t].name;
            var naming := Naming(hash, job.namespace, owner, c.name, i, NO_DRAW);
            var wanted := WantedEntries(s.configs, JOB_CONTEXT, naming, c.resources.limits);
            && wanted.Success?
            && AdmitTask(s, job, t, draw).value.containers[i]
               == ContainerValue(c.name, c.resources.Without(TakenBy(s.configs, c.resources.limits)),
                                 c.claims + EntryNames(wanted.value))
  {
    hide UsedOnce, Convert, WantedEntries, TakenBy, AdmitContainers;
    var s, c := JobSettings(configs, hash), job.tasks[t].containers[i];
    var pod := TaskPod(job.namespace, OwnerName(job, t, draw), job.tasks[t]);
    JobConfigsApart(configs, hash, c.resources.limits);
    AdmittedAt(s, NO_DEVICES, pod, |pod.containers|, i, NO_DRAW);
    ConvertAtOnce(s.configs, JOB_CONTEXT, Naming(hash, job.namespace, pod.name, c.name, i, NO_DRAW), c.resources);
  }

  /******* Deletion *******/

  /** The listed names, of claims of any sort, that look like the job's templates. */
  function DoomedTemplates(job: JobValue): set<Key> {
    set t, c | t in job.tasks && c in t.resourceClaims && OwnsClaimName(c.name, job.namespace, job.name)
      :: Key(Template, job.namespace, c.name)
  }

  function JobRemaining(store: Store, job: JobValue): Store {
    if DRA_LABEL in job.labels then store - DoomedTemplates(job) else store
  }

  /** The names the entries have. */
  lemma {:induction false} ContainerNamed(s: Settings, pod: PodValue, n: nat, job: string, task: string)
    requires job != "" && job[|job| - 1] != '-' && pod.name == job + "-" + task
    requires n <= |pod.containers| && AdmitContainers(s, NO_DEVICES, pod, n, NO_DRAW).Success?
    ensures forall e | e in AdmitContainers(s, NO_DEVICES, pod, n, NO_DRAW).value.entries ::
      OwnsClaimName(e.name, pod.namespace, job)
  {
    hide Convert, OwnsClaimName;
    if n > 0 {
      ContainerNamed(s, pod, n - 1, job, task);
      var c := pod.containers[n - 1];
      var naming := Naming(s.hash, pod.namespace, pod.name, c.name, n - 1, NO_DRAW);
      forall cfg: DeviceConfig ensures OwnsClaimName(naming(cfg), pod.namespace, job) {
        TemplateOwned(pod.namespace, job, task, c.name, cfg.Suffix(), s.hash);
      }
      EntriesNamed(s.configs, Context(pod.annotations, NO_DEVICES), naming, c.resources);
    }
  }

  /** A template's name is recognised as the job's. */
  lemma TemplateOwned(namespace: string, job: string, task: string, container: string, suffix: string,
                      hash: string -> Digest)
    requires job != "" && job[|job| - 1] != '-'
    ensures OwnsClaimName(ClaimName(namespace, job + "-" + task, container, suffix, hash), namespace, job)
  {
    var a := namespace + "-" + (job + "-" + task) + "-" + container;
    var b := namespace + "-" + job + "-" + (task + "-" + container);
    assert a == b;
    OwnershipComplete(namespace, job, task + "-" + container, suffix, hash);
  }

  lemma {:induction false} TemplatesOwned(s: Settings, job: JobValue, n: nat, draw: nat -> string)
    requires job.name != "" && job.name[|job.name| - 1] != '-'
    requires n <= |job.tasks| && AdmitTasks(s, job, n, draw).Success?
    ensures forall e | e in AdmitTasks(s, job, n, draw).value.entries :: OwnsClaimName(e.name, job.namespace, job.name)
  {
    hide OwnsClaimName, AdmitContainers;
    if n > 0 {
      TemplatesOwned(s, job, n - 1, draw);
      var task := job.tasks[n - 1];
      ContainerNamed(s, TaskPod(job.namespace, job.name, task), |task.containers|, job.name, task.name);
    }
  }

  predicate Mentions(claims: seq<PodClaim>, x: string) {
    exists c :: c in claims && c.name == x
  }

  /** Some Volcano task lists a claim under the name. */
  ghost predicate Listed(tasks: seq<TaskValue>, x: string) {
    exists t :: t in tasks && Mentions(t.resourceClaims, x)
  }

  lemma ListedMore(tasks: seq<TaskValue>, t: TaskValue, x: string)
    ensures Listed(tasks + [t], x) <==> Listed(tasks, x) || Mentions(t.resourceClaims, x)
  {
    hide Mentions;
    if Listed(tasks, x) {
      var u :| u in tasks && Mentions(u.resourceClaims, x);
      assert u in tasks + [t];
    }
    assert t in tasks + [t];
  }

  lemma MentionsMore(claims: seq<PodClaim>, names: seq<string>, x: string)
    ensures Mentions(claims + PodClaims(true, names), x) <==> Mentions(claims, x) || x in names
  {
    var added := PodClaims(true, names);
    if x in names {
      var i :| 0 <= i < |names| && names[i] == x;
      assert added[i] in claims + added && added[i].name == x;
    }
    if Mentions(claims, x) {
      var c :| c in claims && c.name == x;
      assert c in claims + added;
    }
    if Mentions(claims + added, x) {
      var c :| c in claims + added && c.name == x;
      assert c in claims || c in added;
    }
  }

  /** The admitted job lists its own claims and one for every template made. */
  lemma {:induction false} ListedAre(s: Settings, job: JobValue, n: nat, draw: nat -> string, x: string)
    requires n <= |job.tasks| && AdmitTasks(s, job, n, draw).Success?
    ensures var a := AdmitTasks(s, job, n, draw).value;
            Listed(a.tasks, x) <==> Listed(job.tasks[..n], x) || x in EntryNames(a.entries)
  {
    hide AdmitTask, Listed, PodClaims;
    if n == 0 {
      assert job.tasks[..0] == [];
      assert !Listed([], x) by { NothingListed(x); }
    } else {
      ListedAre(s, job, n - 1, draw, x);
      var a, b := AdmitTasks(s, job, n - 1, draw).value, AdmitTasks(s, job, n, draw).value;
      var t, task := AdmitTask(s, job, n - 1, draw).value, job.tasks[n - 1];
      var names := EntryNames(t.entries);
      assert EntryNames(b.entries) == EntryNames(a.entries) + names;
      assert job.tasks[..n] == job.tasks[..n - 1] + [task];
      MentionsMore(task.resourceClaims, names, x);
      ListedMore(job.tasks[..n - 1], task, x);
      ListedMore(a.tasks, b.tasks[n - 1], x);
    }
  }

  lemma NothingListed(x: string)
    ensures !Listed([], x)
  {
  }

  lemma DoomedIff(job: JobValue, k: Key)
    ensures k in DoomedTemplates(job) <==>
      && k.kind == Template && k.namespace == job.namespace
      && Listed(job.tasks, k.name) && OwnsClaimName(k.name, job.namespace, job.name)
  {
    hide OwnsClaimName;
    if k in DoomedTemplates(job) {
      var t, c :| t in job.tasks && c in t.resourceClaims && k == Key(Template, job.namespace, c.name);
      assert Mentions(t.resourceClaims, k.name);
    }
    if Listed(job.tasks, k.name) {
      var t :| t in job.tasks && Mentions(t.resourceClaims, k.name);
      var c :| c in t.resourceClaims && c.name == k.name;
      assert c in t.resourceClaims;
    }
  }

  /** The store holds no template that the job's deletion would take. */
  predicate JobSpares(store: Store, job: JobValue) {
    forall t, c | t in job.tasks && c in t.resourceClaims ::
      OwnsClaimName(c.name, job.namespace, job.name) ==> Key(Template, job.namespace, c.name) !in store
  }

  lemma JobSparesIff(job: JobValue, store: Store)
    ensures JobSpares(store, job) <==> DoomedTemplates(job) !! store.Keys
  {
    hide OwnsClaimName;
  }

  /**
   Deleting an admitted job takes away exactly what its admission created, whatever else happened in
   between, if and only if no claim the user listed is named like a template of the job.
   */
  lemma JobDeletionIff(s: Settings, job: JobValue, draw: nat -> string, between: Store)
    requires job.name != "" && job.name[|job.name| - 1] != '-'
    requires AdmitJob(s, job, draw).Success?
    requires Includes(between, CreatedTemplates(job, AdmitJob(s, job, draw).value))
    ensures var a := AdmitJob(s, job, draw).value;
            var others := between - CreatedTemplates(job, a).Keys;
            JobRemaining(between, WithTemplates(job, a)) == others
            <==> DRA_LABEL !in WithTemplates(job, a).labels || JobSpares(others, job)
  {
    hide OwnsClaimName, Stored, AdmitTasks, Listed, DoomedTemplates;
    var n := |job.tasks|;
    var a := AdmitJob(s, job, draw).value;
    TemplatesOwned(s, job, n, draw);
    assert job.tasks[..n] == job.tasks;
    StoredKeys(Template, job.namespace, false, a.entries);
    var after, created := WithTemplates(job, a), CreatedTemplates(job, a).Keys;
    forall x | x in EntryNames(a.entries) ensures OwnsClaimName(x, job.namespace, job.name) {
      var i :| 0 <= i < |a.entries| && a.entries[i].name == x;
      assert a.entries[i] in a.entries;
    }
    forall k ensures k in DoomedTemplates(after) <==> k in DoomedTemplates(job) || k in created {
      DoomedIff(after, k);
      DoomedIff(job, k);
      ListedAre(s, job, n, draw, k.name);
    }
    assert DoomedTemplates(after) == DoomedTemplates(job) + created;
    JobSparesIff(job, between - created);
    if DRA_LABEL !in after.labels {
      assert a.entries == [] && created == {};
      assert between - {} == between;
    } else {
      assert between - (DoomedTemplates(job) + created) == between - created - DoomedTemplates(job);
    }
  }

  lemma JobRoundTripIff(s: Settings, job: JobValue, draw: nat -> string, store: Store)
    requires job.name != "" && job.name[|job.name| - 1] != '-'
    requires AdmitJob(s, job, draw).Success?
    requires Fresh(Template, job.namespace, AdmitJob(s, job, draw).value.entries, store)
    ensures var a := AdmitJob(s, job, draw).value;
            JobRemaining(store + CreatedTemplates(job, a), WithTemplates(job, a)) == store
            <==> DRA_LABEL !in WithTemplates(job, a).labels || JobSpares(store, job)
  {
    hide AdmitJob, JobSpares, Stored, JobRemaining;
    var a := AdmitJob(s, job, draw).value;
    StoredKeys(Template, job.namespace, false, a.entries);
    Undone(Template, job.namespace, false, a.entries, store);
    JobDeletionIff(s, job, draw, store + CreatedTemplates(job, a));
  }
}
