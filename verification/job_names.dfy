/** When the templates of one Volcano job take different names. */
module JobNames {
  import opened Options
  import opened ClaimNames
  import opened DeviceConfigs
  import opened Capacities
  import opened ObjectStore
  import opened ClaimConversion
  import opened ConversionOrder
  import opened PodConversion
  import opened PodNames
  import opened VolcanoConversion

  /** The pod that Volcano task t is translated as. */
  function TaskPodAt(job: JobValue, draw: nat -> string, t: nat): PodValue
    requires t < |job.tasks|
  {
    TaskPod(job.namespace, OwnerName(job, t, draw), job.tasks[t])
  }

  /** Container i of Volcano task t asks for the device of config j. */
  predicate AskedBy(s: Settings, job: JobValue, t: int, i: int, j: int) {
    && 0 <= t < |job.tasks| && 0 <= i < |job.tasks[t].containers| && 0 <= j < |s.configs|
    && s.configs[j].countName in job.tasks[t].containers[i].resources.limits
  }

  /** A template's name joins the two names with a dash, like all its parts. */
  function Joined(job: JobValue, t: nat, i: nat): string
    requires t < |job.tasks| && i < |job.tasks[t].containers|
  {
    job.tasks[t].name + "-" + job.tasks[t].containers[i].name
  }

  function TemplateRaw(s: Settings, job: JobValue, draw: nat -> string, t: nat, i: nat, j: nat): string
    requires t < |job.tasks| && i < |job.tasks[t].containers| && j < |s.configs|
  {
    RawName(job.namespace, OwnerName(job, t, draw), Joined(job, t, i), s.configs[j].Suffix())
  }

  function TemplateAt(s: Settings, job: JobValue, draw: nat -> string, t: nat, i: nat, j: nat): string
    requires t < |job.tasks| && i < |job.tasks[t].containers| && j < |s.configs|
  {
    NameAt(s, TaskPodAt(job, draw, t), NO_DRAW, i, j)
  }

  lemma TemplateAtIs(s: Settings, job: JobValue, draw: nat -> string, t: nat, i: nat, j: nat)
    requires t < |job.tasks| && i < |job.tasks[t].containers| && j < |s.configs|
    ensures TemplateAt(s, job, draw, t, i, j) == Truncate(TemplateRaw(s, job, draw, t, i, j), s.hash)
  {
    var owner, task, c := OwnerName(job, t, draw), job.tasks[t].name, job.tasks[t].containers[i].name;
    NameAtIs(s, TaskPodAt(job, draw, t), NO_DRAW, i, j);
    var a := job.namespace + "-" + (owner + "-" + task) + "-" + c;
    var b := job.namespace + "-" + owner + "-" + (task + "-" + c);
    assert a == b;
  }

  ghost predicate JobSegmentsDrawn(s: Settings, job: JobValue, draw: nat -> string) {
    job.name == "" ==> forall t, i, j | AskedBy(s, job, t, i, j) :: |draw(t)| == SEGMENT
  }

  ghost predicate JobHashesApart(s: Settings, job: JobValue, draw: nat -> string) {
    forall t, i, j, u, k, l | AskedBy(s, job, t, i, j) && AskedBy(s, job, u, k, l) ::
      TemplateRaw(s, job, draw, t, i, j) != TemplateRaw(s, job, draw, u, k, l) ==>
        Distinguished(TemplateRaw(s, job, draw, t, i, j), TemplateRaw(s, job, draw, u, k, l), s.hash)
  }

  /** Two containers of one owner that ask for the same device have different joined names. */
  ghost predicate JoinedApart(s: Settings, job: JobValue, draw: nat -> string) {
    forall t, i, u, k, j | AskedBy(s, job, t, i, j) && AskedBy(s, job, u, k, j) ::
      OwnerName(job, t, draw) == OwnerName(job, u, draw) && Joined(job, t, i) == Joined(job, u, k) ==> t == u && i == k
  }

  ghost predicate TemplatesApart(s: Settings, job: JobValue, draw: nat -> string) {
    forall t, i, j, u, k, l | AskedBy(s, job, t, i, j) && AskedBy(s, job, u, k, l) ::
      TemplateAt(s, job, draw, t, i, j) == TemplateAt(s, job, draw, u, k, l) ==> t == u && i == k && j == l
  }

  lemma TemplatesAreApart(s: Settings, job: JobValue, draw: nat -> string)
    requires SuffixesApart(s.configs) && JoinedApart(s, job, draw)
    requires JobSegmentsDrawn(s, job, draw) && JobHashesApart(s, job, draw)
    ensures TemplatesApart(s, job, draw)
  {
    hide Truncate, RawName, Separates, Distinguished, TemplateAt;
    forall t, i, j, u, k, l |
      && AskedBy(s, job, t, i, j) && AskedBy(s, job, u, k, l)
      && TemplateAt(s, job, draw, t, i, j) == TemplateAt(s, job, draw, u, k, l)
      ensures t == u && i == k && j == l
    {
      var x, y := TemplateRaw(s, job, draw, t, i, j), TemplateRaw(s, job, draw, u, k, l);
      TemplateAtIs(s, job, draw, t, i, j);
      TemplateAtIs(s, job, draw, u, k, l);
      if x != y { TruncationApart(x, y, s.hash); }
      RawNamesInjective(job.namespace, OwnerName(job, t, draw), Joined(job, t, i), s.configs[j].Suffix(),
                        OwnerName(job, u, draw), Joined(job, u, k), s.configs[l].Suffix());
    }
  }

  /******* Names apart, entries apart *******/

  ghost predicate NamedInJob(s: Settings, job: JobValue, draw: nat -> string, n: nat, name: string) {
    exists t, i, j :: t < n && AskedBy(s, job, t, i, j) && name == TemplateAt(s, job, draw, t, i, j)
  }

  lemma {:induction false} JobEntryNames(s: Settings, job: JobValue, n: nat, draw: nat -> string)
    requires n <= |job.tasks| && AdmitTasks(s, job, n, draw).Success?
    requires TemplatesApart(s, job, draw)
    ensures var entries := AdmitTasks(s, job, n, draw).value.entries;
            DistinctNames(entries) && forall e | e in entries :: NamedInJob(s, job, draw, n, e.name)
  {
    hide AdmitContainers, NameAt;
    if n > 0 {
      JobEntryNames(s, job, n - 1, draw);
      var t := n - 1;
      var before, more := AdmitTasks(s, job, t, draw).value.entries, AdmitTask(s, job, t, draw).value.entries;
      var pod := TaskPodAt(job, draw, t);
      TaskNamesApart(s, job, draw, t);
      PodEntryNames(s, NO_DEVICES, pod, |pod.containers|, NO_DRAW);
      forall e | e in more
        ensures exists i, j :: AskedBy(s, job, t, i, j) && e.name == TemplateAt(s, job, draw, t, i, j)
        ensures NamedInJob(s, job, draw, n, e.name)
      {
        var i, j :| Requested(s, pod, i, j) && e.name == NameAt(s, pod, NO_DRAW, i, j);
        assert AskedBy(s, job, t, i, j) && e.name == TemplateAt(s, job, draw, t, i, j);
      }
      forall e | e in before ensures NamedInJob(s, job, draw, n, e.name) {
        var u, i, j :| u < t && AskedBy(s, job, u, i, j) && e.name == TemplateAt(s, job, draw, u, i, j);
        assert u < n;
      }
      forall k, l | 0 <= k < |before| && 0 <= l < |more| ensures before[k].name != more[l].name {
        assert before[k] in before && more[l] in more;
      }
    }
  }

  lemma TaskNamesApart(s: Settings, job: JobValue, draw: nat -> string, t: nat)
    requires t < |job.tasks| && TemplatesApart(s, job, draw)
    ensures NamesApart(s, TaskPodAt(job, draw, t), NO_DRAW)
  {
    hide NameAt;
    var pod := TaskPodAt(job, draw, t);
    forall i, j, k, l |
      && Requested(s, pod, i, j) && Requested(s, pod, k, l)
      && NameAt(s, pod, NO_DRAW, i, j) == NameAt(s, pod, NO_DRAW, k, l)
      ensures i == k && j == l
    {
      assert AskedBy(s, job, t, i, j) && AskedBy(s, job, t, k, l);
      assert TemplateAt(s, job, draw, t, i, j) == TemplateAt(s, job, draw, t, k, l);
    }
  }

  /******* Names shared, entries shared *******/

  predicate Named(entries: seq<Entry>, name: string) {
    exists e :: e in entries && e.name == name
  }

  /** A requested config makes a claim under its name. */
  lemma ContainerHas(s: Settings, slices: Option<seq<DriverSlice>>, pod: PodValue, draw: Draw, i: nat, j: nat)
    requires Admissible(s.configs) && Requested(s, pod, i, j)
    requires ConvertContainer(s, slices, pod, i, draw).Success?
    ensures Named(ConvertContainer(s, slices, pod, i, draw).value.entries, NameAt(s, pod, draw, i, j))
  {
    hide Admissible, Convert, TurnOf, TakenBy, Naming, MadeAt;
    var c := pod.containers[i];
    var ctx, r := Context(pod.annotations, slices), c.resources;
    var naming := Naming(s.hash, pod.namespace, pod.name, c.name, i, draw);
    AdmissibleKeepsCounts(s.configs, r.limits);
    ConvertMeaning(s.configs, ctx, naming, r);
    RequestedTurn(s.configs[j], ctx, r.Without(TakenBy(s.configs[..j], r.limits)));
    var turn := TurnAt(s.configs, ctx, r, j);
    assert turn != Refused && !turn.Skipped?;
    var e := Entry(naming(s.configs[j]), turn.request);
    assert MadeAt(s.configs, ctx, naming, r, e, j) by { MadeAtIs(s.configs, ctx, naming, r, e, j); }
    assert MadeBy(s.configs, ctx, naming, r, e);
    assert e in ConvertContainer(s, slices, pod, i, draw).value.entries;
  }

  lemma MadeAtIs(cfgs: seq<DeviceConfig>, ctx: Context, naming: DeviceConfig -> string, r: Resources, e: Entry, j: nat)
    requires j < |cfgs| && TurnAt(cfgs, ctx, r, j).Converted?
    requires e == Entry(naming(cfgs[j]), TurnAt(cfgs, ctx, r, j).request)
    ensures MadeAt(cfgs, ctx, naming, r, e, j)
  {
  }

  lemma {:induction false} PodHas(s: Settings, slices: Option<seq<DriverSlice>>, pod: PodValue, draw: Draw,
                                  n: nat, i: nat, j: nat)
    requires Admissible(s.configs) && Requested(s, pod, i, j)
    requires i < n <= |pod.containers| && AdmitContainers(s, slices, pod, n, draw).Success?
    ensures Named(AdmitContainers(s, slices, pod, n, draw).value.entries, NameAt(s, pod, draw, i, j))
  {
    hide Admissible, ConvertContainer, NameAt, Named;
    var before, more := AdmitContainers(s, slices, pod, n - 1, draw).value.entries,
                        ConvertContainer(s, slices, pod, n - 1, draw).value.entries;
    if i < n - 1 { PodHas(s, slices, pod, draw, n - 1, i, j); } else { ContainerHas(s, slices, pod, draw, i, j); }
    NamedMore(before, more, NameAt(s, pod, draw, i, j));
  }

  lemma NamedMore(a: seq<Entry>, b: seq<Entry>, name: string)
    ensures Named(a, name) || Named(b, name) ==> Named(a + b, name)
  {
    assert forall e :: e in a || e in b ==> e in a + b;
  }

  lemma NotDistinctMore(a: seq<Entry>, b: seq<Entry>)
    requires !DistinctNames(a) || !DistinctNames(b)
    ensures !DistinctNames(a + b)
  {
    if !DistinctNames(a) {
      var i, j :| 0 <= i < j < |a| && a[i].name == a[j].name;
      assert (a + b)[i] == a[i] && (a + b)[j] == a[j];
    } else {
      var i, j :| 0 <= i < j < |b| && b[i].name == b[j].name;
      assert (a + b)[|a| + i] == b[i] && (a + b)[|a| + j] == b[j];
    }
  }

  lemma SharedNamed(a: seq<Entry>, b: seq<Entry>, name: string)
    requires Named(a, name) && Named(b, name)
    ensures !DistinctNames(a + b)
  {
    SharedName(a, b, name, Template, "", map[]);
  }

  /** Two containers of a pod with one name for one device. */
  lemma PodClash(s: Settings, slices: Option<seq<DriverSlice>>, pod: PodValue, draw: Draw, i: nat, k: nat, j: nat)
    requires Admissible(s.configs) && i < k && Requested(s, pod, i, j) && Requested(s, pod, k, j)
    requires NameAt(s, pod, draw, i, j) == NameAt(s, pod, draw, k, j)
    requires Admit(s, slices, pod, draw).Success?
    ensures !DistinctNames(Admit(s, slices, pod, draw).value.entries)
  {
    hide Admissible, AdmitContainers, ConvertContainer, NameAt, Named, DistinctNames;
    var n := |pod.containers|;
    AdmitPrefix(s, slices, pod, k, n, draw);
    AdmitPrefix(s, slices, pod, k + 1, n, draw);
    AdmitOne(s, slices, pod, k, draw);
    PodHas(s, slices, pod, draw, k, i, j);
    ContainerHas(s, slices, pod, draw, k, j);
    SharedNamed(AdmitContainers(s, slices, pod, k, draw).value.entries,
                ConvertContainer(s, slices, pod, k, draw).value.entries, NameAt(s, pod, draw, i, j));
    var part := AdmitContainers(s, slices, pod, k + 1, draw).value.entries;
    var all := Admit(s, slices, pod, draw).value.entries;
    assert all == part + all[|part|..];
    NotDistinctMore(part, all[|part|..]);
  }

  lemma TaskHas(s: Settings, job: JobValue, draw: nat -> string, t: nat, i: nat, j: nat)
    requires Admissible(s.configs) && AskedBy(s, job, t, i, j) && AdmitTask(s, job, t, draw).Success?
    ensures Named(AdmitTask(s, job, t, draw).value.entries, TemplateAt(s, job, draw, t, i, j))
  {
    hide Admissible, AdmitContainers, NameAt, Named;
    var pod := TaskPodAt(job, draw, t);
    PodHas(s, NO_DEVICES, pod, NO_DRAW, |pod.containers|, i, j);
  }

  lemma {:induction false} JobHas(s: Settings, job: JobValue, draw: nat -> string, n: nat, t: nat, i: nat, j: nat)
    requires Admissible(s.configs) && AskedBy(s, job, t, i, j)
    requires t < n <= |job.tasks| && AdmitTasks(s, job, n, draw).Success?
    ensures Named(AdmitTasks(s, job, n, draw).value.entries, TemplateAt(s, job, draw, t, i, j))
  {
    hide Admissible, AdmitTask, TemplateAt, Named;
    var before, more := AdmitTasks(s, job, n - 1, draw).value.entries, AdmitTask(s, job, n - 1, draw).value.entries;
    if t < n - 1 { JobHas(s, job, draw, n - 1, t, i, j); } else { TaskHas(s, job, draw, t, i, j); }
    NamedMore(before, more, TemplateAt(s, job, draw, t, i, j));
  }

  /** Two containers of different Volcano tasks with one name for one device. */
  lemma TasksClash(s: Settings, job: JobValue, draw: nat -> string, t: nat, i: nat, u: nat, k: nat, j: nat)
    requires Admissible(s.configs) && t < u && AskedBy(s, job, t, i, j) && AskedBy(s, job, u, k, j)
    requires TemplateAt(s, job, draw, t, i, j) == TemplateAt(s, job, draw, u, k, j)
    requires AdmitJob(s, job, draw).Success?
    ensures !DistinctNames(AdmitJob(s, job, draw).value.entries)
  {
    hide Admissible, AdmitTasks, AdmitTask, TemplateAt, Named, DistinctNames;
    var n := |job.tasks|;
    TaskWithin(s, job, draw, u);
    JobHas(s, job, draw, u, t, i, j);
    TaskHas(s, job, draw, u, k, j);
    var before, more := AdmitTasks(s, job, u, draw).value.entries, AdmitTask(s, job, u, draw).value.entries;
    SharedNamed(before, more, TemplateAt(s, job, draw, t, i, j));
    var all := AdmitJob(s, job, draw).value.entries;
    NotDistinctMore(before + more, all[|before + more|..]);
  }

  /** The entries of Volcano task t are a part of all entries. */
  lemma TaskWithin(s: Settings, job: JobValue, draw: nat -> string, t: nat)
    requires t < |job.tasks| && AdmitJob(s, job, draw).Success?
    ensures AdmitTasks(s, job, t, draw).Success? && AdmitTask(s, job, t, draw).Success?
    ensures var part := AdmitTasks(s, job, t, draw).value.entries + AdmitTask(s, job, t, draw).value.entries;
            var all := AdmitJob(s, job, draw).value.entries;
            part <= all && all == part + all[|part|..]
  {
    hide AdmitTask;
    AdmitTasksPrefix(s, job, t, |job.tasks|, draw);
    AdmitTasksPrefix(s, job, t + 1, |job.tasks|, draw);
  }

  /** Joined names that are not apart give two templates one name. */
  lemma JoinedClash(s: Settings, job: JobValue, draw: nat -> string)
    requires Admissible(s.configs) && AdmitJob(s, job, draw).Success? && !JoinedApart(s, job, draw)
    ensures !DistinctNames(AdmitJob(s, job, draw).value.entries)
  {
    hide Admissible, AdmitTasks, AdmitTask, TemplateAt, DistinctNames, Truncate, RawName;
    var t, i, u, k, j :|
      && AskedBy(s, job, t, i, j) && AskedBy(s, job, u, k, j)
      && OwnerName(job, t, draw) == OwnerName(job, u, draw) && Joined(job, t, i) == Joined(job, u, k)
      && !(t == u && i == k);
    TemplateAtIs(s, job, draw, t, i, j);
    TemplateAtIs(s, job, draw, u, k, j);
    if t < u {
      TasksClash(s, job, draw, t, i, u, k, j);
    } else if u < t {
      TasksClash(s, job, draw, u, k, t, i, j);
    } else {
      WithinTaskClash(s, job, draw, t, if i < k then i else k, if i < k then k else i, j);
    }
  }

  lemma WithinTaskClash(s: Settings, job: JobValue, draw: nat -> string, t: nat, i: nat, k: nat, j: nat)
    requires Admissible(s.configs) && i < k && AskedBy(s, job, t, i, j) && AskedBy(s, job, t, k, j)
    requires TemplateAt(s, job, draw, t, i, j) == TemplateAt(s, job, draw, t, k, j)
    requires AdmitJob(s, job, draw).Success?
    ensures !DistinctNames(AdmitJob(s, job, draw).value.entries)
  {
    hide Admissible, AdmitTasks, AdmitContainers, NameAt, DistinctNames;
    var pod := TaskPodAt(job, draw, t);
    TaskWithin(s, job, draw, t);
    PodClash(s, NO_DEVICES, pod, NO_DRAW, i, k, j);
    var before, more := AdmitTasks(s, job, t, draw).value.entries, AdmitTask(s, job, t, draw).value.entries;
    NotDistinctMore(before, more);
    var all := AdmitJob(s, job, draw).value.entries;
    NotDistinctMore(before + more, all[|before + more|..]);
  }

  /******* The whole job *******/

  predicate TemplatesFree(job: JobValue, entries: seq<Entry>, store: Store) {
    forall e | e in entries :: Key(Template, job.namespace, e.name) !in store
  }

  lemma FreshIff(job: JobValue, entries: seq<Entry>, store: Store)
    ensures Fresh(Template, job.namespace, entries, store)
            <==> DistinctNames(entries) && TemplatesFree(job, entries, store)
  {
    assert forall i | 0 <= i < |entries| :: entries[i] in entries;
  }

  /**
   With separated suffixes and telling hashes, the templates of an admitted job can be created if and only
   if no other object has one of their names and the job joins no two names of containers that ask for one
   device to the same.
   */
  lemma JobCollisionFreeIff(s: Settings, job: JobValue, draw: nat -> string, store: Store)
    requires Admissible(s.configs) && SuffixesApart(s.configs) && AdmitJob(s, job, draw).Success?
    requires JobSegmentsDrawn(s, job, draw) && JobHashesApart(s, job, draw)
    ensures var entries := AdmitJob(s, job, draw).value.entries;
            Fresh(Template, job.namespace, entries, store)
            <==> JoinedApart(s, job, draw) && TemplatesFree(job, entries, store)
  {
    hide Admissible, SuffixesApart, JoinedApart, AdmitTasks, Fresh, DistinctNames;
    var entries := AdmitJob(s, job, draw).value.entries;
    FreshIff(job, entries, store);
    if JoinedApart(s, job, draw) {
      TemplatesAreApart(s, job, draw);
      JobEntryNames(s, job, |job.tasks|, draw);
    } else {
      JoinedClash(s, job, draw);
    }
  }

  /** Volcano task "a-b" with container "c" and Volcano task "a" with container "b-c", asking for one device each. */
  function ClashingJob(namespace: string, count: string): JobValue {
    var asked := Resources(map[count := 1], map[]);
    JobValue(namespace, "j", map[], [
      TaskValue("a-b", [ContainerValue("c", asked, [])], []),
      TaskValue("a", [ContainerValue("b-c", asked, [])], [])])
  }

  /** Such a job is admitted but always refused, whatever the configs, their suffixes and the store. */
  lemma ClashingJobRefused(s: Settings, namespace: string, j: nat, draw: nat -> string, store: Store)
    requires Admissible(s.configs) && j < |s.configs|
    ensures var job := ClashingJob(namespace, s.configs[j].countName);
            var a := AdmitJob(s, job, draw);
            a.Success? && !Fresh(Template, namespace, a.value.entries, store)
  {
    hide Admissible, Convert, Fresh, DistinctNames, JoinedApart;
    var job := ClashingJob(namespace, s.configs[j].countName);
    OneContainerAdmitted(s, job, draw, 0, j);
    OneContainerAdmitted(s, job, draw, 1, j);
    TwoTasksAdmitted(s, job, draw);
    NotJoinedApart(s, job, draw, j);
    JoinedClash(s, job, draw);
    FreshIff(job, AdmitJob(s, job, draw).value.entries, store);
  }

  lemma NotJoinedApart(s: Settings, job: JobValue, draw: nat -> string, j: nat)
    requires j < |s.configs| && job == ClashingJob(job.namespace, s.configs[j].countName)
    ensures !JoinedApart(s, job, draw)
  {
    assert AskedBy(s, job, 0, 0, j) && AskedBy(s, job, 1, 0, j);
    assert Joined(job, 0, 0) == "a-b-c" == Joined(job, 1, 0);
  }

  lemma OneContainerAdmitted(s: Settings, job: JobValue, draw: nat -> string, t: nat, j: nat)
    requires Admissible(s.configs) && j < |s.configs| && t < |job.tasks| && |job.tasks[t].containers| == 1
    requires job.tasks[t].containers[0].resources.limits == map[s.configs[j].countName := 1]
    ensures AdmitTask(s, job, t, draw).Success?
  {
    hide Admissible, Convert, Naming, AdmitContainers;
    var pod := TaskPodAt(job, draw, t);
    var c := pod.containers[0];
    CountOnly(s.configs, NO_DEVICES, Naming(s.hash, pod.namespace, pod.name, c.name, 0, NO_DRAW), c.resources, j);
    AdmitNone(s, NO_DEVICES, pod, NO_DRAW);
    AdmitOne(s, NO_DEVICES, pod, 0, NO_DRAW);
  }

  lemma TwoTasksAdmitted(s: Settings, job: JobValue, draw: nat -> string)
    requires |job.tasks| == 2 && AdmitTask(s, job, 0, draw).Success? && AdmitTask(s, job, 1, draw).Success?
    ensures AdmitJob(s, job, draw).Success?
  {
    hide AdmitTask;
    assert AdmitTasks(s, job, 1, draw).Success?;
  }

  /** The settings of a job meet what the results above ask of them when the resolved configs do. */
  lemma JobSettingsApart(configs: seq<DeviceConfig>, hash: string -> Digest)
    requires Admissible(configs)
    ensures Admissible(JobSettings(configs, hash).configs)
    ensures SuffixesApart(configs) <==> SuffixesApart(JobSettings(configs, hash).configs)
  {
    hide Admissible, SuffixesApart;
    JobConfigsApart(configs, hash, map[]);
    var job := JobSettings(configs, hash).configs;
    forall i | 0 <= i < |configs| ensures job[i].Suffix() == configs[i].Suffix() {
    }
    hide DeviceConfig.Suffix;
    if SuffixesApart(configs) { SameSuffixes(configs, job); }
    if SuffixesApart(job) { SameSuffixes(job, configs); }
  }

  lemma SameSuffixes(a: seq<DeviceConfig>, b: seq<DeviceConfig>)
    requires |a| == |b| && SuffixesApart(a)
    requires forall i | 0 <= i < |a| :: a[i].Suffix() == b[i].Suffix()
    ensures SuffixesApart(b)
  {
    hide Separates, DeviceConfig.Suffix;
    forall d, e | d in b && e in b ensures d.Suffix() != "" && Separates(d.Suffix(), e.Suffix()) {
      var i: nat :| i < |b| && b[i] == d;
      var j: nat :| j < |b| && b[j] == e;
      assert a[i] in a && a[j] in a;
    }
  }
}
