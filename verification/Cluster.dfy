/** The executor's bookkeeping and the part of the cluster that belongs to one job,
    as values, with one function for each operation of pkg/burner/create.go and
    pkg/burner/job.go. Class JobExecutor performs the same operations in place. */
module Cluster {
  import opened Sequences
  import opened Workload

  /** `flags` is ex.createdNamespaces. `owned` are the namespaces that carry the
      job's labels and `foreign` the others. `live` maps every existing object of
      the job to the run id it was labelled with. `issued` and `nsCalls` record the
      create requests sent for objects and for namespaces. */
  datatype State = State(
    flags: map<string, bool>,
    owned: set<string>,
    foreign: set<string>,
    live: map<Create, string>,
    uuid: string,
    runid: string,
    jobIterations: int,
    issued: seq<Create>,
    nsCalls: seq<string>)

  predicate Flagged(st: State, ns: string) { ns in st.flags && st.flags[ns] }

  predicate Exists(st: State, ns: string) { ns in st.owned || ns in st.foreign }

  /** Whether the API server accepts c: a missing namespace answers NotFound. */
  predicate Lands(st: State, c: Create) { c.ns == "" || Exists(st, c.ns) }

  /** createNamespace: nothing when the cache says the namespace exists. */
  function CreateNamespace(st: State, ns: string): State {
    if Flagged(st, ns) then st
    else st.(nsCalls := st.nsCalls + [ns],
             owned := if Exists(st, ns) then st.owned else st.owned + {ns},
             flags := st.flags[ns := true])
  }

  /** The cluster after creating the objects of s: one that exists already is left
      as it is (AlreadyExists), run id included. */
  function AddAll(live: map<Create, string>, s: set<Create>, runid: string): map<Create, string> {
    (map c | c in s :: runid) + live
  }

  function Landing(st: State, cs: seq<Create>): set<Create> { set c | c in cs && Lands(st, c) }

  /** Sending the creates of cs, in order. */
  function SendAll(st: State, cs: seq<Create>): State {
    st.(issued := st.issued + cs, live := AddAll(st.live, Landing(st, cs), st.runid))
  }

  lemma AddAllTwice(live: map<Create, string>, a: set<Create>, b: set<Create>, runid: string)
    ensures AddAll(AddAll(live, a, runid), b, runid) == AddAll(live, a + b, runid)
  {
  }

  lemma SendAllAppend(st: State, a: seq<Create>, b: seq<Create>)
    ensures SendAll(SendAll(st, a), b) == SendAll(st, a + b)
  {
    assert Landing(st, a) + Landing(SendAll(st, a), b) == Landing(st, a + b);
    hide AddAll, Landing;
    AddAllTwice(st.live, Landing(st, a), Landing(SendAll(st, a), b), st.runid);
    assert st.issued + a + b == st.issued + (a + b);
  }

  lemma SendNothing(st: State)
    ensures SendAll(st, []) == st
  {
    assert st.issued + [] == st.issued;
  }

  // ----- Creation -----

  /** preCreateNamespaces for a namespaced job, over [start, end). */
  function CreateRange(st: State, job: Job, start: nat, end: nat): State
    requires job.iterationsPerNamespace >= 1
  {
    if end <= start then st
    else CreateNamespace(CreateRange(st, job, start, end - 1), GenerateNamespace(job, end - 1))
  }

  function PreCreate(st: State, job: Job, start: nat, end: nat): State
    requires job.iterationsPerNamespace >= 1
  {
    if job.namespacedIterations then CreateRange(st, job, start, end) else CreateNamespace(st, job.namespace)
  }

  /** One pass of the default loop. */
  function DefaultPass(st: State, job: Job, i: nat): State
    requires ValidJob(job)
  {
    var ready := if NamespacesRequired(job) && job.namespacedIterations
                 then CreateNamespace(st, GenerateNamespace(job, i)) else st;
    SendAll(ready, IterationCreates(job, AllIndices(job), i))
  }

  /** The iteration loop of runCreateJobDefault. */
  function DefaultLoop(st: State, job: Job, start: nat, end: nat): State
    requires ValidJob(job)
  {
    if end <= start then st
    else DefaultPass(DefaultLoop(st, job, start, end - 1), job, end - 1)
  }

  function DefaultStart(st: State, job: Job, start: nat, end: nat): State
    requires ValidJob(job)
  {
    if !NamespacesRequired(job) then st
    else
      var pre := if job.preCreateNamespaces then PreCreate(st, job, start, end) else st;
      if job.namespacedIterations then pre else CreateNamespace(pre, job.namespace)
  }

  function RunDefault(st: State, job: Job, start: nat, end: nat): State
    requires ValidJob(job)
  {
    DefaultLoop(DefaultStart(st, job, start, end), job, start, end)
  }

  /** Deleting the gc object k's resources by gvr and group label also reaches c. */
  predicate HitBy(job: Job, flags: map<string, bool>, k: nat, c: Create)
    requires k < |job.objects| && c.index < |job.objects|
  {
    var o, x := job.objects[k], job.objects[c.index];
    && o.gc && o.gvr == x.gvr && o.group == x.group
    && (o.namespaced ==>
          || (c.ns in flags && flags[c.ns])
          || (o.fixedNamespace != "" && c.ns == o.fixedNamespace))
  }

  predicate Hit(job: Job, flags: map<string, bool>, c: Create) {
    && c.index < |job.objects|
    && exists k :: 0 <= k < |job.objects| && HitBy(job, flags, k, c)
  }

  /** c goes when the gc objects of the groups in nums are collected. */
  predicate Collected(job: Job, flags: map<string, bool>, nums: seq<int>, c: Create) {
    Hit(job, flags, c) && job.objects[c.index].group in nums
  }

  /** What is left of live once the gc objects of the groups in nums are collected: the
      selector asks for the run id as well. */
  function Kept(job: Job, flags: map<string, bool>, live: map<Create, string>, runid: string, nums: seq<int>)
    : map<Create, string>
  {
    map c | c in live && !(live[c] == runid && Collected(job, flags, nums, c)) :: live[c]
  }

  /** gcGroupObjects. */
  function GcGroup(st: State, job: Job, g: int): State {
    st.(live := Kept(job, st.flags, st.live, st.runid, [g]))
  }

  /** The group loop of runCreateJobGrouped. */
  function GroupLoop(st: State, job: Job, nums: seq<int>, start: nat, end: nat): State
    requires ValidJob(job)
  {
    if nums == [] then st
    else
      var before := GroupLoop(st, job, nums[..|nums| - 1], start, end);
      var g := nums[|nums| - 1];
      GcGroup(SendAll(before, RangeCreates(job, Members(job, g, |job.objects|), start, end)), job, g)
  }

  function RunGrouped(st: State, job: Job, start: nat, end: nat): State
    requires ValidJob(job)
  {
    var pre := if NamespacesRequired(job) then PreCreate(st, job, start, end) else st;
    GroupLoop(pre, job, Groups(job), start, end)
  }

  /** IsGroupedEnabled. */
  predicate Grouped(job: Job) {
    exists k :: 0 <= k < |job.objects| && job.objects[k].group > 0
  }

  /** RunCreateJob. */
  function RunCreate(st: State, job: Job, start: nat, end: nat): State
    requires ValidJob(job)
  {
    if Grouped(job) then RunGrouped(st, job, start, end) else RunDefault(st, job, start, end)
  }

  // ----- The cache is faithful, and what a run leaves behind -----

  /** A true entry of the cache means the namespace exists. */
  ghost predicate Faithful(st: State) {
    forall ns :: Flagged(st, ns) ==> Exists(st, ns)
  }

  /** The namespaces fixed in the templates exist already. */
  ghost predicate FixedExist(job: Job, st: State) {
    forall k :: 0 <= k < |job.objects| && job.objects[k].fixedNamespace != "" ==>
      job.objects[k].fixedNamespace in st.foreign
  }

  /** The namespaces a run over [start, end) works in. */
  ghost function Needed(job: Job, start: nat, end: nat): set<string>
    requires ValidJob(job)
  {
    if !NamespacesRequired(job) then {}
    else if job.namespacedIterations then set i | start <= i < end :: GenerateNamespace(job, i)
    else {job.namespace}
  }

  /** st2 is st with the namespaces of `names` made sure of, and maybe new objects. */
  ghost predicate Extended(st: State, st2: State, names: set<string>) {
    && st2.foreign == st.foreign && st2.runid == st.runid
    && st2.uuid == st.uuid && st2.jobIterations == st.jobIterations
    && st2.owned == st.owned + (names - st.foreign)
    && (forall ns :: Flagged(st2, ns) <==> Flagged(st, ns) || ns in names)
  }

  lemma ExtendedFaithful(st: State, st2: State, names: set<string>)
    requires Faithful(st) && Extended(st, st2, names)
    ensures Faithful(st2)
  {
  }

  lemma CreateNamespaceExtends(st: State, ns: string)
    requires Faithful(st)
    ensures Extended(st, CreateNamespace(st, ns), {ns})
    ensures CreateNamespace(st, ns).live == st.live && CreateNamespace(st, ns).issued == st.issued
  {
  }

  lemma {:induction false} CreateRangeExtends(st: State, job: Job, start: nat, end: nat)
    requires ValidJob(job) && Faithful(st) && NamespacesRequired(job) && job.namespacedIterations
    ensures Extended(st, CreateRange(st, job, start, end), Needed(job, start, end))
    ensures CreateRange(st, job, start, end).live == st.live
    ensures CreateRange(st, job, start, end).issued == st.issued
    decreases end
  {
    if end <= start {
      assert Needed(job, start, end) == {};
    } else {
      var before, name := CreateRange(st, job, start, end - 1), GenerateNamespace(job, end - 1);
      CreateRangeExtends(st, job, start, end - 1);
      ExtendedFaithful(st, before, Needed(job, start, end - 1));
      CreateNamespaceExtends(before, name);
      NeededStep(job, start, end);
    }
  }

  lemma NeededStep(job: Job, start: nat, end: nat)
    requires ValidJob(job) && NamespacesRequired(job) && job.namespacedIterations && start < end
    ensures Needed(job, start, end) == Needed(job, start, end - 1) + {GenerateNamespace(job, end - 1)}
  {
    hide NamespacesRequired, GenerateNamespace;
  }

  lemma PreCreateExtends(st: State, job: Job, start: nat, end: nat)
    requires ValidJob(job) && Faithful(st) && NamespacesRequired(job)
    ensures Extended(st, PreCreate(st, job, start, end), Needed(job, start, end))
    ensures PreCreate(st, job, start, end).live == st.live && PreCreate(st, job, start, end).issued == st.issued
  {
    hide NamespacesRequired;
    if job.namespacedIterations {
      CreateRangeExtends(st, job, start, end);
    } else {
      CreateNamespaceExtends(st, job.namespace);
    }
  }

  /** Every create of an iteration lands once that iteration's namespace exists. */
  lemma CreateLands(job: Job, st: State, c: Create)
    requires ValidJob(job) && Matches(job, c) && FixedExist(job, st)
    requires NamespacesRequired(job) ==> Exists(st, IterationNamespace(job, c.iteration))
    ensures Lands(st, c)
  {
  }

  /** st2 is st after making sure of the namespaces `names` and sending cs, all of
      which are live afterwards. */
  ghost predicate Swept(st: State, st2: State, names: set<string>, cs: seq<Create>) {
    && Extended(st, st2, names)
    && st2.issued == st.issued + cs
    && st2.live == AddAll(st.live, Elements(cs), st.runid)
  }

  lemma SweptKeeps(job: Job, st: State, st2: State, names: set<string>, cs: seq<Create>)
    requires Swept(st, st2, names, cs) && Faithful(st) && FixedExist(job, st)
    ensures Faithful(st2) && FixedExist(job, st2) && forall ns :: Exists(st, ns) ==> Exists(st2, ns)
  {
    ExtendedFaithful(st, st2, names);
  }

  lemma SweptTwice(st: State, st1: State, st2: State,
                   names1: set<string>, cs1: seq<Create>, names2: set<string>, cs2: seq<Create>)
    requires Swept(st, st1, names1, cs1) && Swept(st1, st2, names2, cs2)
    ensures Swept(st, st2, names1 + names2, cs1 + cs2)
  {
    assert Elements(cs1) + Elements(cs2) == Elements(cs1 + cs2);
    hide AddAll, Elements;
    AddAllTwice(st.live, Elements(cs1), Elements(cs2), st.runid);
    assert st.issued + cs1 + cs2 == st.issued + (cs1 + cs2);
  }

  /** Making sure of namespaces alone sweeps nothing. */
  lemma SweptEmpty(st: State, st2: State, names: set<string>)
    requires Extended(st, st2, names) && st2.issued == st.issued && st2.live == st.live
    ensures Swept(st, st2, names, [])
  {
    assert st.issued + [] == st.issued;
    assert AddAll(st.live, Elements([]), st.runid) == st.live;
  }

  lemma SweptNothing(st: State)
    ensures Swept(st, st, {}, [])
  {
    SweptEmpty(st, st, {});
  }

  lemma SweptIteration(job: Job, st: State, ids: seq<nat>, i: nat)
    requires ValidJob(job) && Indices(job, ids) && FixedExist(job, st)
    requires NamespacesRequired(job) ==> Exists(st, IterationNamespace(job, i))
    ensures Swept(st, SendAll(st, IterationCreates(job, ids, i)), {}, IterationCreates(job, ids, i))
  {
    hide ValidJob, Matches, NamespacesRequired, IterationNamespace, Lands, AddAll;
    var cs := IterationCreates(job, ids, i);
    forall c | c in cs ensures Lands(st, c) {
      IterationMembers(job, ids, i, c);
      CreateLands(job, st, c);
    }
    assert Landing(st, cs) == Elements(cs);
  }

  ghost function PassNames(job: Job, i: nat): set<string>
    requires ValidJob(job)
  {
    if NamespacesRequired(job) && job.namespacedIterations then {GenerateNamespace(job, i)} else {}
  }

  lemma DefaultPassSweeps(st: State, job: Job, i: nat)
    requires ValidJob(job) && Faithful(st) && FixedExist(job, st)
    requires NamespacesRequired(job) && !job.namespacedIterations ==> Exists(st, job.namespace)
    ensures Swept(st, DefaultPass(st, job, i), PassNames(job, i), IterationCreates(job, AllIndices(job), i))
  {
    hide NamespacesRequired, GenerateNamespace, IterationCreates, SendAll;
    var ready := if NamespacesRequired(job) && job.namespacedIterations
                 then CreateNamespace(st, GenerateNamespace(job, i)) else st;
    CreateNamespaceExtends(st, GenerateNamespace(job, i));
    SweptEmpty(st, ready, PassNames(job, i));
    var sent := IterationCreates(job, AllIndices(job), i);
    SweptIteration(job, ready, AllIndices(job), i);
    hide Swept, CreateNamespace;
    SweptTwice(st, ready, SendAll(ready, sent), PassNames(job, i), [], {}, sent);
    assert [] + sent == sent && PassNames(job, i) + {} == PassNames(job, i);
  }

  ghost function LoopNames(job: Job, start: nat, end: nat): set<string>
    requires ValidJob(job)
  {
    if job.namespacedIterations then Needed(job, start, end) else {}
  }

  lemma LoopNamesStep(job: Job, start: nat, end: nat)
    requires ValidJob(job) && start < end
    ensures LoopNames(job, start, end) == LoopNames(job, start, end - 1) + PassNames(job, end - 1)
  {
    if NamespacesRequired(job) && job.namespacedIterations {
      NeededStep(job, start, end);
    }
  }

  lemma NoLoopNames(job: Job, start: nat, end: nat)
    requires ValidJob(job) && end <= start
    ensures LoopNames(job, start, end) == {}
  {
    hide GenerateNamespace, ValidJob;
  }

  /** The iteration loop, from a state whose fixed namespaces exist. */
  lemma {:induction false} DefaultLoopSweeps(st: State, job: Job, start: nat, end: nat)
    requires ValidJob(job) && Faithful(st) && FixedExist(job, st)
    requires NamespacesRequired(job) && !job.namespacedIterations ==> Exists(st, job.namespace)
    ensures Swept(st, DefaultLoop(st, job, start, end), LoopNames(job, start, end), DefaultCreates(job, start, end))
    decreases end
  {
    hide NamespacesRequired, IterationCreates, ValidJob, Needed, PassNames, DefaultPass;
    hide Swept, Extended, Faithful, FixedExist, Exists;
    if end <= start {
      SweptNothing(st);
      NoLoopNames(job, start, end);
    } else {
      hide LoopNames;
      var before := DefaultLoop(st, job, start, end - 1);
      DefaultLoopSweeps(st, job, start, end - 1);
      SweptKeeps(job, st, before, LoopNames(job, start, end - 1), DefaultCreates(job, start, end - 1));
      DefaultPassSweeps(before, job, end - 1);
      SweptTwice(st, before, DefaultPass(before, job, end - 1), LoopNames(job, start, end - 1),
                 DefaultCreates(job, start, end - 1), PassNames(job, end - 1),
                 IterationCreates(job, AllIndices(job), end - 1));
      LoopNamesStep(job, start, end);
    }
  }

  ghost function StartNames(job: Job, start: nat, end: nat): set<string>
    requires ValidJob(job)
  {
    if job.namespacedIterations && !job.preCreateNamespaces then {} else Needed(job, start, end)
  }

  lemma DefaultStartExtends(st: State, job: Job, start: nat, end: nat)
    requires ValidJob(job) && Faithful(st)
    ensures
      var first := DefaultStart(st, job, start, end);
      && Extended(st, first, StartNames(job, start, end))
      && first.live == st.live && first.issued == st.issued
  {
    hide NamespacesRequired, GenerateNamespace;
    if NamespacesRequired(job) {
      var pre := if job.preCreateNamespaces then PreCreate(st, job, start, end) else st;
      if job.preCreateNamespaces {
        PreCreateExtends(st, job, start, end);
        ExtendedFaithful(st, pre, Needed(job, start, end));
      }
      if !job.namespacedIterations {
        CreateNamespaceExtends(pre, job.namespace);
      }
    }
  }

  /** What runCreateJobDefault does: it makes sure of the namespaces the range
      needs and sends the range's creates in loop order, and every one of them is
      live afterwards. */
  lemma RunDefaultSweeps(st: State, job: Job, start: nat, end: nat)
    requires ValidJob(job) && Faithful(st) && FixedExist(job, st)
    ensures Swept(st, RunDefault(st, job, start, end), Needed(job, start, end), DefaultCreates(job, start, end))
  {
    var first := DefaultStart(st, job, start, end);
    var names := LoopNames(job, start, end);
    DefaultStartExtends(st, job, start, end);
    assert NamespacesRequired(job) && !job.namespacedIterations ==> job.namespace in Needed(job, start, end);
    ExtendedFaithful(st, first, StartNames(job, start, end));
    hide GenerateNamespace, DefaultLoop, CreateNamespace, PreCreate, DefaultCreates;
    DefaultLoopSweeps(first, job, start, end);
    SweptEmpty(st, first, StartNames(job, start, end));
    SweptTwice(st, first, RunDefault(st, job, start, end), StartNames(job, start, end), [], names,
               DefaultCreates(job, start, end));
    assert [] + DefaultCreates(job, start, end) == DefaultCreates(job, start, end);
    assert StartNames(job, start, end) + names == Needed(job, start, end);
  }

  // ----- Grouped execution -----

  /** Every namespace a run over [start, end) places an object in exists. */
  ghost predicate Prepared(job: Job, st: State, start: nat, end: nat)
    requires ValidJob(job)
  {
    && FixedExist(job, st)
    && (NamespacesRequired(job) ==> forall i :: start <= i < end ==> Exists(st, IterationNamespace(job, i)))
  }

  lemma PreparedStays(job: Job, st: State, st2: State, start: nat, end: nat)
    requires ValidJob(job) && Prepared(job, st, start, end) && st2.owned == st.owned && st2.foreign == st.foreign
    ensures Prepared(job, st2, start, end)
  {
    hide ValidJob, NamespacesRequired, IterationNamespace;
    assert forall ns :: Exists(st2, ns) <==> Exists(st, ns);
  }

  lemma SendRange(job: Job, st: State, ids: seq<nat>, start: nat, end: nat)
    requires ValidJob(job) && Indices(job, ids) && Prepared(job, st, start, end)
    ensures var cs := RangeCreates(job, ids, start, end);
            SendAll(st, cs) == st.(issued := st.issued + cs, live := AddAll(st.live, Elements(cs), st.runid))
  {
    hide ValidJob, Matches, NamespacesRequired, IterationNamespace, Lands, AddAll, Exists, Indices, FixedExist;
    var cs := RangeCreates(job, ids, start, end);
    forall c | c in cs ensures Lands(st, c) {
      RangeMembers(job, ids, start, end, c);
      CreateLands(job, st, c);
    }
    assert Landing(st, cs) == Elements(cs);
  }

  /** Collecting group by group is collecting once at the end: a later group's
      creates are never in the reach of an earlier group's collection. */
  lemma KeptStep(job: Job, flags: map<string, bool>, live: map<Create, string>, runid: string,
                 rest: seq<int>, g: int, earlier: set<Create>, sent: set<Create>)
    requires g !in rest
    requires forall c :: c in sent ==> c.index < |job.objects| && job.objects[c.index].group == g
    ensures Kept(job, flags, AddAll(Kept(job, flags, AddAll(live, earlier, runid), runid, rest), sent, runid),
                 runid, [g])
         == Kept(job, flags, AddAll(live, earlier + sent, runid), runid, rest + [g])
  {
    hide Collected, Kept, AddAll;
    var first := AddAll(live, earlier, runid);
    var mid := AddAll(Kept(job, flags, first, runid, rest), sent, runid);
    var whole := AddAll(live, earlier + sent, runid);
    var steps, once := Kept(job, flags, mid, runid, [g]), Kept(job, flags, whole, runid, rest + [g]);
    forall c
      ensures c in steps <==> c in once
      ensures c in steps && c in once ==> steps[c] == once[c]
    {
      CollectedSplit(job, flags, rest, g, c);
      KeptAt(job, flags, mid, runid, [g], c);
      KeptAt(job, flags, first, runid, rest, c);
      KeptAt(job, flags, whole, runid, rest + [g], c);
      AddAllAt(live, earlier, runid, c);
      AddAllAt(Kept(job, flags, first, runid, rest), sent, runid, c);
      AddAllAt(live, earlier + sent, runid, c);
    }
    assert steps == once;
  }

  lemma KeptAt(job: Job, flags: map<string, bool>, live: map<Create, string>, runid: string, nums: seq<int>, c: Create)
    ensures c in Kept(job, flags, live, runid, nums)
       <==> c in live && !(live[c] == runid && Collected(job, flags, nums, c))
    ensures c in Kept(job, flags, live, runid, nums) ==> Kept(job, flags, live, runid, nums)[c] == live[c]
  {
    hide Collected;
  }

  lemma AddAllAt(live: map<Create, string>, s: set<Create>, runid: string, c: Create)
    ensures c in AddAll(live, s, runid) <==> c in s || c in live
    ensures c in AddAll(live, s, runid) ==> AddAll(live, s, runid)[c] == if c in live then live[c] else runid
  {
  }

  lemma CollectedSplit(job: Job, flags: map<string, bool>, rest: seq<int>, g: int, c: Create)
    requires g !in rest
    ensures Collected(job, flags, rest + [g], c) <==> Collected(job, flags, rest, c) || Collected(job, flags, [g], c)
    ensures c.index < |job.objects| && job.objects[c.index].group == g ==> !Collected(job, flags, rest, c)
  {
    hide Hit;
  }

  lemma GroupSent(job: Job, g: int, start: nat, end: nat)
    requires ValidJob(job)
    ensures forall c :: c in Elements(RangeCreates(job, Members(job, g, |job.objects|), start, end)) ==>
              c.index < |job.objects| && job.objects[c.index].group == g
  {
    var ids := Members(job, g, |job.objects|);
    forall c | c in Elements(RangeCreates(job, ids, start, end))
      ensures c.index < |job.objects| && job.objects[c.index].group == g
    {
      hide RangeCreates;
      RangeMembers(job, ids, start, end, c);
    }
  }

  /** What a state becomes when `cs` is sent and the groups in nums are collected. */
  ghost function GroupsRan(st: State, job: Job, cs: seq<Create>, nums: seq<int>): State {
    st.(issued := st.issued + cs, live := Kept(job, st.flags, AddAll(st.live, Elements(cs), st.runid), st.runid, nums))
  }

  lemma GroupPass(st: State, job: Job, rest: seq<int>, g: int, earlier: seq<Create>, start: nat, end: nat)
    requires ValidJob(job) && Prepared(job, st, start, end) && g !in rest
    ensures var sent := RangeCreates(job, Members(job, g, |job.objects|), start, end);
            GcGroup(SendAll(GroupsRan(st, job, earlier, rest), sent), job, g)
            == GroupsRan(st, job, earlier + sent, rest + [g])
  {
    hide ValidJob, Prepared, RangeCreates, Kept, AddAll, Elements;
    var before := GroupsRan(st, job, earlier, rest);
    var sent := RangeCreates(job, Members(job, g, |job.objects|), start, end);
    GroupSent(job, g, start, end);
    PreparedStays(job, st, before, start, end);
    SendRange(job, before, Members(job, g, |job.objects|), start, end);
    KeptStep(job, st.flags, st.live, st.runid, rest, g, Elements(earlier), Elements(sent));
    SetOfAppend(earlier, sent);
    assert st.issued + earlier + sent == st.issued + (earlier + sent);
  }

  lemma {:induction false} GroupLoopClosed(st: State, job: Job, nums: seq<int>, start: nat, end: nat)
    requires ValidJob(job) && Prepared(job, st, start, end) && Ascending(nums)
    ensures GroupLoop(st, job, nums, start, end)
         == GroupsRan(st, job, GroupedCreates(job, nums, start, end), nums)
    decreases |nums|
  {
    hide ValidJob, Prepared, RangeCreates;
    if nums == [] {
      NothingKept(st, job);
    } else {
      var rest, g := nums[..|nums| - 1], nums[|nums| - 1];
      LastIsLargest(nums);
      assert rest + [g] == nums && g !in rest && Ascending(rest);
      hide Ascending, GroupsRan, SendAll, GcGroup;
      GroupLoopClosed(st, job, rest, start, end);
      GroupPass(st, job, rest, g, GroupedCreates(job, rest, start, end), start, end);
    }
  }

  lemma SetOfAppend(a: seq<Create>, b: seq<Create>)
    ensures Elements(a + b) == Elements(a) + Elements(b)
  {
  }

  lemma NothingKept(st: State, job: Job)
    ensures st == GroupsRan(st, job, [], [])
  {
    assert st.issued + [] == st.issued;
    assert AddAll(st.live, Elements([]), st.runid) == st.live;
    assert Kept(job, st.flags, st.live, st.runid, []) == st.live;
  }

  // ----- Either mode: what RunCreateJob leaves behind -----

  /** c is not deleted by a group's garbage collection during the run. */
  predicate Survives(job: Job, flags: map<string, bool>, c: Create) { !(Grouped(job) && Hit(job, flags, c)) }

  function Surviving(job: Job, flags: map<string, bool>, live: map<Create, string>, runid: string)
    : map<Create, string>
  {
    map c | c in live && (live[c] == runid ==> Survives(job, flags, c)) :: live[c]
  }

  /** st2 is st after RunCreateJob over a range: its namespaces are made sure of, its
      creates were each sent once, and they are live unless a group collected them. */
  ghost predicate Ran(job: Job, st: State, st2: State, start: nat, end: nat)
    requires ValidJob(job)
  {
    && Extended(st, st2, Needed(job, start, end))
    && multiset(st2.issued) == multiset(st.issued) + multiset(DefaultCreates(job, start, end))
    && st2.live == Surviving(job, st2.flags, AddAll(st.live, Created(job, start, end), st.runid), st.runid)
  }

  lemma RunDefaultRan(st: State, job: Job, start: nat, end: nat)
    requires ValidJob(job) && Faithful(st) && FixedExist(job, st) && !Grouped(job)
    ensures Ran(job, st, RunDefault(st, job, start, end), start, end)
  {
    hide Grouped, Extended, Needed, RunDefault, ValidJob, Faithful, FixedExist, DefaultCreates;
    RunDefaultSweeps(st, job, start, end);
    var st2 := RunDefault(st, job, start, end);
    assert Surviving(job, st2.flags, st2.live, st.runid) == st2.live;
  }

  lemma RunGroupedRan(st: State, job: Job, start: nat, end: nat)
    requires ValidJob(job) && Faithful(st) && FixedExist(job, st) && Grouped(job)
    ensures Ran(job, st, RunGrouped(st, job, start, end), start, end)
  {
    var pre := if NamespacesRequired(job) then PreCreate(st, job, start, end) else st;
    RunGroupedStart(st, job, start, end);
    hide Grouped, Extended, Needed, PreCreate, ValidJob, Faithful, Prepared, NamespacesRequired, GroupLoop;
    var nums := Groups(job);
    GroupLoopClosed(pre, job, nums, start, end);
    var st2 := RunGrouped(st, job, start, end);
    GroupedRefinesDefault(job, nums, start, end);
    var cs := GroupedCreates(job, nums, start, end);
    hide GroupedCreates, DefaultCreates, FixedExist;
    assert Elements(cs) == Created(job, start, end) by {
      SameMembers(cs, DefaultCreates(job, start, end));
    }
    AllGroupsKept(job, pre.flags, AddAll(pre.live, Elements(cs), pre.runid), pre.runid);
    assert multiset(pre.issued + cs) == multiset(pre.issued) + multiset(cs);
  }

  lemma SameMembers(a: seq<Create>, b: seq<Create>)
    requires multiset(a) == multiset(b)
    ensures Elements(a) == Elements(b)
  {
    forall c ensures c in Elements(a) <==> c in Elements(b) {
      assert c in multiset(a) <==> c in a;
      assert c in multiset(b) <==> c in b;
    }
  }

  lemma AllGroupsKept(job: Job, flags: map<string, bool>, live: map<Create, string>, runid: string)
    requires Grouped(job)
    ensures Kept(job, flags, live, runid, Groups(job)) == Surviving(job, flags, live, runid)
  {
    hide HitBy;
  }

  lemma RunGroupedStart(st: State, job: Job, start: nat, end: nat)
    requires ValidJob(job) && Faithful(st) && FixedExist(job, st)
    ensures
      var pre := if NamespacesRequired(job) then PreCreate(st, job, start, end) else st;
      && Extended(st, pre, Needed(job, start, end))
      && pre.live == st.live && pre.issued == st.issued && Prepared(job, pre, start, end)
  {
    hide PreCreate, GenerateNamespace;
    if NamespacesRequired(job) {
      hide NamespacesRequired;
      PreCreateExtends(st, job, start, end);
    }
  }

  /** RunCreateJob in either execution mode, over any range. */
  lemma RunCreateRan(st: State, job: Job, start: nat, end: nat)
    requires ValidJob(job) && Faithful(st) && FixedExist(job, st)
    ensures Ran(job, st, RunCreate(st, job, start, end), start, end)
  {
    hide Ran, RunDefault, RunGrouped;
    if Grouped(job) {
      RunGroupedRan(st, job, start, end);
    } else {
      RunDefaultRan(st, job, start, end);
    }
  }

  /** In what order RunCreateJob sends its requests: group after group as soon as one
      template has a group above 0, iteration after iteration otherwise. */
  lemma RunOrder(st: State, job: Job, start: nat, end: nat)
    requires ValidJob(job) && Faithful(st) && FixedExist(job, st)
    ensures
      var grouped := exists k :: 0 <= k < |job.objects| && job.objects[k].group > 0;
      RunCreate(st, job, start, end).issued
      == st.issued + if grouped then GroupedCreates(job, Groups(job), start, end) else DefaultCreates(job, start, end)
  {
    hide GroupLoop, RunDefault, PreCreate, GroupedCreates, DefaultCreates, Needed, Prepared;
    if Grouped(job) {
      RunGroupedStart(st, job, start, end);
      var pre := if NamespacesRequired(job) then PreCreate(st, job, start, end) else st;
      GroupLoopClosed(pre, job, Groups(job), start, end);
    } else {
      RunDefaultSweeps(st, job, start, end);
    }
  }
}
