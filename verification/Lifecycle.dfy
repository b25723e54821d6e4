/** Around a creation run: Verify's count, the garbage collection of groups and of
    whole jobs, and the namespaces a run asks for. */
module Lifecycle {
  import opened Arithmetic
  import opened Decimal
  import opened Sequences
  import opened Workload
  import opened Cluster

  // ----- Verify -----

  /** The objects Verify lists for template k: this index, this run id. */
  function LiveOf(st: State, k: nat): set<Create> {
    set c | c in st.live && c.index == k && st.live[c] == st.runid
  }

  /** Verify: every template outside group collection has its expected count. */
  predicate VerifyOk(job: Job, st: State, n: nat)
    requires ValidJob(job)
  {
    forall k :: 0 <= k < |job.objects| && !job.objects[k].gc ==> |LiveOf(st, k)| == Expected(job.objects[k], n)
  }

  lemma {:induction false} CardOfList(s: seq<Create>, all: set<Create>)
    requires forall x :: Count(s, x) == One(x in all)
    ensures |all| == |s|
    decreases |s|
  {
    if s == [] {
      assert forall x :: x in all ==> Count(s, x) == 1;
      assert all == {};
    } else {
      var rest, last := s[..|s| - 1], s[|s| - 1];
      assert Count(s, last) == Count(rest, last) + 1;
      forall x ensures Count(rest, x) == One(x in all - {last}) {
        assert Count(s, x) == Count(rest, x) + One(last == x);
      }
      CardOfList(rest, all - {last});
    }
  }

  /** Every create of template k over [0, n). */
  ghost function AllOf(job: Job, k: nat, n: nat): set<Create>
    requires ValidJob(job)
  {
    set c | c in Created(job, 0, n) && c.index == k
  }

  lemma AllOfCount(job: Job, k: nat, n: nat)
    requires ValidJob(job) && k < |job.objects| && n >= 1
    ensures |AllOf(job, k, n)| == Expected(job.objects[k], n)
  {
    hide RangeCreates, Count, Expected;
    forall x ensures Count(ObjectRange(job, k, 0, n), x) == One(x in AllOf(job, k, n)) {
      CountRange(job, [k], 0, n, x);
      CountSingle(k, x.index);
    }
    CardOfList(ObjectRange(job, k, 0, n), AllOf(job, k, n));
    VerifyCountsTheLoop(job, k, n);
  }

  lemma LiveAfterRun(job: Job, st: State, st2: State, k: nat, n: nat)
    requires ValidJob(job) && st.live == map[] && Ran(job, st, st2, 0, n)
    ensures LiveOf(st2, k) == set c | c in AllOf(job, k, n) && Survives(job, st2.flags, c)
  {
    hide Survives, ValidJob, Matches, Needed;
    assert st2.runid == st.runid;
  }

  /** After a run of [0, n) from a cluster without objects of the job, Verify
      succeeds exactly when no group collection deleted an object of a template
      that is not itself collected. */
  lemma VerifyAfterRun(job: Job, st: State, st2: State, n: nat)
    requires ValidJob(job) && n >= 1 && st.live == map[] && Ran(job, st, st2, 0, n)
    ensures VerifyOk(job, st2, n)
       <==> forall c :: IsCreate(job, c, 0, n) && !job.objects[c.index].gc ==> Survives(job, st2.flags, c)
  {
    hide Survives, Ran, Expected;
    forall k | 0 <= k < |job.objects|
      ensures |LiveOf(st2, k)| == Expected(job.objects[k], n)
         <==> forall c :: c in AllOf(job, k, n) ==> Survives(job, st2.flags, c)
    {
      LiveAfterRun(job, st, st2, k, n);
      AllOfCount(job, k, n);
      SubsetCard(LiveOf(st2, k), AllOf(job, k, n));
    }
    if VerifyOk(job, st2, n) {
      forall c | IsCreate(job, c, 0, n) && !job.objects[c.index].gc ensures Survives(job, st2.flags, c) {
        assert c in AllOf(job, c.index, n);
        assert |LiveOf(st2, c.index)| == Expected(job.objects[c.index], n);
      }
    }
  }

  lemma SubsetCard(a: set<Create>, b: set<Create>)
    requires a <= b
    ensures |a| == |b| <==> a == b
  {
    assert b == a + (b - a);
    assert |b| == |a| + |b - a|;
  }

  // ----- Group collection reaches further than the gc templates -----

  /** The API server decides the scope by resource. */
  ghost predicate ScopeByResource(job: Job) {
    forall j, k | 0 <= j < |job.objects| && 0 <= k < |job.objects| && job.objects[j].gvr == job.objects[k].gvr ::
      job.objects[j].namespaced == job.objects[k].namespaced
  }

  /** Collecting template j over a run of [0, n) reaches template k, which may be j: both
      have the resource and the group, and k is cluster-scoped, or placed in the run's
      namespaces, or fixed where j is fixed, or fixed in a namespace that is marked. */
  ghost predicate Reached(job: Job, st: State, n: nat, j: nat, k: nat)
    requires ValidJob(job) && j < |job.objects| && k < |job.objects|
  {
    var o, x := job.objects[j], job.objects[k];
    && o.gc && o.gvr == x.gvr && o.group == x.group
    && (|| !o.namespaced || x.fixedNamespace == "" || x.fixedNamespace == o.fixedNamespace
        || Flagged(st, x.fixedNamespace) || x.fixedNamespace in Needed(job, 0, n))
  }

  ghost predicate Bystander(job: Job, st: State, n: nat, j: nat, k: nat)
    requires ValidJob(job) && j < |job.objects| && k < |job.objects|
  {
    Reached(job, st, n, j, k) && !job.objects[k].gc
  }

  ghost predicate NoBystanders(job: Job, st: State, n: nat)
    requires ValidJob(job)
  {
    forall j: nat, k: nat :: j < |job.objects| && k < |job.objects| ==> !Bystander(job, st, n, j, k)
  }

  /** Group collection deletes by resource and group label, so Verify of a grouped job
      succeeds exactly when no uncollected template is a bystander of a collected one. */
  lemma GroupedVerifyIff(job: Job, st: State, n: nat)
    requires ValidJob(job) && ScopeByResource(job) && Grouped(job) && n >= 1
    requires Faithful(st) && FixedExist(job, st) && st.live == map[]
    ensures VerifyOk(job, RunCreate(st, job, 0, n), n) <==> NoBystanders(job, st, n)
  {
    var st2 := RunCreate(st, job, 0, n);
    RunCreateRan(st, job, 0, n);
    VerifyAfterRun(job, st, st2, n);
    hide RunCreate, VerifyOk, Survives, Matches, ValidJob, Extended, Bystander;
    if NoBystanders(job, st, n) {
      forall c | IsCreate(job, c, 0, n) && !job.objects[c.index].gc ensures Survives(job, st2.flags, c) {
        Spared(job, st, st2, c, n);
      }
    } else {
      var j: nat, k: nat :| j < |job.objects| && k < |job.objects| && Bystander(job, st, n, j, k);
      var c := BystanderLost(job, st, st2, n, j, k);
    }
  }

  /** Two namespaced templates of one resource in group 1, of which only the first is
      collected: Verify fails on the second. */
  lemma BystanderCase() returns (job: Job, st: State)
    ensures ValidJob(job) && ScopeByResource(job) && Grouped(job) && Faithful(st) && FixedExist(job, st)
    ensures st.live == map[] && !VerifyOk(job, RunCreate(st, job, 0, 1), 1)
  {
    var collected := Object(0, 1, true, 1, false, 1, true, "", true);
    var other := Object(0, 1, false, 1, false, 1, true, "", true);
    job := Job("ns", true, 1, false, [collected, other]);
    st := State(map[], {}, {}, map[], "u", "r", 1, [], []);
    assert job.objects[0] == collected && job.objects[1] == other;
    hide RunCreate, VerifyOk, Needed;
    assert Bystander(job, st, 1, 0, 1);
    GroupedVerifyIff(job, st, 1);
  }

  lemma Spared(job: Job, st: State, st2: State, c: Create, n: nat)
    requires ValidJob(job) && ScopeByResource(job) && NoBystanders(job, st, n)
    requires IsCreate(job, c, 0, n) && !job.objects[c.index].gc && Extended(st, st2, Needed(job, 0, n))
    ensures Survives(job, st2.flags, c)
  {
    hide HitBy, Reached, Extended, Needed, ValidJob, ScopeByResource;
    forall j: nat | j < |job.objects| ensures !HitBy(job, st2.flags, j, c) {
      HitIffReached(job, st, st2, c, n, j);
      assert !Bystander(job, st, n, j, c.index);
    }
  }

  /** Deletion by gvr and labels reaches exactly the creates of the reached templates. */
  lemma HitIffReached(job: Job, st: State, st2: State, c: Create, n: nat, j: nat)
    requires ValidJob(job) && ScopeByResource(job) && j < |job.objects|
    requires IsCreate(job, c, 0, n) && Extended(st, st2, Needed(job, 0, n))
    ensures HitBy(job, st2.flags, j, c) <==> Reached(job, st, n, j, c.index)
  {
    PlaceFlagged(job, st, st2, c, n);
    hide Needed, ValidJob, Fires, IterationNamespace;
    assert Flagged(st2, c.ns) <==> Flagged(st, c.ns) || c.ns in Needed(job, 0, n);
  }

  /** The first create of a bystander is deleted. */
  lemma BystanderLost(job: Job, st: State, st2: State, n: nat, j: nat, k: nat) returns (c: Create)
    requires ValidJob(job) && ScopeByResource(job) && Grouped(job) && n >= 1
    requires j < |job.objects| && k < |job.objects| && Bystander(job, st, n, j, k)
    requires Extended(st, st2, Needed(job, 0, n))
    ensures IsCreate(job, c, 0, n) && !job.objects[c.index].gc && !Survives(job, st2.flags, c)
  {
    c := FirstCreate(job, k, n);
    HitIffReached(job, st, st2, c, n, j);
    hide HitBy, Reached, Extended, Needed, ValidJob, ScopeByResource, Grouped, Matches;
    assert HitBy(job, st2.flags, j, c);
  }

  /** Every template is created at iteration 0. */
  lemma FirstCreate(job: Job, k: nat, n: nat) returns (c: Create)
    requires ValidJob(job) && k < |job.objects| && n >= 1
    ensures IsCreate(job, c, 0, n) && c.index == k && c.iteration == 0
  {
    var o := job.objects[k];
    DivMod(0, o.repeatEvery, 0, 0);
    c := Create(k, 0, 1, Placement(o, IterationNamespace(job, 0)));
  }

  /** A run asks for a namespace exactly when some object is to be placed in one, and every
      such object's namespace is among those it asks for. */
  lemma NeededIff(job: Job, n: nat)
    requires ValidJob(job) && n >= 1
    ensures Needed(job, 0, n) != {} <==> exists c: Create :: InGenerated(job, c, n)
    ensures forall c: Create :: InGenerated(job, c, n) ==> c.ns in Needed(job, 0, n)
  {
    forall c: Create | InGenerated(job, c, n) ensures c.ns in Needed(job, 0, n) {
      assert NamespacesRequired(job);
    }
    if Needed(job, 0, n) != {} {
      var k :| 0 <= k < |job.objects| && job.objects[k].namespaced && job.objects[k].fixedNamespace == "";
      var c := FirstCreate(job, k, n);
      assert InGenerated(job, c, n);
    }
  }

  /** c is a create of a namespaced template that fixes no namespace. */
  ghost predicate InGenerated(job: Job, c: Create, n: nat)
    requires ValidJob(job)
  {
    IsCreate(job, c, 0, n) && job.objects[c.index].namespaced && job.objects[c.index].fixedNamespace == ""
  }

  /** The namespaces a run places objects in are marked afterwards. */
  lemma PlaceFlagged(job: Job, st: State, st2: State, c: Create, n: nat)
    requires ValidJob(job) && IsCreate(job, c, 0, n) && Extended(st, st2, Needed(job, 0, n))
    ensures job.objects[c.index].namespaced && job.objects[c.index].fixedNamespace == "" ==> Flagged(st2, c.ns)
  {
    if job.objects[c.index].namespaced && job.objects[c.index].fixedNamespace == "" {
      assert NamespacesRequired(job);
      assert IterationNamespace(job, c.iteration) in Needed(job, 0, n);
    }
  }

  lemma LiveAt(job: Job, st: State, st2: State, n: nat, c: Create)
    requires ValidJob(job) && st.live == map[] && Ran(job, st, st2, 0, n)
    ensures c in st2.live <==> IsCreate(job, c, 0, n) && Survives(job, st2.flags, c)
    ensures c in st2.live ==> st2.live[c] == st.runid
  {
    hide Survives, ValidJob, Matches, Needed;
  }

  lemma SurvivesIff(job: Job, st: State, st2: State, c: Create, n: nat)
    requires ValidJob(job) && ScopeByResource(job)
    requires IsCreate(job, c, 0, n) && Extended(st, st2, Needed(job, 0, n))
    ensures Survives(job, st2.flags, c)
       <==> !(Grouped(job) && exists j: nat :: j < |job.objects| && Reached(job, st, n, j, c.index))
  {
    hide Needed, ValidJob, ScopeByResource, Reached, HitBy, Fires, Extended, Grouped;
    forall j: nat | j < |job.objects| ensures HitBy(job, st2.flags, j, c) <==> Reached(job, st, n, j, c.index) {
      HitIffReached(job, st, st2, c, n, j);
    }
  }

  /** What is live after a run of [0, n) from a cluster without objects of the job. With a
      group above 0 it is every create of a template that no collected template of its
      resource and group reaches; otherwise it is every create. */
  lemma RunLive(job: Job, st: State, n: nat, c: Create)
    requires ValidJob(job) && ScopeByResource(job) && Faithful(st) && FixedExist(job, st) && st.live == map[]
    ensures
      var grouped := exists k :: 0 <= k < |job.objects| && job.objects[k].group > 0;
      var live := RunCreate(st, job, 0, n).live;
      && (c in live <==> IsCreate(job, c, 0, n)
                         && !(grouped && exists j: nat :: j < |job.objects| && Reached(job, st, n, j, c.index)))
      && (c in live ==> live[c] == st.runid)
  {
    var st2 := RunCreate(st, job, 0, n);
    RunCreateRan(st, job, 0, n);
    LiveAt(job, st, st2, n, c);
    if IsCreate(job, c, 0, n) {
      SurvivesIff(job, st, st2, c, n);
    }
    hide RunCreate, Needed, ValidJob, ScopeByResource, Reached, Survives, Fires, FixedExist, Extended;
  }

  /** So a grouped run leaves nothing of a collected template, whatever its scope and
      wherever it is placed. */
  lemma CollectedGone(job: Job, st: State, n: nat, c: Create)
    requires ValidJob(job) && Faithful(st) && FixedExist(job, st) && st.live == map[]
    requires exists k :: 0 <= k < |job.objects| && job.objects[k].group > 0
    requires c.index < |job.objects| && job.objects[c.index].gc
    ensures c !in RunCreate(st, job, 0, n).live
  {
    var st2 := RunCreate(st, job, 0, n);
    RunCreateRan(st, job, 0, n);
    LiveAt(job, st, st2, n, c);
    if IsCreate(job, c, 0, n) {
      PlaceFlagged(job, st, st2, c, n);
      hide RunCreate, Needed, ValidJob, IterationNamespace, Fires;
      assert HitBy(job, st2.flags, c.index, c);
    }
  }

  /** Objects that carry another run id stay, collection or not. */
  lemma OtherRunsStay(job: Job, st: State, start: nat, end: nat, c: Create)
    requires ValidJob(job) && Faithful(st) && FixedExist(job, st)
    requires c in st.live && st.live[c] != st.runid
    ensures
      var live := RunCreate(st, job, start, end).live;
      c in live && live[c] == st.live[c]
  {
    RunCreateRan(st, job, start, end);
    hide RunCreate, Survives, ValidJob, Needed;
  }

  // ----- gc of the whole job -----

  /** The job's label selector reaches c when template k's resources are deleted. */
  predicate Reaches(job: Job, k: nat, c: Create)
    requires k < |job.objects|
  {
    var o := job.objects[k];
    && c.index < |job.objects| && job.objects[c.index].gvr == o.gvr
    && (o.namespaced ==> o.fixedNamespace != "" && c.ns == o.fixedNamespace)
  }

  predicate ReachedByFirst(job: Job, k: nat, c: Create)
    requires k <= |job.objects|
  {
    k > 0 && (ReachedByFirst(job, k - 1, c) || Reaches(job, k - 1, c))
  }

  lemma OnlyFixedReach(job: Job, k: nat)
    requires k < |job.objects| && job.objects[k].namespaced && job.objects[k].fixedNamespace == ""
    ensures forall c :: !Reaches(job, k, c)
  {
  }

  /** gc: unmark and delete the job's namespaces, then the objects in fixed
      namespaces and the cluster-scoped ones. */
  function Collect(st: State, job: Job): State {
    st.(flags := map ns | ns in st.flags :: st.flags[ns] && ns !in st.owned,
        owned := {},
        live := CollectedLive(st, job, |job.objects|))
  }

  /** What is live once the namespaces and the resources of the first k templates
      have been deleted. */
  function CollectedLive(st: State, job: Job, k: nat): map<Create, string>
    requires k <= |job.objects|
  {
    map c | c in st.live && c.ns !in st.owned && !ReachedByFirst(job, k, c) :: st.live[c]
  }

  lemma CollectStart(st: State, job: Job)
    ensures CollectedLive(st, job, 0) == map c | c in st.live && c.ns !in st.owned :: st.live[c]
  {
  }

  lemma CollectEnd(st: State, job: Job)
    ensures Collect(st, job).(live := CollectedLive(st, job, |job.objects|)) == Collect(st, job)
  {
    hide CollectedLive;
  }

  lemma CollectStep(st: State, job: Job, k: nat)
    requires k < |job.objects|
    ensures
      var before, after := CollectedLive(st, job, k), CollectedLive(st, job, k + 1);
      && after == (map c | c in before && !Reaches(job, k, c) :: before[c])
      && (job.objects[k].namespaced && job.objects[k].fixedNamespace == "" ==> after == before)
  {
    if job.objects[k].namespaced && job.objects[k].fixedNamespace == "" {
      OnlyFixedReach(job, k);
    }
    hide Reaches;
  }

  lemma {:induction false} ReachedByFirstIff(job: Job, k: nat, c: Create)
    requires k <= |job.objects|
    ensures ReachedByFirst(job, k, c) <==> exists m :: 0 <= m < k && Reaches(job, m, c)
  {
    if k > 0 {
      ReachedByFirstIff(job, k - 1, c);
    }
  }

  lemma CollectFaithful(st: State, job: Job)
    requires Faithful(st)
    ensures Faithful(Collect(st, job))
  {
    hide ReachedByFirst;
    var st2 := Collect(st, job);
    forall ns | Flagged(st2, ns) ensures Exists(st2, ns) {
      assert Flagged(st, ns);
    }
  }

  /** Nothing of the job is on the cluster or in the cache. */
  ghost predicate Clean(st: State) {
    st.live == map[] && st.owned == {} && forall ns :: !Flagged(st, ns)
  }

  /** gc undoes a run: creating [0, n) on a clean cluster, in namespaces that are the
      job's own, and collecting leaves it clean, cache included. */
  lemma RunThenCollect(job: Job, st: State, n: nat)
    requires ValidJob(job) && FixedExist(job, st) && Clean(st) && Needed(job, 0, n) !! st.foreign
    ensures
      var st2 := Collect(RunCreate(st, job, 0, n), job);
      && Clean(st2) && st2.foreign == st.foreign
      && st2.uuid == st.uuid && st2.runid == st.runid && st2.jobIterations == st.jobIterations
  {
    var mid := RunCreate(st, job, 0, n);
    RunCreateRan(st, job, 0, n);
    hide RunCreate, Survives, ValidJob, IterationNamespace, Reaches, ReachedByFirst;
    forall c | c in mid.live
      ensures c.ns in mid.owned || ReachedByFirst(job, |job.objects|, c)
    {
      assert IsCreate(job, c, 0, n);
      PlacedInOwn(job, mid, c, n);
      ReachedByFirstIff(job, |job.objects|, c);
    }
    assert Collect(mid, job).live == map[];
  }

  lemma PlacedInOwn(job: Job, st: State, c: Create, n: nat)
    requires ValidJob(job) && IsCreate(job, c, 0, n) && Needed(job, 0, n) <= st.owned
    ensures c.ns in st.owned || Reaches(job, c.index, c)
  {
    var o := job.objects[c.index];
    if o.namespaced && o.fixedNamespace == "" {
      assert NamespacesRequired(job);
      assert IterationNamespace(job, c.iteration) in Needed(job, 0, n);
    }
  }

  /** A template of c's resource is fixed in the namespace c is in. */
  ghost predicate FixedThere(job: Job, c: Create)
    requires c.index < |job.objects|
  {
    exists k :: 0 <= k < |job.objects| && job.objects[k].gvr == job.objects[c.index].gvr
      && job.objects[k].fixedNamespace == c.ns != ""
  }

  /** What gc leaves of a run from a clean cluster, exactly: the live objects placed in
      namespaces that are not the job's own, unless a template of the same resource is
      fixed in that namespace. */
  lemma GcLeavesIff(job: Job, st: State, n: nat, c: Create)
    requires ValidJob(job) && ScopeByResource(job) && FixedExist(job, st) && Clean(st)
    ensures
      var mid := RunCreate(st, job, 0, n);
      c in Collect(mid, job).live
      <==> c in mid.live && c.index < |job.objects| && c.ns in st.foreign
           && job.objects[c.index].namespaced && job.objects[c.index].fixedNamespace == ""
           && !FixedThere(job, c)
  {
    var mid := RunCreate(st, job, 0, n);
    RunCreateRan(st, job, 0, n);
    LiveAt(job, st, mid, n, c);
    ReachedByFirstIff(job, |job.objects|, c);
    hide RunCreate, Survives, ReachedByFirst, Ran, IsCreate, ScopeByResource, FixedExist;
    if c in mid.live {
      assert mid.owned == Needed(job, 0, n) - st.foreign by { OwnedAfter(job, st, mid, n); }
      OwnReach(job, st, c, n);
    }
  }

  lemma OwnedAfter(job: Job, st: State, st2: State, n: nat)
    requires ValidJob(job) && st.owned == {} && Ran(job, st, st2, 0, n)
    ensures st2.owned == Needed(job, 0, n) - st.foreign
  {
    hide ValidJob, Needed;
  }

  /** Whether gc reaches a create outside the job's own namespaces. */
  lemma OwnReach(job: Job, st: State, c: Create, n: nat)
    requires ValidJob(job) && ScopeByResource(job) && FixedExist(job, st) && IsCreate(job, c, 0, n)
    ensures
      var o := job.objects[c.index];
      && (o.namespaced && o.fixedNamespace == "" ==>
            && c.ns in Needed(job, 0, n)
            && ((exists m :: 0 <= m < |job.objects| && Reaches(job, m, c))
                <==> FixedThere(job, c)))
      && (!(o.namespaced && o.fixedNamespace == "") ==> Reaches(job, c.index, c))
  {
    var o := job.objects[c.index];
    if o.namespaced && o.fixedNamespace == "" {
      assert NamespacesRequired(job);
      assert IterationNamespace(job, c.iteration) in Needed(job, 0, n);
      if FixedThere(job, c) {
        var k :| 0 <= k < |job.objects| && job.objects[k].gvr == o.gvr && job.objects[k].fixedNamespace == c.ns != "";
        assert job.objects[k].namespaced;
        assert Reaches(job, k, c);
      }
    }
  }

  // ----- What a run leaves alone -----

  /** Creation and collection change neither the identifiers nor foreign namespaces. */
  ghost predicate SameIdentity(st: State, st2: State) {
    && st2.uuid == st.uuid && st2.runid == st.runid && st2.jobIterations == st.jobIterations
    && st2.foreign == st.foreign
  }

  lemma {:induction false} RangeIdentity(st: State, job: Job, start: nat, end: nat)
    requires ValidJob(job)
    ensures SameIdentity(st, CreateRange(st, job, start, end))
    decreases end
  {
    hide ValidJob, GenerateNamespace;
    if start < end {
      RangeIdentity(st, job, start, end - 1);
    }
  }

  lemma {:induction false} LoopIdentity(st: State, job: Job, start: nat, end: nat)
    requires ValidJob(job)
    ensures SameIdentity(st, DefaultLoop(st, job, start, end))
    decreases end
  {
    hide GenerateNamespace, IterationCreates, AddAll, Landing, NamespacesRequired;
    if start < end {
      LoopIdentity(st, job, start, end - 1);
    }
  }

  lemma {:induction false} GroupsIdentity(st: State, job: Job, nums: seq<int>, start: nat, end: nat)
    requires ValidJob(job)
    ensures SameIdentity(st, GroupLoop(st, job, nums, start, end))
    decreases |nums|
  {
    hide ValidJob, RangeCreates, Kept, AddAll, Landing;
    if nums != [] {
      GroupsIdentity(st, job, nums[..|nums| - 1], start, end);
    }
  }

  lemma RunIdentity(st: State, job: Job, start: nat, end: nat)
    requires ValidJob(job)
    ensures SameIdentity(st, RunCreate(st, job, start, end))
  {
    hide GroupLoop, DefaultLoop, CreateRange, NamespacesRequired, Grouped;
    RangeIdentity(st, job, start, end);
    var pre := if NamespacesRequired(job) then PreCreate(st, job, start, end) else st;
    GroupsIdentity(pre, job, Groups(job), start, end);
    LoopIdentity(DefaultStart(st, job, start, end), job, start, end);
  }

  // ----- The namespace creates of a run -----

  /** preCreateNamespaces and the default loop treat namespaces alike. */
  lemma {:induction false} LoopNamespaces(st: State, job: Job, start: nat, end: nat)
    requires ValidJob(job) && NamespacesRequired(job) && job.namespacedIterations
    ensures
      var a, b := DefaultLoop(st, job, start, end), CreateRange(st, job, start, end);
      a.nsCalls == b.nsCalls && a.flags == b.flags && a.owned == b.owned && a.foreign == b.foreign
    decreases end
  {
    if start < end {
      hide IterationCreates, GenerateNamespace, ValidJob;
      LoopNamespaces(st, job, start, end - 1);
    }
  }

  /** Over [0, n) with an empty cache, one create request per namespace: base-0,
      base-1, up to base-(ceil(n/IterationsPerNamespace) - 1), in that order. */
  lemma {:induction false} NamespaceCalls(st: State, job: Job, n: nat)
    requires ValidJob(job) && job.namespacedIterations
    requires forall ns :: !Flagged(st, ns)
    ensures CeilDiv(n, job.iterationsPerNamespace) >= 0
    ensures
      var names := Names(job.namespace, CeilDiv(n, job.iterationsPerNamespace));
      var st2 := CreateRange(st, job, 0, n);
      && st2.nsCalls == st.nsCalls + names
      && forall ns :: Flagged(st2, ns) <==> ns in names
    decreases n
  {
    var per := job.iterationsPerNamespace;
    BlockOf(n, per);
    if n == 0 {
      DivMod(per - 1, per, 0, per - 1);
      assert st.nsCalls + Names(job.namespace, 0) == st.nsCalls;
    } else {
      NamespaceCalls(st, job, n - 1);
      CeilStep(n - 1, per);
      BlockOf(n - 1, per);
      var before := CreateRange(st, job, 0, n - 1);
      var had := CeilDiv(n - 1, per);
      var q := (n - 1) / per;
      assert GenerateNamespace(job, n - 1) == NamespaceName(job.namespace, q);
      NameListed(job.namespace, had, q);
      if (n - 1) % per == 0 {
        assert Names(job.namespace, had + 1) == Names(job.namespace, had) + [NamespaceName(job.namespace, q)];
      }
    }
  }

  lemma {:induction false} AlreadyFlagged(st: State, job: Job, start: nat, end: nat)
    requires ValidJob(job) && forall i :: start <= i < end ==> Flagged(st, GenerateNamespace(job, i))
    ensures CreateRange(st, job, start, end) == st
    decreases end
  {
    if start < end {
      AlreadyFlagged(st, job, start, end - 1);
    }
  }

  lemma {:induction false} GroupsKeepCalls(st: State, job: Job, nums: seq<int>, start: nat, end: nat)
    requires ValidJob(job)
    ensures GroupLoop(st, job, nums, start, end).nsCalls == st.nsCalls
    decreases |nums|
  {
    if nums != [] {
      hide ValidJob, Kept, AddAll, RangeCreates;
      GroupsKeepCalls(st, job, nums[..|nums| - 1], start, end);
    }
  }

  /** A namespaced job over [0, n) from an empty cache creates each of its
      namespaces once, in index order, whichever mode runs it. */
  lemma RunNamespaceCalls(st: State, job: Job, n: nat)
    requires ValidJob(job) && NamespacesRequired(job) && job.namespacedIterations
    requires forall ns :: !Flagged(st, ns)
    ensures CeilDiv(n, job.iterationsPerNamespace) >= 0
    ensures RunCreate(st, job, 0, n).nsCalls
         == st.nsCalls + Names(job.namespace, CeilDiv(n, job.iterationsPerNamespace))
  {
    NamespaceCalls(st, job, n);
    var pre := CreateRange(st, job, 0, n);
    if Grouped(job) {
      GroupsKeepCalls(pre, job, Groups(job), 0, n);
    } else if job.preCreateNamespaces {
      forall i | 0 <= i < n ensures Flagged(pre, GenerateNamespace(job, i)) {
        FlaggedAfter(st, job, n, i);
      }
      AlreadyFlagged(pre, job, 0, n);
      LoopNamespaces(pre, job, 0, n);
    } else {
      LoopNamespaces(st, job, 0, n);
    }
  }

  lemma {:induction false} FlaggedAfter(st: State, job: Job, n: nat, i: nat)
    requires ValidJob(job) && i < n
    ensures Flagged(CreateRange(st, job, 0, n), GenerateNamespace(job, i))
    decreases n
  {
    if i < n - 1 {
      FlaggedAfter(st, job, n - 1, i);
    }
  }

  /** base-q is among base-0 .. base-(n-1) exactly when q < n. */
  lemma NameListed(base: string, n: nat, q: nat)
    ensures NamespaceName(base, q) in Names(base, n) <==> q < n
  {
    if q < n {
      assert Names(base, n)[q] == NamespaceName(base, q);
    } else if NamespaceName(base, q) in Names(base, n) {
      var k :| 0 <= k < n && Names(base, n)[k] == NamespaceName(base, q);
      NamesDistinct(base, k, q);
    }
  }

  /** getJobNamespaces: the measurement's own computation of the job's namespaces. */
  method GetJobNamespaces(job: Job, iterations: nat) returns (namespaces: set<string>)
    ensures job.namespacedIterations ==>
      var per := if job.iterationsPerNamespace <= 0 then 1 else job.iterationsPerNamespace;
      && CeilDiv(iterations, per) >= 0
      && forall ns :: ns in namespaces <==> ns in Names(job.namespace, CeilDiv(iterations, per))
    ensures !job.namespacedIterations ==> namespaces == {job.namespace}
  {
    namespaces := {};
    if job.namespacedIterations {
      var per := job.iterationsPerNamespace;
      if per <= 0 {
        per := 1;
      }
      DivMod(per - 1, per, 0, per - 1);
      for i := 0 to iterations
        invariant CeilDiv(i, per) >= 0
        invariant forall ns :: ns in namespaces <==> ns in Names(job.namespace, CeilDiv(i, per))
      {
        BlockOf(i, per);
        CeilStep(i, per);
        var q := i / per;
        ghost var had := CeilDiv(i, per);
        NameListed(job.namespace, had, q);
        if i % per == 0 {
          assert Names(job.namespace, had + 1) == Names(job.namespace, had) + [NamespaceName(job.namespace, q)];
        }
        namespaces := namespaces + {NamespaceName(job.namespace, q)};
      }
    } else {
      namespaces := namespaces + {job.namespace};
    }
  }
}
