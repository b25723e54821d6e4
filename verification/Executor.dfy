/** JobExecutor: the creation, churn, verification and garbage-collection methods,
    updating the executor's fields and the cluster in place. Each method is proved
    against the function of the same step in Cluster, Lifecycle or NamespaceChurn. */
module Executor {
  import opened Churn
  import opened Decimal
  import opened Sequences
  import opened Workload
  import opened Cluster
  import opened Lifecycle
  import opened NamespaceChurn

  class JobExecutor {
    const job: Job
    var createdNamespaces: map<string, bool>
    var uuid: string
    var runid: string
    var jobIterations: int
    // the cluster
    var owned: set<string>
    var foreign: set<string>
    var live: map<Create, string>
    // the requests sent to it
    var issued: seq<Create>
    var nsCalls: seq<string>

    ghost function Snapshot(): State
      reads this
    {
      State(createdNamespaces, owned, foreign, live, uuid, runid, jobIterations, issued, nsCalls)
    }

    constructor (job: Job, foreign: set<string>, uuid: string, runid: string, jobIterations: int)
      ensures this.job == job
      ensures Snapshot() == State(map[], {}, foreign, map[], uuid, runid, jobIterations, [], [])
    {
      this.job, this.foreign := job, foreign;
      this.uuid, this.runid, this.jobIterations := uuid, runid, jobIterations;
      createdNamespaces, owned, live, issued, nsCalls := map[], {}, map[], [], [];
    }

    method CreateNamespaceIn(ns: string)
      modifies this
      ensures Snapshot() == CreateNamespace(old(Snapshot()), ns)
    {
      if ns in createdNamespaces && createdNamespaces[ns] {
        return;
      }
      nsCalls := nsCalls + [ns];
      if ns !in owned && ns !in foreign {
        owned := owned + {ns};
      }
      createdNamespaces := createdNamespaces[ns := true];
    }

    method PreCreateNamespaces(start: nat, end: nat)
      requires ValidJob(job)
      modifies this
      ensures Snapshot() == PreCreate(old(Snapshot()), job, start, end)
    {
      if job.namespacedIterations {
        var i := start;
        while i < end
          invariant start <= i && (i <= end || i == start)
          invariant Snapshot() == CreateRange(old(Snapshot()), job, start, i)
        {
          CreateNamespaceIn(GenerateNamespace(job, i));
          i := i + 1;
        }
      } else {
        CreateNamespaceIn(job.namespace);
      }
    }

    /** createRequest: the object's own namespace wins; a missing namespace answers
        NotFound and an existing object AlreadyExists. */
    method CreateRequest(c: Create)
      modifies this
      ensures Snapshot() == SendAll(old(Snapshot()), [c])
    {
      issued := issued + [c];
      if (c.ns == "" || c.ns in owned || c.ns in foreign) && c !in live {
        live := live[c := runid];
      }
      ghost var st := old(Snapshot());
      assert Landing(st, [c]) == if Lands(st, c) then {c} else {};
      assert live == AddAll(st.live, Landing(st, [c]), runid);
    }

    method ReplicaHandler(o: Object, index: nat, i: nat, ns: string)
      requires o.replicas >= 1
      modifies this
      ensures Snapshot() == SendAll(old(Snapshot()), ReplicaCreates(o, index, i, ns, o.replicas))
    {
      ghost var st := Snapshot();
      var r := 1;
      SendNothing(st);
      while r <= o.replicas
        invariant 1 <= r <= o.replicas + 1
        invariant Snapshot() == SendAll(st, ReplicaCreates(o, index, i, ns, r - 1))
      {
        CreateRequest(Create(index, i, r, Placement(o, ns)));
        SendAllAppend(st, ReplicaCreates(o, index, i, ns, r - 1), [Create(index, i, r, Placement(o, ns))]);
        r := r + 1;
      }
    }

    /** The object loop of one iteration. */
    method CreateObjects(ids: seq<nat>, i: nat, ns: string)
      requires ValidJob(job) && Indices(job, ids) && ns == IterationNamespace(job, i)
      modifies this
      ensures Snapshot() == SendAll(old(Snapshot()), IterationCreates(job, ids, i))
    {
      ghost var st := Snapshot();
      SendNothing(st);
      for k := 0 to |ids|
        invariant Snapshot() == SendAll(st, IterationCreates(job, ids[..k], i))
      {
        hide SendAll, IterationNamespace;
        var o := job.objects[ids[k]];
        if o.runOnce {
          if i == 0 {
            ReplicaHandler(o, ids[k], i, ns);
          }
        } else if o.repeatEvery > 1 {
          if i % o.repeatEvery == 0 {
            ReplicaHandler(o, ids[k], i, ns);
          }
        } else {
          ReplicaHandler(o, ids[k], i, ns);
        }
        SendNothing(SendAll(st, IterationCreates(job, ids[..k], i)));
        assert Snapshot() == SendAll(SendAll(st, IterationCreates(job, ids[..k], i)), ObjectCreates(job, ids[k], i));
        SendAllAppend(st, IterationCreates(job, ids[..k], i), ObjectCreates(job, ids[k], i));
        assert ids[..k + 1][..k] == ids[..k];
      }
      assert ids[..|ids|] == ids;
    }

    method RunCreateJobDefault(start: nat, end: nat)
      requires ValidJob(job)
      modifies this
      ensures Snapshot() == RunDefault(old(Snapshot()), job, start, end)
    {
      var ns := "";
      var required := NamespacesRequired(job);
      if required {
        if job.preCreateNamespaces {
          PreCreateNamespaces(start, end);
        }
        if !job.namespacedIterations {
          CreateNamespaceIn(job.namespace);
          ns := job.namespace;
        }
      }
      ghost var first := DefaultStart(old(Snapshot()), job, start, end);
      assert Snapshot() == first;
      var i := start;
      while i < end
        invariant start <= i && (i <= end || i == start)
        invariant Snapshot() == DefaultLoop(first, job, start, i)
        invariant required ==> !job.namespacedIterations ==> ns == job.namespace
        invariant !required ==> ns == ""
      {
        hide Snapshot, CreateNamespace, SendAll, NamespacesRequired, IterationCreates, DefaultStart;
        if required && job.namespacedIterations {
          ns := GenerateNamespace(job, i);
          CreateNamespaceIn(ns);
        }
        CreateObjects(AllIndices(job), i, ns);
        i := i + 1;
      }
    }

    /** groupObjectsByNumber's map: every group number in use with its members, in
        ex.objects order. */
    method GroupMap() returns (groupMap: map<int, seq<nat>>)
      ensures forall g :: g in groupMap <==> exists k :: 0 <= k < |job.objects| && job.objects[k].group == g
      ensures forall g :: g in groupMap ==> groupMap[g] == Members(job, g, |job.objects|)
    {
      hide GroupMapOk, Members;
      groupMap := map[];
      GroupMapEmpty(job);
      for n := 0 to |job.objects|
        invariant GroupMapOk(job, groupMap, n)
      {
        var g := job.objects[n].group;
        GroupMapStep(job, groupMap, n);
        groupMap := groupMap[g := (if g in groupMap then groupMap[g] else []) + [n]];
      }
      GroupMapDone(job, groupMap);
    }

    /** The sort: the map's keys in ascending order, whatever order they are walked in. */
    method SortedNumbers(pending: set<int>) returns (nums: seq<int>)
      ensures Ascending(nums) && forall g :: g in nums <==> g in pending
    {
      hide Insert, Ascending;
      var rest := pending;
      nums := [];
      assert Ascending(nums) by { NoneAscends(); }
      while rest != {}
        invariant rest <= pending && Ascending(nums)
        invariant forall g :: g in nums <==> g in pending && g !in rest
        decreases |rest|
      {
        SomeElement(rest);
        var g :| g in rest;
        InsertAscending(nums, g);
        nums := Insert(nums, g);
        rest := rest - {g};
      }
    }

    /** groupObjectsByNumber: the groups in ascending order, each with its members. */
    method GroupObjectsByNumber() returns (nums: seq<int>, groups: seq<seq<nat>>)
      ensures nums == Groups(job) && |groups| == |nums|
      ensures forall j :: 0 <= j < |nums| ==> groups[j] == Members(job, nums[j], |job.objects|)
    {
      hide Members, Ascending;
      var groupMap := GroupMap();
      nums := SortedNumbers(groupMap.Keys);
      SameNumbers(job, nums);
      groups := [];
      for j := 0 to |nums|
        invariant |groups| == j
        invariant forall m :: 0 <= m < j ==> groups[m] == Members(job, nums[m], |job.objects|)
      {
        assert nums[j] in nums;
        groups := groups + [groupMap[nums[j]]];
      }
    }

    /** gcGroupObjects: for each gc object of the group, delete its resources that
        carry the group's label and this run id. */
    method GcGroupObjects(g: int, ids: seq<nat>)
      requires ids == Members(job, g, |job.objects|)
      modifies this
      ensures Snapshot() == GcGroup(old(Snapshot()), job, g)
    {
      ghost var st := Snapshot();
      hide HitBy, Members;
      for k := 0 to |ids|
        invariant Snapshot() == st.(live := live)
        invariant live == map c | c in st.live && !(st.live[c] == st.runid && HitByFirst(job, st.flags, ids, k, c))
                            :: st.live[c]
      {
        var o := job.objects[ids[k]];
        var before := live;
        if o.gc {
          live := map c | c in live && !(live[c] == runid && c.index < |job.objects|
                                         && HitBy(job, createdNamespaces, ids[k], c))
                    :: live[c];
        }
        if !o.gc {
          OnlyGcHits(job, st.flags, ids[k]);
        }
        assert live == map c | c in before && !(before[c] == st.runid && c.index < |job.objects|
                                                && HitBy(job, st.flags, ids[k], c))
                          :: before[c];
      }
      forall c ensures HitByFirst(job, st.flags, ids, |ids|, c) <==> Collected(job, st.flags, [g], c) {
        GroupHits(job, st.flags, g, c);
      }
      hide Collected, HitByFirst;
      assert live == Kept(job, st.flags, st.live, st.runid, [g]);
    }

    method RunCreateJobGrouped(start: nat, end: nat)
      requires ValidJob(job)
      modifies this
      ensures Snapshot() == RunGrouped(old(Snapshot()), job, start, end)
    {
      if NamespacesRequired(job) {
        PreCreateNamespaces(start, end);
      }
      ghost var pre := Snapshot();
      var nums, groups := GroupObjectsByNumber();
      for j := 0 to |nums|
        invariant Snapshot() == GroupLoop(pre, job, nums[..j], start, end)
      {
        hide NamespacesRequired, Kept, AddAll, Landing;
        RunGroup(nums[j], groups[j], start, end);
        assert nums[..j + 1][..j] == nums[..j];
      }
      assert nums[..|nums|] == nums;
    }

    /** One group: every iteration over its objects, then its garbage collection. */
    method RunGroup(g: int, ids: seq<nat>, start: nat, end: nat)
      requires ValidJob(job) && ids == Members(job, g, |job.objects|)
      modifies this
      ensures Snapshot() == GcGroup(SendAll(old(Snapshot()), RangeCreates(job, ids, start, end)), job, g)
    {
      hide Snapshot, SendAll, GcGroup, IterationCreates, NamespacesRequired, Members, IterationNamespace;
      ghost var st := Snapshot();
      SendNothing(st);
      var i := start;
      while i < end
        invariant start <= i && (i <= end || i == start)
        invariant Snapshot() == SendAll(st, RangeCreates(job, ids, start, i))
      {
        CreateObjects(ids, i, IterationNamespace(job, i));
        SendAllAppend(st, RangeCreates(job, ids, start, i), IterationCreates(job, ids, i));
        i := i + 1;
      }
      assert RangeCreates(job, ids, start, i) == RangeCreates(job, ids, start, end);
      GcGroupObjects(g, ids);
    }

    method RunCreateJob(start: nat, end: nat)
      requires ValidJob(job)
      modifies this
      ensures Snapshot() == RunCreate(old(Snapshot()), job, start, end)
    {
      if Grouped(job) {
        RunCreateJobGrouped(start, end);
      } else {
        RunCreateJobDefault(start, end);
      }
    }

    /** Verify, for `iterations` expected iterations. */
    method Verify(iterations: nat) returns (success: bool)
      requires ValidJob(job)
      ensures success <==> VerifyOk(job, Snapshot(), iterations)
    {
      success := true;
      for k := 0 to |job.objects|
        invariant success <==> forall j :: 0 <= j < k && !job.objects[j].gc ==>
          |LiveOf(Snapshot(), j)| == Expected(job.objects[j], iterations)
      {
        var o := job.objects[k];
        if !o.gc {
          var found := set c | c in live && c.index == k && live[c] == runid;
          assert found == LiveOf(Snapshot(), k);
          var expected := o.replicas;
          if !o.runOnce {
            var effective := iterations;
            if o.repeatEvery > 1 {
              effective := (iterations + o.repeatEvery - 1) / o.repeatEvery;
            }
            expected := o.replicas * effective;
          }
          if |found| != expected {
            success := false;
          }
        }
      }
    }

    /** gc of the whole job. */
    method Gc()
      modifies this
      ensures Snapshot() == Collect(old(Snapshot()), job)
    {
      ghost var st := Snapshot();
      hide Reaches;
      createdNamespaces := map ns | ns in createdNamespaces :: createdNamespaces[ns] && ns !in owned;
      live := map c | c in live && c.ns !in owned :: live[c];
      owned := {};
      CollectStart(st, job);
      hide CollectedLive;
      assert Snapshot() == Collect(st, job).(live := live);
      hide Collect;
      for k := 0 to |job.objects|
        invariant Snapshot() == Collect(st, job).(live := live)
        invariant live == CollectedLive(st, job, k)
      {
        if !job.objects[k].namespaced || job.objects[k].fixedNamespace != "" {
          live := map c | c in live && !Reaches(job, k, c) :: live[c];
        }
        CollectStep(st, job, k);
      }
      CollectEnd(st, job);
    }

    /** The churn loop's scan with its early break. */
    method RepeatInterval() returns (repeat: int)
      ensures repeat == FirstRepeat(job, |job.objects|)
    {
      repeat := 1;
      for k := 0 to |job.objects|
        invariant repeat == FirstRepeat(job, k) == 1
      {
        if job.objects[k].repeatEvery > repeat {
          repeat := job.objects[k].repeatEvery;
          RepeatStays(job, k + 1, |job.objects|);
          break;
        }
      }
    }

    /** The job's namespaces as the churn loop orders them, from a listing in any
        order. */
    method ListSorted() returns (names: seq<string>)
      ensures SortedBySuffix(names) && NoRepeats(names)
      ensures forall ns :: ns in names <==> ns in owned
    {
      names := [];
      var pending := owned;
      while pending != {}
        invariant pending <= owned
        invariant SortedBySuffix(names) && NoRepeats(names)
        invariant forall ns :: ns in names <==> ns in owned && ns !in pending
        decreases |pending|
      {
        var ns :| ns in pending;
        InsertSorted(names, ns);
        names := InsertBySuffix(names, ns);
        pending := pending - {ns};
      }
    }

    /** Patch, delete and unmark the window's namespaces with the cluster-scoped
        objects of the same iterations, then run creation over them. */
    method ChurnWindowOnce(cache: set<Create>, names: seq<string>, s: nat, e: nat)
      requires ValidJob(job) && s <= e <= |names|
      modifies this
      ensures Snapshot() == Cycle(old(Snapshot()), job, cache, names, s, e)
    {
      var window := set ns | ns in names[s..e];
      createdNamespaces := map ns | ns in createdNamespaces :: createdNamespaces[ns] && ns !in window;
      live := map c | c in live && !(c in cache && s <= c.iteration < e && Served(job, c)) && c.ns !in window
                :: live[c];
      owned := owned - window;
      assert Snapshot() == DeleteWindow(old(Snapshot()), job, cache, WindowNames(names, s, e), s, e);
      RunCreateJob(s, e);
    }

    /** One pass of the churn loop: `draw` is what rand returns. */
    method ChurnDrawn(names: seq<string>, cache: set<Create>, percent: int, repeat: int, draw: nat)
      returns (ghost window: (nat, nat))
      requires ValidJob(job) && names != [] && percent <= 100 && repeat >= 1
      modifies this
      ensures window.0 <= window.1 <= |names|
      ensures window.0 == RandStart(percent, |names|, repeat, draw)
      ensures window.1 == window.0 + NumToChurn(percent, |names|, repeat)
      ensures Snapshot() == Cycle(old(Snapshot()), job, cache, names, window.0, window.1)
    {
      hide Snapshot, Cycle, RandStart, NumToChurn, ValidJob;
      var num := NumToChurn(percent, |names|, repeat);
      var start := RandStart(percent, |names|, repeat, draw);
      WindowInRange(percent, |names|, repeat, draw);
      ChurnWindowOnce(cache, names, start, start + num);
      window := (start, start + num);
    }

    /** The churn loop. `expiry` is how many cycles begin before the timer of
        ChurnConfig.Duration fires and draws(k) is what rand returns in cycle k. */
    method ChurnLoop(names: seq<string>, cache: set<Create>, percent: int, repeat: int,
                     cycles: int, timed: bool, expiry: nat, draws: nat -> nat)
      returns (done: nat, ghost windows: seq<(nat, nat)>)
      requires ValidJob(job) && names != [] && percent <= 100 && repeat >= 1
      requires timed || cycles > 0
      modifies this
      ensures done == CycleLimit(cycles, timed, expiry)
      ensures |windows| == done && Fit(windows, |names|) && Drawn(windows, percent, |names|, repeat, draws)
      ensures Snapshot() == Cycles(old(Snapshot()), job, cache, names, windows)
    {
      ghost var st := Snapshot();
      done, windows := 0, [];
      assert Cycles(st, job, cache, names, windows) == st;
      hide Snapshot, Cycle, Cycles, RandStart, NumToChurn, ValidJob, Drawn, Fit, GoesOn, CycleLimit;
      NoneDrawn(percent, |names|, repeat, draws);
      ghost var limit := CycleLimit(cycles, timed, expiry);
      GoesOnUntil(cycles, timed, expiry, 0);
      while GoesOn(cycles, timed, expiry, done)
        invariant |windows| == done && Fit(windows, |names|) && Drawn(windows, percent, |names|, repeat, draws)
        invariant done <= limit && (GoesOn(cycles, timed, expiry, done) <==> done < limit)
        invariant Snapshot() == Cycles(st, job, cache, names, windows)
        decreases limit - done
      {
        ghost var window;
        window := ChurnDrawn(names, cache, percent, repeat, draws(done));
        DrawnMore(windows, percent, |names|, repeat, draws, window);
        CyclesMore(st, job, cache, names, windows, window);
        windows := windows + [window];
        done := done + 1;
        GoesOnUntil(cycles, timed, expiry, done);
      }
    }

    /** churnNamespaces: the sorted namespaces are churned in cycles until the timer or
        the cycle count stops it, and a standing workload is standing again at the end. */
    method ChurnNamespaces(percent: int, cycles: int, timed: bool, expiry: nat, draws: nat -> nat, ghost n: nat)
      returns (done: nat, ghost names: seq<string>, ghost windows: seq<(nat, nat)>)
      requires ValidJob(job) && owned != {} && percent <= 100
      requires timed || cycles > 0
      modifies this
      ensures done == CycleLimit(cycles, timed, expiry)
      ensures SortedBySuffix(names) && NoRepeats(names) && forall ns :: ns in names <==> ns in old(owned)
      ensures |windows| == done && Fit(windows, |names|)
      ensures Drawn(windows, percent, |names|, FirstRepeat(job, |job.objects|), draws)
      ensures Snapshot() == Cycles(old(Snapshot()), job, old(live.Keys), names, windows)
      ensures ChurnJob(job) && Standing(job, old(Snapshot()), n) ==>
        Standing(job, Snapshot(), n) && owned == old(owned) && live == old(live)
    {
      ghost var st := Snapshot();
      var list := ListSorted();
      var repeat := RepeatInterval();
      assert list != [];
      names := list;
      done, windows := ChurnLoop(list, live.Keys, percent, repeat, cycles, timed, expiry, draws);
      hide Cycles, SortedBySuffix, NoRepeats, Drawn, Fit, FirstRepeat, ValidJob;
      StandingChurn(job, st, n, names, windows);
    }
  }

  lemma StandingChurn(job: Job, st: State, n: nat, names: seq<string>, windows: seq<(nat, nat)>)
    requires ValidJob(job) && SortedBySuffix(names) && NoRepeats(names)
    requires forall ns :: ns in names <==> ns in st.owned
    requires Fit(windows, |names|)
    ensures ChurnJob(job) && Standing(job, st, n) ==>
      var st2 := Cycles(st, job, st.live.Keys, names, windows);
      Standing(job, st2, n) && st2.owned == st.owned && st2.live == st.live
  {
    hide Cycles, SortedBySuffix, NoRepeats, Standing, ChurnJob, ValidJob, Fit;
    if ChurnJob(job) && Standing(job, st, n) {
      StandingList(job, st, n, names);
      ChurnConserves(job, st, st.live.Keys, n, windows);
    }
  }

  lemma StandingList(job: Job, st: State, n: nat, names: seq<string>)
    requires ChurnJob(job) && Standing(job, st, n) && SortedBySuffix(names) && NoRepeats(names)
    requires forall ns :: ns in names <==> ns in st.owned
    ensures names == Names(job.namespace, n) && |names| == n
  {
    hide SortedBySuffix, NoRepeats, ValidJob, Names, Survives;
    SortedAreNames(job.namespace, n, names);
  }

  lemma {:induction false} RepeatStays(job: Job, k: nat, n: nat)
    requires k <= n <= |job.objects| && FirstRepeat(job, k) > 1
    ensures FirstRepeat(job, n) == FirstRepeat(job, k)
    decreases n
  {
    if k < n {
      RepeatStays(job, k, n - 1);
    }
  }

  /** One of the first k templates of ids hits c. */
  predicate HitByFirst(job: Job, flags: map<string, bool>, ids: seq<nat>, k: nat, c: Create)
    requires Indices(job, ids) && k <= |ids|
  {
    k > 0 && (HitByFirst(job, flags, ids, k - 1, c) || (c.index < |job.objects| && HitBy(job, flags, ids[k - 1], c)))
  }

  lemma NoneAscends()
    ensures Ascending([])
  {
  }

  lemma SameNumbers(job: Job, nums: seq<int>)
    requires Ascending(nums)
    requires forall g :: g in nums <==> exists k :: 0 <= k < |job.objects| && job.objects[k].group == g
    ensures nums == Groups(job)
  {
    forall g ensures g in nums <==> g in Groups(job) {
    }
    hide Ascending, Groups;
    assert Ascending(Groups(job));
    AscendingUnique(nums, Groups(job));
  }

  lemma SomeElement(s: set<int>)
    ensures s == {} || exists x :: x in s
  {
    if forall x :: x !in s {
      assert s == {};
    }
  }

  /** groupMap holds the members of every group among the first n objects. */
  ghost predicate GroupMapOk(job: Job, groupMap: map<int, seq<nat>>, n: nat)
    requires n <= |job.objects|
  {
    && (forall g :: Members(job, g, n) == if g in groupMap then groupMap[g] else [])
    && (forall g :: g in groupMap ==> groupMap[g] != [])
  }

  lemma GroupMapDone(job: Job, groupMap: map<int, seq<nat>>)
    requires GroupMapOk(job, groupMap, |job.objects|)
    ensures forall g :: g in groupMap <==> exists k :: 0 <= k < |job.objects| && job.objects[k].group == g
    ensures forall g :: g in groupMap ==> groupMap[g] == Members(job, g, |job.objects|)
  {
    hide Members;
    forall g ensures g in groupMap <==> exists k :: 0 <= k < |job.objects| && job.objects[k].group == g {
      MembersNonEmpty(job, g);
    }
  }

  lemma GroupMapEmpty(job: Job)
    ensures GroupMapOk(job, map[], 0)
  {
  }

  lemma GroupMapStep(job: Job, groupMap: map<int, seq<nat>>, n: nat)
    requires n < |job.objects| && GroupMapOk(job, groupMap, n)
    ensures var g := job.objects[n].group;
            GroupMapOk(job, groupMap[g := (if g in groupMap then groupMap[g] else []) + [n]], n + 1)
  {
  }

  lemma MembersNonEmpty(job: Job, g: int)
    ensures Members(job, g, |job.objects|) != [] <==> exists k :: 0 <= k < |job.objects| && job.objects[k].group == g
  {
    var ids := Members(job, g, |job.objects|);
    if k :| 0 <= k < |job.objects| && job.objects[k].group == g {
      MemberIndices(job, g, k);
    }
    if ids != [] {
      assert job.objects[ids[0]].group == g;
    }
  }

  lemma OnlyGcHits(job: Job, flags: map<string, bool>, k: nat)
    requires k < |job.objects| && !job.objects[k].gc
    ensures forall c: Create :: c.index < |job.objects| ==> !HitBy(job, flags, k, c)
  {
  }

  lemma {:induction false} HitByFirstIff(job: Job, flags: map<string, bool>, ids: seq<nat>, k: nat, c: Create)
    requires Indices(job, ids) && k <= |ids|
    ensures HitByFirst(job, flags, ids, k, c)
       <==> c.index < |job.objects| && exists m :: 0 <= m < k && HitBy(job, flags, ids[m], c)
  {
    hide HitBy;
    if k > 0 {
      HitByFirstIff(job, flags, ids, k - 1, c);
    }
  }

  /** The group's own members are the only templates that can hit a member. */
  lemma GroupHits(job: Job, flags: map<string, bool>, g: int, c: Create)
    ensures HitByFirst(job, flags, Members(job, g, |job.objects|), |Members(job, g, |job.objects|)|, c)
       <==> Collected(job, flags, [g], c)
  {
    var ids := Members(job, g, |job.objects|);
    hide Members, HitByFirst;
    HitByFirstIff(job, flags, ids, |ids|, c);
    if Collected(job, flags, [g], c) {
      var n :| 0 <= n < |job.objects| && HitBy(job, flags, n, c);
      MemberIndices(job, g, n);
      var m :| 0 <= m < |ids| && ids[m] == n;
    }
  }
}
