/** What a creation job asks for: the creates that runCreateJobDefault and
    runCreateJobGrouped issue, in order, and how many of them Verify expects.

    An object's place in `ex.objects` stands for the pointer: two entries are the
    same object only when they are the same position. */
module Workload {
  import opened Arithmetic
  import opened Decimal
  import opened Sequences

  /** One entry of ex.objects, with its REST mapping already resolved.
      `fixedNamespace` is metadata.namespace of the template ("" when absent). */
  datatype Object = Object(
    gvr: int,
    group: int,
    gc: bool,
    replicas: int,
    runOnce: bool,
    repeatEvery: int,
    namespaced: bool,
    fixedNamespace: string,
    churn: bool)

  datatype Job = Job(
    namespace: string,
    namespacedIterations: bool,
    iterationsPerNamespace: int,
    preCreateNamespaces: bool,
    objects: seq<Object>)

  /** One create request: the labels kube-burner.io/index, job-iteration and
      replica, and the namespace it is sent to ("" for cluster scope). */
  datatype Create = Create(index: nat, iteration: nat, replica: int, ns: string)

  /** What configuration validation and setupCreateJob guarantee. */
  ghost predicate ValidJob(job: Job) {
    && job.iterationsPerNamespace >= 1
    && forall k :: 0 <= k < |job.objects| ==>
         job.objects[k].repeatEvery >= 1 && job.objects[k].replicas >= 1
  }

  predicate NamespacesRequired(job: Job) {
    exists k :: 0 <= k < |job.objects| && job.objects[k].namespaced && job.objects[k].fixedNamespace == ""
  }

  /** generateNamespace. */
  function GenerateNamespace(job: Job, i: nat): string
    requires job.iterationsPerNamespace >= 1
  {
    NamespaceName(job.namespace, i / job.iterationsPerNamespace)
  }

  /** The value of `ns` during iteration i, in either execution mode. */
  function IterationNamespace(job: Job, i: nat): string
    requires job.iterationsPerNamespace >= 1
  {
    if !NamespacesRequired(job) then ""
    else if job.namespacedIterations then GenerateNamespace(job, i)
    else job.namespace
  }

  /** The three-way branch of both creation loops. */
  predicate Fires(o: Object, i: nat)
    requires o.repeatEvery >= 1
  {
    if o.runOnce then i == 0
    else if o.repeatEvery > 1 then i % o.repeatEvery == 0
    else true
  }

  /** Where createRequest sends a replica of o during an iteration whose
      namespace is ns: the object's own namespace wins, cluster scope drops ns. */
  function Placement(o: Object, ns: string): string {
    if o.fixedNamespace != "" then o.fixedNamespace
    else if o.namespaced then ns
    else ""
  }

  // ----- The enumerations, shaped like the loops that issue them -----

  function ReplicaCreates(o: Object, index: nat, i: nat, ns: string, n: int): seq<Create> {
    if n <= 0 then []
    else ReplicaCreates(o, index, i, ns, n - 1) + [Create(index, i, n, Placement(o, ns))]
  }

  function ObjectCreates(job: Job, index: nat, i: nat): seq<Create>
    requires ValidJob(job) && index < |job.objects|
  {
    var o := job.objects[index];
    if Fires(o, i) then ReplicaCreates(o, index, i, IterationNamespace(job, i), o.replicas) else []
  }

  /** A list of positions in ex.objects. */
  ghost predicate Indices(job: Job, ids: seq<nat>) {
    forall k :: 0 <= k < |ids| ==> ids[k] < |job.objects|
  }

  function IterationCreates(job: Job, ids: seq<nat>, i: nat): seq<Create>
    requires ValidJob(job) && Indices(job, ids)
  {
    if ids == [] then []
    else IterationCreates(job, ids[..|ids| - 1], i) + ObjectCreates(job, ids[|ids| - 1], i)
  }

  /** All iterations of [start, end), each over the objects in ids. */
  function RangeCreates(job: Job, ids: seq<nat>, start: nat, end: nat): seq<Create>
    requires ValidJob(job) && Indices(job, ids)
  {
    if end <= start then []
    else RangeCreates(job, ids, start, end - 1) + IterationCreates(job, ids, end - 1)
  }

  function UpTo(n: nat): (ids: seq<nat>)
    ensures |ids| == n && forall k :: 0 <= k < n ==> ids[k] == k
  {
    seq(n, (k: nat) => k)
  }

  function AllIndices(job: Job): (ids: seq<nat>)
    ensures Indices(job, ids) && |ids| == |job.objects|
  {
    UpTo(|job.objects|)
  }

  /** Everything runCreateJobDefault sends for [start, end). */
  function DefaultCreates(job: Job, start: nat, end: nat): seq<Create>
    requires ValidJob(job)
  {
    RangeCreates(job, AllIndices(job), start, end)
  }

  /** The creates of one object over [start, end). */
  function ObjectRange(job: Job, index: nat, start: nat, end: nat): seq<Create>
    requires ValidJob(job) && index < |job.objects|
  {
    RangeCreates(job, [index], start, end)
  }

  // ----- Groups -----

  /** The first n objects whose group number is g, in ex.objects order. */
  function Members(job: Job, g: int, n: nat): (ids: seq<nat>)
    requires n <= |job.objects|
    ensures Indices(job, ids)
    ensures forall k :: 0 <= k < |ids| ==> job.objects[ids[k]].group == g && ids[k] < n
  {
    if n == 0 then []
    else if job.objects[n - 1].group == g then Members(job, g, n - 1) + [n - 1]
    else Members(job, g, n - 1)
  }

  ghost predicate Ascending(s: seq<int>) {
    forall j, k :: 0 <= j < k < |s| ==> s[j] < s[k]
  }

  /** nums lists the group numbers in use, each once, in ascending order. */
  ghost predicate GroupNumbers(job: Job, nums: seq<int>) {
    && Ascending(nums)
    && (forall x :: x in nums <==> exists k :: 0 <= k < |job.objects| && job.objects[k].group == x)
  }

  /** sort.Slice's effect on one more number: the slot that keeps nums ascending. */
  function Insert(nums: seq<int>, x: int): (r: seq<int>)
    ensures forall y :: y in r <==> y == x || y in nums
    decreases |nums|
  {
    if nums == [] || nums[|nums| - 1] <= x then nums + [x]
    else
      assert nums == nums[..|nums| - 1] + [nums[|nums| - 1]];
      Insert(nums[..|nums| - 1], x) + [nums[|nums| - 1]]
  }

  lemma {:induction false} InsertAscending(nums: seq<int>, x: int)
    requires Ascending(nums) && x !in nums
    ensures Ascending(Insert(nums, x))
    decreases |nums|
  {
    if nums != [] {
      LastIsLargest(nums);
      var rest := Insert(nums[..|nums| - 1], x);
      InsertAscending(nums[..|nums| - 1], x);
      assert forall k :: 0 <= k < |rest| ==> rest[k] in rest;
    }
  }

  /** The last element of an ascending list is its largest, and occurs once. */
  lemma LastIsLargest(s: seq<int>)
    requires Ascending(s) && s != []
    ensures forall x :: x in s[..|s| - 1] <==> x in s && x != s[|s| - 1]
    ensures forall x :: x in s ==> x <= s[|s| - 1]
    ensures s[|s| - 1] in s
  {
    var rest, last := s[..|s| - 1], s[|s| - 1];
    assert s == rest + [last];
    assert last !in rest;
  }

  /** An ascending list is determined by its elements, so Go's random map order
      cannot show in the sorted groups. */
  lemma {:induction false} AscendingUnique(a: seq<int>, b: seq<int>)
    requires Ascending(a) && Ascending(b) && forall x :: x in a <==> x in b
    ensures a == b
    decreases |a|
  {
    if a != [] { LastIsLargest(a); }
    if b != [] { LastIsLargest(b); }
    if a != [] && b != [] {
      assert a[|a| - 1] in b && b[|b| - 1] in a;
      var ra, rb := a[..|a| - 1], b[..|b| - 1];
      forall x ensures x in ra <==> x in rb {
        assert x in a <==> x in b;
      }
      AscendingUnique(ra, rb);
      assert a == ra + [a[|a| - 1]] && b == rb + [b[|b| - 1]];
    }
  }

  /** The ascending group numbers of the first n objects. */
  function GroupsOf(job: Job, n: nat): (nums: seq<int>)
    requires n <= |job.objects|
    ensures Ascending(nums)
    ensures forall x :: x in nums <==> exists k :: 0 <= k < n && job.objects[k].group == x
  {
    if n == 0 then []
    else
      var before := GroupsOf(job, n - 1);
      var g := job.objects[n - 1].group;
      if g in before then before else InsertAscending(before, g); Insert(before, g)
  }

  function Groups(job: Job): (nums: seq<int>)
    ensures GroupNumbers(job, nums)
  {
    GroupsOf(job, |job.objects|)
  }

  /** Everything runCreateJobGrouped sends for [start, end): group after group. */
  function GroupedCreates(job: Job, nums: seq<int>, start: nat, end: nat): seq<Create>
    requires ValidJob(job)
  {
    if nums == [] then []
    else GroupedCreates(job, nums[..|nums| - 1], start, end)
         + RangeCreates(job, Members(job, nums[|nums| - 1], |job.objects|), start, end)
  }

  // ----- Which creates are sent, and how often -----

  /** c is what the loops send for its object, iteration and replica. */
  ghost predicate Matches(job: Job, c: Create)
    requires ValidJob(job)
  {
    && c.index < |job.objects|
    && Fires(job.objects[c.index], c.iteration)
    && 1 <= c.replica <= job.objects[c.index].replicas
    && c.ns == Placement(job.objects[c.index], IterationNamespace(job, c.iteration))
  }

  /** c is one of the creates of iterations [start, end). */
  ghost predicate IsCreate(job: Job, c: Create, start: nat, end: nat)
    requires ValidJob(job)
  {
    start <= c.iteration < end && Matches(job, c)
  }

  /** Where a create goes: to the namespace its template fixes, to none when it is
      cluster-scoped, and otherwise to the namespace of its block of iterations or, when
      iterations share one, to the job's. */
  lemma CreatePlaced(job: Job, c: Create, start: nat, end: nat)
    requires ValidJob(job) && IsCreate(job, c, start, end)
    ensures
      var o := job.objects[c.index];
      && (o.fixedNamespace != "" ==> c.ns == o.fixedNamespace)
      && (o.fixedNamespace == "" && !o.namespaced ==> c.ns == "")
      && (o.fixedNamespace == "" && o.namespaced ==>
            c.ns == if job.namespacedIterations
                    then job.namespace + "-" + Itoa(c.iteration / job.iterationsPerNamespace) else job.namespace)
  {
  }

  lemma {:induction false} CountReplicas(o: Object, index: nat, i: nat, ns: string, n: int, c: Create)
    ensures Count(ReplicaCreates(o, index, i, ns, n), c)
         == One(c.index == index && c.iteration == i && 1 <= c.replica <= n && c.ns == Placement(o, ns))
  {
    if n > 0 {
      hide Count;
      CountReplicas(o, index, i, ns, n - 1, c);
      CountSingle(Create(index, i, n, Placement(o, ns)), c);
      CountConcat(ReplicaCreates(o, index, i, ns, n - 1), [Create(index, i, n, Placement(o, ns))], c);
    }
  }

  lemma CountObject(job: Job, index: nat, i: nat, c: Create)
    requires ValidJob(job) && index < |job.objects|
    ensures Count(ObjectCreates(job, index, i), c) == One(c.index == index && c.iteration == i && Matches(job, c))
  {
    var o := job.objects[index];
    CountReplicas(o, index, i, IterationNamespace(job, i), o.replicas, c);
  }

  lemma {:induction false} CountIteration(job: Job, ids: seq<nat>, i: nat, c: Create)
    requires ValidJob(job) && Indices(job, ids)
    ensures Count(IterationCreates(job, ids, i), c)
         == if c.iteration == i && Matches(job, c) then Count(ids, c.index) else 0
  {
    if ids != [] {
      var rest, last := ids[..|ids| - 1], ids[|ids| - 1];
      CountIteration(job, rest, i, c);
      CountObject(job, last, i, c);
      CountConcat(IterationCreates(job, rest, i), ObjectCreates(job, last, i), c);
    }
  }

  /** A create of the range is sent once for every time its object is listed. */
  lemma {:induction false} CountRange(job: Job, ids: seq<nat>, start: nat, end: nat, c: Create)
    requires ValidJob(job) && Indices(job, ids)
    ensures Count(RangeCreates(job, ids, start, end), c)
         == if IsCreate(job, c, start, end) then Count(ids, c.index) else 0
    decreases end
  {
    hide Matches, IterationCreates, ValidJob, Indices;
    if end <= start {
      assert RangeCreates(job, ids, start, end) == [];
      assert Count(RangeCreates(job, ids, start, end), c) == 0;
    } else {
      hide Count;
      CountRange(job, ids, start, end - 1, c);
      CountIteration(job, ids, end - 1, c);
      CountConcat(RangeCreates(job, ids, start, end - 1), IterationCreates(job, ids, end - 1), c);
    }
  }

  lemma {:induction false} CountUpTo(n: nat, x: nat)
    ensures Count(UpTo(n), x) == One(x < n)
  {
    if n > 0 {
      CountUpTo(n - 1, x);
      assert UpTo(n)[..n - 1] == UpTo(n - 1);
    }
  }

  lemma {:induction false} CountMembers(job: Job, g: int, n: nat, x: nat)
    requires n <= |job.objects|
    ensures Count(Members(job, g, n), x) == One(x < n && job.objects[x].group == g)
  {
    if n == 0 {
      assert Members(job, g, 0) == [];
    } else {
      hide Count;
      CountMembers(job, g, n - 1, x);
      CountSingle(n - 1, x);
      CountConcat(Members(job, g, n - 1), [n - 1], x);
    }
  }

  /** Each create is sent by the one group its object belongs to. */
  lemma {:induction false} CountGroups(job: Job, nums: seq<int>, start: nat, end: nat, c: Create)
    requires ValidJob(job) && Ascending(nums)
    ensures Count(GroupedCreates(job, nums, start, end), c)
         == One(IsCreate(job, c, start, end) && job.objects[c.index].group in nums)
    decreases |nums|
  {
    hide RangeCreates, ValidJob, Indices, Members, Fires, Placement, IterationNamespace;
    if nums == [] {
      assert GroupedCreates(job, nums, start, end) == [];
    } else {
      hide Count;
      var rest, last := nums[..|nums| - 1], nums[|nums| - 1];
      var ids := Members(job, last, |job.objects|);
      CountGroups(job, rest, start, end, c);
      CountRange(job, ids, start, end, c);
      CountMembers(job, last, |job.objects|, c.index);
      CountConcat(GroupedCreates(job, rest, start, end), RangeCreates(job, ids, start, end), c);
      assert nums == rest + [last] && last !in rest;
    }
  }

  /** Every create of the range is sent exactly once, and nothing else is. */
  lemma CreatesExactlyOnce(job: Job, start: nat, end: nat, c: Create)
    requires ValidJob(job)
    ensures Count(DefaultCreates(job, start, end), c) == One(IsCreate(job, c, start, end))
  {
    CountRange(job, AllIndices(job), start, end, c);
    CountUpTo(|job.objects|, c.index);
  }

  /** Grouped execution refines default execution: over any iteration range it
      sends the same creates (object index, iteration, replica, namespace), each
      the same number of times. */
  lemma GroupedRefinesDefault(job: Job, nums: seq<int>, start: nat, end: nat)
    requires ValidJob(job) && GroupNumbers(job, nums)
    ensures multiset(GroupedCreates(job, nums, start, end)) == multiset(DefaultCreates(job, start, end))
  {
    var grouped, plain := GroupedCreates(job, nums, start, end), DefaultCreates(job, start, end);
    forall c ensures multiset(grouped)[c] == multiset(plain)[c] {
      CountGroups(job, nums, start, end, c);
      CreatesExactlyOnce(job, start, end, c);
      CountIsMultiplicity(grouped, c);
      CountIsMultiplicity(plain, c);
    }
  }

  /** The set of creates of a range. */
  ghost function Created(job: Job, start: nat, end: nat): (s: set<Create>)
    requires ValidJob(job)
    ensures forall c :: c in s <==> IsCreate(job, c, start, end)
  {
    forall c ensures c in DefaultCreates(job, start, end) <==> IsCreate(job, c, start, end) {
      CreatesExactlyOnce(job, start, end, c);
      CountPositive(DefaultCreates(job, start, end), c);
    }
    set c | c in DefaultCreates(job, start, end)
  }

  // ----- How many: Verify's formula against the loop -----

  /** Verify's objectsExpected for a run of n iterations. */
  function Expected(o: Object, n: nat): int
    requires o.repeatEvery >= 1
  {
    if o.runOnce then o.replicas
    else o.replicas * (if o.repeatEvery > 1 then CeilDiv(n, o.repeatEvery) else n)
  }

  lemma {:induction false} ReplicaCount(o: Object, index: nat, i: nat, ns: string, n: nat)
    ensures |ReplicaCreates(o, index, i, ns, n)| == n
  {
    if n > 0 {
      ReplicaCount(o, index, i, ns, n - 1);
    }
  }

  /** Verify's closed form is the number of creates the loop issues for an object
      over [0, n): all n >= 1, every repeat interval and replica count. */
  lemma {:induction false} VerifyCountsTheLoop(job: Job, index: nat, n: nat)
    requires ValidJob(job) && index < |job.objects| && n >= 1
    ensures |ObjectRange(job, index, 0, n)| == Expected(job.objects[index], n)
  {
    var o := job.objects[index];
    var r := o.repeatEvery;
    ReplicaCount(o, index, n - 1, IterationNamespace(job, n - 1), o.replicas);
    CeilStep(n - 1, r);
    assert IterationCreates(job, [index], n - 1) == ObjectCreates(job, index, n - 1);
    if n == 1 {
      DivMod(r - 1, r, 0, r - 1);
      DivMod(0, r, 0, 0);
      assert ObjectRange(job, index, 0, 0) == [];
    } else {
      VerifyCountsTheLoop(job, index, n - 1);
      Distribute(o.replicas, CeilDiv(n - 1, r), -1);
    }
  }

  // ----- What the templates are rendered with -----

  /** buildTemplateData: the (Iteration, Replica) pair a create is rendered with. */
  function Rendered(job: Job, c: Create): (int, int)
    requires ValidJob(job) && c.index < |job.objects|
  {
    (c.iteration / job.objects[c.index].repeatEvery, c.replica)
  }

  /** A create is rendered with its own replica number and the number of its block of
      repeatEvery iterations. */
  lemma RenderedWith(job: Job, c: Create)
    requires ValidJob(job) && c.index < |job.objects|
    ensures
      var (block, replica) := Rendered(job, c);
      var repeat := job.objects[c.index].repeatEvery;
      replica == c.replica && repeat * block <= c.iteration < repeat * block + repeat
  {
    var repeat := job.objects[c.index].repeatEvery;
    assert c.iteration == repeat * (c.iteration / repeat) + c.iteration % repeat;
  }

  /** For an object that is not RunOnce, the creates of [0, n) are rendered with
      every pair of [0, ceil(n/R)) x [1, Replicas], and no pair twice. */
  lemma RenderedPairsOnce(job: Job, index: nat, n: nat, pair: (int, int))
    requires ValidJob(job) && index < |job.objects| && n >= 1 && !job.objects[index].runOnce
    ensures
      var o := job.objects[index];
      (0 <= pair.0 < CeilDiv(n, o.repeatEvery) && 1 <= pair.1 <= o.replicas)
        <==> exists c: Create :: c.index == index && IsCreate(job, c, 0, n) && Rendered(job, c) == pair
    ensures forall c: Create, d: Create ::
              (c.index == d.index == index && IsCreate(job, c, 0, n) && IsCreate(job, d, 0, n)
               && Rendered(job, c) == Rendered(job, d)) ==> c == d
  {
    var o := job.objects[index];
    var r := o.repeatEvery;
    var q := pair.0;
    if 0 <= q < CeilDiv(n, r) && 1 <= pair.1 <= o.replicas {
      BelowCeil(n, r, q);
      var i := r * q;
      MulMonotone(r, 0, q);
      DivMod(i, r, q, 0);
      var c := Create(index, i, pair.1, Placement(o, IterationNamespace(job, i)));
      assert IsCreate(job, c, 0, n) && Rendered(job, c) == pair;
    }
    forall c: Create | c.index == index && IsCreate(job, c, 0, n)
      ensures c.iteration == r * (c.iteration / r) && 0 <= c.iteration / r < CeilDiv(n, r)
    {
      if r == 1 { DivMod(c.iteration, 1, c.iteration, 0); }
      assert c.iteration % r == 0;
      assert c.iteration == r * (c.iteration / r) + c.iteration % r;
      BelowCeil(n, r, c.iteration / r);
    }
  }

  // ----- All templates together -----

  /** What Verify expects of the first m templates together. */
  function SumExpected(job: Job, m: nat, n: nat): int
    requires ValidJob(job) && m <= |job.objects|
  {
    if m == 0 then 0 else SumExpected(job, m - 1, n) + Expected(job.objects[m - 1], n)
  }

  lemma IterationMore(job: Job, ids: seq<nat>, x: nat, i: nat)
    requires ValidJob(job) && Indices(job, ids) && x < |job.objects|
    ensures Indices(job, ids + [x]) && Indices(job, [x])
    ensures |IterationCreates(job, ids + [x], i)| == |IterationCreates(job, ids, i)| + |IterationCreates(job, [x], i)|
  {
    hide ObjectCreates, ValidJob;
    assert (ids + [x])[..|ids|] == ids;
    assert [x][..0] == [];
  }

  /** One more listed object adds its own creates to the range. */
  lemma {:induction false} RangeMore(job: Job, ids: seq<nat>, x: nat, start: nat, end: nat)
    requires ValidJob(job) && Indices(job, ids) && x < |job.objects|
    ensures Indices(job, ids + [x])
    ensures |RangeCreates(job, ids + [x], start, end)|
         == |RangeCreates(job, ids, start, end)| + |ObjectRange(job, x, start, end)|
    decreases end
  {
    hide IterationCreates, ValidJob;
    if start < end {
      RangeMore(job, ids, x, start, end - 1);
      IterationMore(job, ids, x, end - 1);
    }
  }

  lemma {:induction false} FirstCreates(job: Job, m: nat, n: nat)
    requires ValidJob(job) && m <= |job.objects| && n >= 1
    ensures Indices(job, UpTo(m)) && |RangeCreates(job, UpTo(m), 0, n)| == SumExpected(job, m, n)
    decreases m
  {
    hide RangeCreates, ObjectRange, ValidJob, Expected;
    if m == 0 {
      NoObjects(job, 0, n);
      assert UpTo(0) == [];
    } else {
      FirstCreates(job, m - 1, n);
      assert UpTo(m) == UpTo(m - 1) + [m - 1];
      RangeMore(job, UpTo(m - 1), m - 1, 0, n);
      VerifyCountsTheLoop(job, m - 1, n);
    }
  }

  lemma {:induction false} NoObjects(job: Job, start: nat, end: nat)
    requires ValidJob(job)
    ensures RangeCreates(job, [], start, end) == []
    decreases end
  {
    if start < end {
      NoObjects(job, start, end - 1);
    }
  }

  /** A run over [0, n) sends as many creates as Verify expects in all. */
  lemma DefaultCount(job: Job, n: nat)
    requires ValidJob(job) && n >= 1
    ensures |DefaultCreates(job, 0, n)| == SumExpected(job, |job.objects|, n)
  {
    FirstCreates(job, |job.objects|, n);
  }

  // ----- Membership in the lists of creates -----

  lemma RangeMembers(job: Job, ids: seq<nat>, start: nat, end: nat, c: Create)
    requires ValidJob(job) && Indices(job, ids)
    ensures c in RangeCreates(job, ids, start, end) <==> c.index in ids && IsCreate(job, c, start, end)
  {
    CountRange(job, ids, start, end, c);
    CountPositive(ids, c.index);
    CountPositive(RangeCreates(job, ids, start, end), c);
  }

  lemma IterationMembers(job: Job, ids: seq<nat>, i: nat, c: Create)
    requires ValidJob(job) && Indices(job, ids)
    ensures c in IterationCreates(job, ids, i) <==> c.index in ids && c.iteration == i && Matches(job, c)
  {
    CountIteration(job, ids, i, c);
    CountPositive(ids, c.index);
    CountPositive(IterationCreates(job, ids, i), c);
  }

  lemma MemberIndices(job: Job, g: int, x: nat)
    ensures x in Members(job, g, |job.objects|) <==> x < |job.objects| && job.objects[x].group == g
  {
    CountMembers(job, g, |job.objects|, x);
    CountPositive(Members(job, g, |job.objects|), x);
  }
}
