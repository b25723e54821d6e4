/** The MidPoint stage: concurrent creators, each retrying its request, counting it
    once and firing the notification at half of the expected replicas. Churn's creators
    start when those of the initial creation are done. */
module MidPoint {
  import opened Arithmetic
  import opened Cluster
  import opened Workload

  /** A createRequest goroutine: still trying, about to call notifyMidpoint, holding
      the value its atomic Add returned, or done (having counted or not). */
  datatype Phase = Trying | Accepted | Counted(value: int) | Done(counted: bool)

  /** What one attempt of the retry loop can meet. */
  datatype Answer = Created | AlreadyExists | NotFound | OtherError

  datatype Progress = Progress(phases: seq<Phase>, created: int, once: bool, notifications: nat)

  /** Whether notifyMidpoint counts at all. */
  datatype Tracker = Tracker(notifier: bool, totalReplicas: int)

  predicate Counting(t: Tracker) { t.notifier && t.totalReplicas > 0 }

  /** int64(totalReplicas) / 2. */
  function Half(t: Tracker): int
    requires Counting(t)
  {
    t.totalReplicas / 2
  }

  ghost predicate Attempt(s: Progress, s2: Progress, q: nat, answer: Answer) {
    && q < |s.phases| && s.phases[q] == Trying
    && s2 == s.(phases := s.phases[q := match answer
                                        case Created => Accepted
                                        case AlreadyExists => Accepted
                                        case NotFound => Done(false)
                                        case OtherError => Trying])
  }

  /** The guard of notifyMidpoint fails. */
  ghost predicate Skip(t: Tracker, s: Progress, s2: Progress, q: nat) {
    && q < |s.phases| && s.phases[q] == Accepted && !Counting(t)
    && s2 == s.(phases := s.phases[q := Done(false)])
  }

  /** createdReplicas.Add(1). */
  ghost predicate Add(t: Tracker, s: Progress, s2: Progress, q: nat) {
    && q < |s.phases| && s.phases[q] == Accepted && Counting(t)
    && s2 == s.(created := s.created + 1, phases := s.phases[q := Counted(s.created + 1)])
  }

  /** The comparison, and once.Do when it holds. */
  ghost predicate Compare(t: Tracker, s: Progress, s2: Progress, q: nat) {
    && q < |s.phases| && s.phases[q].Counted? && Counting(t)
    && var fire := s.phases[q].value >= Half(t);
       s2 == s.(phases := s.phases[q := Done(true)],
                once := s.once || fire,
                notifications := if fire && !s.once then s.notifications + 1 else s.notifications)
  }

  /** Goroutine q takes a step. */
  ghost predicate StepOf(t: Tracker, s: Progress, s2: Progress, q: nat) {
    Skip(t, s, s2, q) || Add(t, s, s2, q) || Compare(t, s, s2, q) || exists a :: Attempt(s, s2, q, a)
  }

  /** The first `initial` requests are those of the initial creation. A request of churn
      waits for them: creation ends with wg.Wait(). */
  ghost predicate MayStep(initial: nat, s: Progress, q: nat) {
    q < initial || forall p :: 0 <= p < initial && p < |s.phases| ==> s.phases[p].Done?
  }

  ghost predicate Next(t: Tracker, initial: nat, s: Progress, s2: Progress) {
    exists q :: MayStep(initial, s, q) && StepOf(t, s, s2, q)
  }

  ghost predicate Behaviour(t: Tracker, initial: nat, run: seq<Progress>) {
    && run != []
    && run[0] == Progress(run[0].phases, 0, false, 0) && initial <= |run[0].phases|
    && (forall q :: 0 <= q < |run[0].phases| ==> run[0].phases[q] == Trying)
    && forall k :: 0 < k < |run| ==> Next(t, initial, run[k - 1], run[k])
  }

  /** How many requests have counted. */
  function CountedSoFar(phases: seq<Phase>): nat {
    if phases == [] then 0
    else
      var last := phases[|phases| - 1];
      CountedSoFar(phases[..|phases| - 1]) + (if last.Counted? || last == Done(true) then 1 else 0)
  }

  lemma {:induction false} CountedUpdate(phases: seq<Phase>, q: nat, p: Phase)
    requires q < |phases|
    ensures CountedSoFar(phases[q := p])
         == CountedSoFar(phases) + (if p.Counted? || p == Done(true) then 1 else 0)
            - (if phases[q].Counted? || phases[q] == Done(true) then 1 else 0)
    decreases |phases|
  {
    var n := |phases| - 1;
    if q == n {
      assert phases[q := p][..n] == phases[..n];
    } else {
      assert phases[q := p][..n] == phases[..n][q := p];
      CountedUpdate(phases[..n], q, p);
    }
  }

  ghost predicate Inv(t: Tracker, s: Progress) {
    && s.created == CountedSoFar(s.phases)
    && s.notifications == (if s.once then 1 else 0)
    && (forall q :: 0 <= q < |s.phases| && s.phases[q].Counted? ==> 1 <= s.phases[q].value <= s.created)
    && (Counting(t) ==>
          && (s.once ==> s.created >= Max(1, Half(t)))
          && (s.created >= Max(1, Half(t)) && !s.once ==>
                exists q :: 0 <= q < |s.phases| && s.phases[q].Counted? && s.phases[q].value >= Half(t)))
    && (!Counting(t) ==> !s.once && s.created == 0)
  }

  lemma StepKeeps(t: Tracker, s: Progress, s2: Progress, q: nat)
    requires Inv(t, s) && StepOf(t, s, s2, q)
    ensures Inv(t, s2)
  {
    CountedUpdate(s.phases, q, s2.phases[q]);
    hide CountedSoFar;
    if Counting(t) && s2.created >= Max(1, Half(t)) && !s2.once {
      if Add(t, s, s2, q) {
        assert s2.phases[q].Counted? && s2.phases[q].value == s2.created;
      } else {
        var p :| 0 <= p < |s.phases| && s.phases[p].Counted? && s.phases[p].value >= Half(t);
        assert p != q && s2.phases[p] == s.phases[p];
      }
    }
  }

  lemma {:induction false} AlwaysInv(t: Tracker, initial: nat, run: seq<Progress>, k: nat)
    requires Behaviour(t, initial, run) && k < |run|
    ensures Inv(t, run[k]) && |run[k].phases| == |run[0].phases|
    decreases k
  {
    if k == 0 {
      NoneCounted(run[0].phases);
    } else {
      AlwaysInv(t, initial, run, k - 1);
      assert Next(t, initial, run[k - 1], run[k]);
      hide Inv;
      var q :| MayStep(initial, run[k - 1], q) && StepOf(t, run[k - 1], run[k], q);
      StepKeeps(t, run[k - 1], run[k], q);
    }
  }

  lemma {:induction false} NoneCounted(phases: seq<Phase>)
    requires forall q :: 0 <= q < |phases| ==> phases[q] == Trying
    ensures CountedSoFar(phases) == 0
  {
    if phases != [] {
      NoneCounted(phases[..|phases| - 1]);
    }
  }

  lemma {:induction false} AllCounted(phases: seq<Phase>)
    requires forall q :: 0 <= q < |phases| ==> phases[q] == Done(true)
    ensures CountedSoFar(phases) == |phases|
  {
    if phases != [] {
      AllCounted(phases[..|phases| - 1]);
    }
  }

  /** MidPoint fires at most once in every interleaving. */
  lemma FiresAtMostOnce(t: Tracker, initial: nat, run: seq<Progress>, k: nat)
    requires Behaviour(t, initial, run) && k < |run|
    ensures run[k].notifications <= 1
  {
    AlwaysInv(t, initial, run, k);
  }

  lemma {:induction false} CountBound(phases: seq<Phase>)
    ensures CountedSoFar(phases) <= |phases|
  {
    if phases != [] {
      CountBound(phases[..|phases| - 1]);
    }
  }

  /** However often a request is retried it counts at most once, so the counter never
      passes the number of requests. */
  lemma CountsOncePerRequest(t: Tracker, initial: nat, run: seq<Progress>, k: nat)
    requires Behaviour(t, initial, run) && k < |run|
    ensures run[k].created == CountedSoFar(run[k].phases) <= |run[0].phases|
  {
    AlwaysInv(t, initial, run, k);
    CountBound(run[k].phases);
  }

  /** With no comparison outstanding, MidPoint has fired exactly if the count reached
      max(1, totalReplicas / 2). */
  lemma FiredIff(t: Tracker, initial: nat, run: seq<Progress>, k: nat)
    requires Behaviour(t, initial, run) && k < |run| && Counting(t)
    requires forall q :: 0 <= q < |run[k].phases| ==> !run[k].phases[q].Counted?
    ensures run[k].notifications == 1 <==> run[k].created >= Max(1, Half(t))
  {
    AlwaysInv(t, initial, run, k);
  }

  /** Without a notifier or with nothing expected, nothing is counted and nothing fires. */
  lemma NeverFires(t: Tracker, initial: nat, run: seq<Progress>, k: nat)
    requires Behaviour(t, initial, run) && k < |run| && (!t.notifier || t.totalReplicas <= 0)
    ensures run[k].notifications == 0 && run[k].created == 0
  {
    AlwaysInv(t, initial, run, k);
  }

  /** A request that the API server has accepted, and what it becomes. */
  predicate Taken(p: Phase) { p == Accepted || p.Counted? || p == Done(true) }

  /** What the answer to an attempt means for the rest of the run: one that created the
      object or found it there makes the request count, NotFound ends it uncounted, and
      any other error leaves it trying. */
  lemma AnswerDecides(t: Tracker, initial: nat, run: seq<Progress>, j: nat, k: nat, q: nat, answer: Answer)
    requires Behaviour(t, initial, run) && j < k < |run| && Attempt(run[j], run[j + 1], q, answer) && Counting(t)
    ensures q < |run[k].phases|
    ensures answer in {Created, AlreadyExists} ==> Taken(run[k].phases[q])
    ensures answer == NotFound ==> run[k].phases[q] == Done(false)
    ensures answer == OtherError ==> run[j + 1].phases[q] == Trying
  {
    AlwaysInv(t, initial, run, j);
    AlwaysInv(t, initial, run, k);
    hide Inv, Behaviour;
    if answer in {Created, AlreadyExists} {
      TakenStays(t, initial, run, j + 1, k, q);
    } else if answer == NotFound {
      DoneStays(t, initial, run, j + 1, k, q);
    }
  }

  lemma {:induction false} TakenStays(t: Tracker, initial: nat, run: seq<Progress>, j: nat, k: nat, q: nat)
    requires Behaviour(t, initial, run) && j <= k < |run| && Counting(t)
    requires q < |run[j].phases| && Taken(run[j].phases[q])
    ensures q < |run[k].phases| && Taken(run[k].phases[q])
    decreases k
  {
    if j < k {
      TakenStays(t, initial, run, j, k - 1, q);
      assert Next(t, initial, run[k - 1], run[k]);
      hide Half;
      var p :| MayStep(initial, run[k - 1], p) && StepOf(t, run[k - 1], run[k], p);
    }
  }

  // ----- The initial creation and churn -----

  /** The initial creation is over and churn has not begun. */
  ghost predicate Boundary(initial: nat, s: Progress) {
    && initial <= |s.phases|
    && (forall q :: 0 <= q < initial ==> s.phases[q].Done?)
    && (forall q :: initial <= q < |s.phases| ==> s.phases[q] == Trying)
  }

  lemma {:induction false} DoneStays(t: Tracker, initial: nat, run: seq<Progress>, j: nat, k: nat, q: nat)
    requires Behaviour(t, initial, run) && j <= k < |run| && q < |run[j].phases| && run[j].phases[q].Done?
    ensures q < |run[k].phases| && run[k].phases[q] == run[j].phases[q]
    decreases k
  {
    if j < k {
      DoneStays(t, initial, run, j, k - 1, q);
      assert Next(t, initial, run[k - 1], run[k]);
      hide StepOf;
      var p :| MayStep(initial, run[k - 1], p) && StepOf(t, run[k - 1], run[k], p);
    }
  }

  /** While a creator of the initial creation is at work churn has not begun. */
  lemma {:induction false} ChurnWaits(t: Tracker, initial: nat, run: seq<Progress>, k: nat, p: nat, q: nat)
    requires Behaviour(t, initial, run) && k < |run| && p < initial <= q < |run[0].phases|
    ensures |run[k].phases| == |run[0].phases|
    ensures !run[k].phases[p].Done? ==> run[k].phases[q] == Trying
    decreases k
  {
    AlwaysInv(t, initial, run, k);
    hide Inv;
    if k > 0 {
      ChurnWaits(t, initial, run, k - 1, p, q);
      assert Next(t, initial, run[k - 1], run[k]);
      hide StepOf;
      var m :| MayStep(initial, run[k - 1], m) && StepOf(t, run[k - 1], run[k], m);
    }
  }

  /** Every run whose initial creation is over has passed the boundary. */
  lemma {:induction false} BoundaryPassed(t: Tracker, initial: nat, run: seq<Progress>, k: nat)
    requires Behaviour(t, initial, run) && k < |run|
    requires forall q :: 0 <= q < initial && q < |run[k].phases| ==> run[k].phases[q].Done?
    ensures exists j :: 0 <= j <= k && Boundary(initial, run[j])
    decreases k
  {
    AlwaysInv(t, initial, run, k);
    hide Inv;
    if k == 0 {
      assert Boundary(initial, run[0]);
    } else {
      AlwaysInv(t, initial, run, k - 1);
      var phases := run[k - 1].phases;
      if p :| 0 <= p < initial && !phases[p].Done? {
        assert Next(t, initial, run[k - 1], run[k]);
        hide StepOf;
        var m :| MayStep(initial, run[k - 1], m) && StepOf(t, run[k - 1], run[k], m);
        forall q | initial <= q < |run[k].phases| ensures run[k].phases[q] == Trying {
          ChurnWaits(t, initial, run, k - 1, p, q);
        }
        assert Boundary(initial, run[k]);
      } else {
        BoundaryPassed(t, initial, run, k - 1);
      }
    }
  }

  lemma {:induction false} CountSplit(phases: seq<Phase>, m: nat)
    requires m <= |phases|
    ensures CountedSoFar(phases) == CountedSoFar(phases[..m]) + CountedSoFar(phases[m..])
    decreases |phases|
  {
    var n := |phases| - 1;
    if m == |phases| {
      assert phases[..m] == phases && phases[m..] == [];
    } else {
      CountSplit(phases[..n], m);
      assert phases[..n][..m] == phases[..m];
      assert phases[m..][..n - m] == phases[..n][m..];
    }
  }

  /** The creates of the initial creation that counted. */
  ghost function InitialCount(initial: nat, s: Progress): nat
    requires initial <= |s.phases|
  {
    CountedSoFar(s.phases[..initial])
  }

  /** When the initial creation ends, MidPoint has fired exactly if its own creates
      reached the threshold. */
  lemma InitialFiredIff(t: Tracker, initial: nat, run: seq<Progress>, j: nat)
    requires Behaviour(t, initial, run) && j < |run| && Counting(t) && Boundary(initial, run[j])
    ensures run[j].notifications == 1 <==> InitialCount(initial, run[j]) >= Max(1, Half(t))
  {
    var phases := run[j].phases;
    FiredIff(t, initial, run, j);
    CountsOncePerRequest(t, initial, run, j);
    CountSplit(phases, initial);
    NoneCounted(phases[initial..]);
  }

  lemma InitialCountStays(t: Tracker, initial: nat, run: seq<Progress>, j: nat, k: nat)
    requires Behaviour(t, initial, run) && j <= k < |run| && Boundary(initial, run[j])
    ensures initial <= |run[k].phases| && InitialCount(initial, run[k]) == InitialCount(initial, run[j])
  {
    AlwaysInv(t, initial, run, j);
    AlwaysInv(t, initial, run, k);
    hide Inv, CountedSoFar;
    forall q | 0 <= q < initial ensures run[k].phases[q] == run[j].phases[q] {
      DoneStays(t, initial, run, j, k, q);
    }
    assert run[k].phases[..initial] == run[j].phases[..initial];
  }

  /** MidPoint is documented as a stage of the initial creation. It fires during churn
      exactly when the initial creates stay below the threshold and the re-creations of
      churn lift the count over it. */
  lemma ChurnFiresIff(t: Tracker, initial: nat, run: seq<Progress>, j: nat, k: nat)
    requires Behaviour(t, initial, run) && j <= k < |run| && Counting(t) && Boundary(initial, run[j])
    requires forall q :: 0 <= q < |run[k].phases| ==> run[k].phases[q].Done?
    ensures initial <= |run[k].phases|
    ensures
      var churned := CountedSoFar(run[k].phases[initial..]);
      run[j].notifications == 0 && run[k].notifications == 1
      <==> InitialCount(initial, run[j]) < Max(1, Half(t)) <= InitialCount(initial, run[j]) + churned
  {
    InitialFiredIff(t, initial, run, j);
    FiresAtMostOnce(t, initial, run, j);
    FiredIff(t, initial, run, k);
    CountsOncePerRequest(t, initial, run, k);
    InitialCountStays(t, initial, run, j, k);
    CountSplit(run[k].phases, initial);
    NotificationsStay(t, initial, run, j, k);
  }

  lemma NotificationsStay(t: Tracker, initial: nat, run: seq<Progress>, j: nat, k: nat)
    requires Behaviour(t, initial, run) && j <= k < |run|
    ensures run[j].notifications <= run[k].notifications
    decreases k
  {
    if j < k {
      NotificationsStay(t, initial, run, j, k - 1);
      assert Next(t, initial, run[k - 1], run[k]);
    }
  }

  /** A run in which churn alone fires it: one template of one replica with an interval
      of 4 over four iterations counts 1 of a total of 4, and namespace churn, which
      re-creates that one object, makes it 2. */
  lemma OnlyChurnFires() returns (t: Tracker, run: seq<Progress>)
    ensures Behaviour(t, 1, run) && Counting(t) && t.totalReplicas == 4 && |run| == 7
    ensures Boundary(1, run[3]) && run[3].notifications == 0
    ensures run[6].phases == [Done(true), Done(true)] && run[6].notifications == 1
  {
    t := Tracker(true, 4);
    var s0 := Progress([Trying, Trying], 0, false, 0);
    hide Next, Behaviour, Boundary, MayStep;
    var s1, s2, s3 := InitialPasses(t, s0);
    var s4, s5, s6 := ChurnPasses(t, s3);
    run := Seven(t, s0, s1, s2, s3, s4, s5, s6);
  }

  lemma InitialPasses(t: Tracker, s0: Progress) returns (s1: Progress, s2: Progress, s3: Progress)
    requires t == Tracker(true, 4) && s0 == Progress([Trying, Trying], 0, false, 0)
    ensures Next(t, 1, s0, s1) && Next(t, 1, s1, s2) && Next(t, 1, s2, s3)
    ensures s3 == Progress([Done(true), Trying], 1, false, 0) && Boundary(1, s3)
  {
    hide Next;
    s1, s2, s3 := Passes(t, 1, s0, 0);
    assert s3.phases == [Done(true), Trying];
  }

  lemma ChurnPasses(t: Tracker, s3: Progress) returns (s4: Progress, s5: Progress, s6: Progress)
    requires t == Tracker(true, 4) && s3 == Progress([Done(true), Trying], 1, false, 0)
    ensures Next(t, 1, s3, s4) && Next(t, 1, s4, s5) && Next(t, 1, s5, s6)
    ensures s6 == Progress([Done(true), Done(true)], 2, true, 1)
  {
    hide Next;
    s4, s5, s6 := Passes(t, 1, s3, 1);
    assert s6.phases == [Done(true), Done(true)];
  }

  lemma Seven(t: Tracker, s0: Progress, s1: Progress, s2: Progress, s3: Progress, s4: Progress,
              s5: Progress, s6: Progress) returns (run: seq<Progress>)
    requires s0 == Progress([Trying, Trying], 0, false, 0)
    requires Next(t, 1, s0, s1) && Next(t, 1, s1, s2) && Next(t, 1, s2, s3)
    requires Next(t, 1, s3, s4) && Next(t, 1, s4, s5) && Next(t, 1, s5, s6)
    ensures Behaviour(t, 1, run) && |run| == 7 && run[3] == s3 && run[6] == s6
  {
    hide Next;
    run := [s0, s1, s2, s3, s4, s5, s6];
  }

  /** A request that is accepted at once and counts. */
  lemma Passes(t: Tracker, initial: nat, s: Progress, q: nat) returns (s1: Progress, s2: Progress, s3: Progress)
    requires q < |s.phases| && s.phases[q] == Trying && MayStep(initial, s, q) && Counting(t)
    ensures Next(t, initial, s, s1) && Next(t, initial, s1, s2) && Next(t, initial, s2, s3)
    ensures
      var fire := s.created + 1 >= Half(t);
      s3 == Progress(s.phases[q := Done(true)], s.created + 1, s.once || fire,
                     if fire && !s.once then s.notifications + 1 else s.notifications)
  {
    s1 := s.(phases := s.phases[q := Accepted]);
    s2 := s1.(created := s1.created + 1, phases := s1.phases[q := Counted(s1.created + 1)]);
    var fire := s2.phases[q].value >= Half(t);
    s3 := s2.(phases := s2.phases[q := Done(true)], once := s2.once || fire,
              notifications := if fire && !s2.once then s2.notifications + 1 else s2.notifications);
    assert Attempt(s, s1, q, Created) && StepOf(t, s, s1, q);
    assert Add(t, s1, s2, q) && StepOf(t, s1, s2, q);
    assert Compare(t, s2, s3, q) && StepOf(t, s2, s3, q);
    assert MayStep(initial, s1, q) && MayStep(initial, s2, q);
  }

  // ----- Whether the initial creation of a job reaches the threshold -----

  /** What setupCreateJob adds to the total for a single-document template. */
  function SetupTotal(o: Object, iterations: nat): int {
    if o.runOnce then o.replicas else o.replicas * iterations
  }

  /** setupCreateJob's total over the first m templates. */
  function SumTotal(job: Job, m: nat, n: nat): int
    requires m <= |job.objects|
  {
    if m == 0 then 0 else SumTotal(job, m - 1, n) + SetupTotal(job.objects[m - 1], n)
  }

  /** At the end of a creation run over [0, n) whose requests were all accepted, in
      whichever mode, MidPoint has fired exactly if the creates that Verify expects
      reach half of setupCreateJob's total. */
  lemma JobFiredIff(job: Job, st: Cluster.State, n: nat, t: Tracker, initial: nat, run: seq<Progress>, j: nat)
    requires ValidJob(job) && Faithful(st) && FixedExist(job, st) && n >= 1
    requires t.notifier && t.totalReplicas == SumTotal(job, |job.objects|, n) > 0
    requires initial == |RunCreate(st, job, 0, n).issued| - |st.issued|
    requires Behaviour(t, initial, run) && j < |run| && Boundary(initial, run[j])
    requires forall q :: 0 <= q < initial ==> run[j].phases[q] == Done(true)
    ensures run[j].notifications == 1
       <==> SumExpected(job, |job.objects|, n) >= Max(1, SumTotal(job, |job.objects|, n) / 2)
  {
    RunSends(job, st, n);
    hide RunCreate, ValidJob, SumExpected, SumTotal;
    InitialFiredIff(t, initial, run, j);
    AllCounted(run[j].phases[..initial]);
  }

  lemma RunSends(job: Job, st: Cluster.State, n: nat)
    requires ValidJob(job) && Faithful(st) && FixedExist(job, st) && n >= 1
    ensures |RunCreate(st, job, 0, n).issued| == |st.issued| + SumExpected(job, |job.objects|, n)
  {
    var st2 := RunCreate(st, job, 0, n);
    RunCreateRan(st, job, 0, n);
    DefaultCount(job, n);
    hide RunCreate, DefaultCreates, ValidJob, SumExpected, Extended, Surviving;
    assert |multiset(st2.issued)| == |multiset(st.issued)| + |multiset(DefaultCreates(job, 0, n))|;
  }

  /** RunOnce, and with and without an interval: the replicas of the first m templates. */
  datatype Kind = Once | Every | Repeating

  function KindOf(o: Object): Kind {
    if o.runOnce then Once else if o.repeatEvery > 1 then Repeating else Every
  }

  function ReplicasOf(job: Job, kind: Kind, m: nat): (sum: int)
    requires m <= |job.objects|
  {
    if m == 0 then 0
    else ReplicasOf(job, kind, m - 1) + if KindOf(job.objects[m - 1]) == kind then job.objects[m - 1].replicas else 0
  }

  /** Every interval above 1 is `repeat`, as configuration validation enforces. */
  ghost predicate OneInterval(job: Job, repeat: int) {
    repeat >= 1 && forall k :: 0 <= k < |job.objects| ==> job.objects[k].repeatEvery in {1, repeat}
  }

  lemma {:induction false} SumsByKind(job: Job, repeat: int, m: nat, n: nat)
    requires ValidJob(job) && OneInterval(job, repeat) && m <= |job.objects| && n >= 1
    ensures
      var once, every, repeating := ReplicasOf(job, Once, m), ReplicasOf(job, Every, m), ReplicasOf(job, Repeating, m);
      && once >= 0 && every >= 0 && repeating >= 0 && once + every + repeating >= m
      && SumExpected(job, m, n) == once + n * every + CeilDiv(n, repeat) * repeating
      && SumTotal(job, m, n) == once + n * every + n * repeating
  {
    if m > 0 {
      SumsByKind(job, repeat, m - 1, n);
      var o, c := job.objects[m - 1], CeilDiv(n, repeat);
      Distribute(n, ReplicasOf(job, Every, m - 1), -o.replicas);
      Distribute(n, ReplicasOf(job, Repeating, m - 1), -o.replicas);
      Distribute(c, ReplicasOf(job, Repeating, m - 1), -o.replicas);
      Negate(n, o.replicas);
      Negate(c, o.replicas);
      assert o.replicas * n == n * o.replicas && o.replicas * c == c * o.replicas;
    }
  }

  /** The exact condition, for every validated job: with A, C and B the replicas of the
      RunOnce templates, of those of every iteration and of those with the interval R,
      the initial creates reach the threshold if and only if
      B * (n - 2 * ceil(n/R)) <= A + C * n + 1. */
  lemma JobReachesIff(job: Job, repeat: int, n: nat)
    requires ValidJob(job) && OneInterval(job, repeat) && job.objects != [] && n >= 1
    ensures
      var m := |job.objects|;
      var once, every, repeating := ReplicasOf(job, Once, m), ReplicasOf(job, Every, m), ReplicasOf(job, Repeating, m);
      SumExpected(job, m, n) >= Max(1, SumTotal(job, m, n) / 2)
      <==> repeating * (n - 2 * CeilDiv(n, repeat)) <= once + every * n + 1
  {
    var m, c := |job.objects|, CeilDiv(n, repeat);
    SumsByKind(job, repeat, m, n);
    BelowCeil(n, repeat, 0);
    var once, every, repeating := ReplicasOf(job, Once, m), ReplicasOf(job, Every, m), ReplicasOf(job, Repeating, m);
    hide SumExpected, SumTotal, ReplicasOf, ValidJob, OneInterval, CeilDiv, Max;
    Reaches(once, every, repeating, n, c);
  }

  lemma Reaches(once: int, every: int, repeating: int, n: int, c: int)
    requires once >= 0 && every >= 0 && repeating >= 0 && once + every + repeating >= 1 && n >= 1 && c >= 1
    ensures once + n * every + c * repeating >= Max(1, (once + n * every + n * repeating) / 2)
       <==> repeating * (n - 2 * c) <= once + every * n + 1
  {
    MulMonotone(every, 1, n);
    MulMonotone(repeating, 1, c);
    MulMonotone(repeating, 1, n);
    TwiceLess(repeating, n, c);
  }

  lemma TwiceLess(r: int, n: int, c: int)
    ensures r * (n - 2 * c) == r * n - 2 * (r * c)
  {
    Distribute(r, n, 2 * c);
    assert r * (2 * c) == 2 * (r * c);
  }

  /** The same for a job of one template: RunOnce always reaches it, any other if and
      only if n <= 2c, or one replica with n == 2c + 1, where c = ceil(n/R). */
  lemma TemplateReachesIff(o: Object, n: nat)
    requires o.repeatEvery >= 1 && o.replicas >= 1 && n >= 1
    ensures
      var c := CeilDiv(n, o.repeatEvery);
      Expected(o, n) >= Max(1, SetupTotal(o, n) / 2)
      <==> o.runOnce || n <= 2 * c || (o.replicas == 1 && n == 2 * c + 1)
  {
    var c, d := CeilDiv(n, o.repeatEvery), n - 2 * CeilDiv(n, o.repeatEvery);
    BelowCeil(n, o.repeatEvery, 0);
    MulMonotone(o.replicas, 1, c);
    MulMonotone(o.replicas, 1, n);
    if o.repeatEvery == 1 {
      DivMod(n, 1, n, 0);
    }
    TwiceLess(o.replicas, n, c);
    if d >= 2 {
      MulMonotone(o.replicas, 2, d);
    } else if d <= 0 {
      MulMonotone(o.replicas, d, 0);
    }
  }

  /** One replica, an interval of 4 and four iterations: 1 create against a threshold
      of 2. */
  lemma RepeatMissesMidPoint(o: Object)
    requires o.repeatEvery == 4 && o.replicas == 1 && !o.runOnce
    ensures Expected(o, 4) == 1 && Max(1, SetupTotal(o, 4) / 2) == 2
  {
  }
}
