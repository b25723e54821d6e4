/** Grouped execution as interleaved goroutines: replicaHandler's two WaitGroups, the
    barrier they make between groups, and the group windows metrics are tagged with. */
module GroupBarrier {
  import opened Options

  /** One replica: its group's position in execution order, the replicaHandler call
      within the group, and its number. */
  datatype Request = Request(group: nat, call: nat, replica: nat)

  /** shape[g][c] is how many replicas call c of group g creates. */
  type Shape = seq<seq<nat>>

  /** Where the main goroutine is: it has spawned `replica` goroutines of the call. */
  datatype Position = Position(group: nat, call: nat, replica: nat)

  datatype GroupWindow = GroupWindow(group: nat, start: int, end: int)

  /** The goroutines by what they are doing. A request is rendering until its inner
      goroutine adds it to the outer WaitGroup; from then on it is unreturned until
      the inner goroutine is done, and pending, sending or sent in its own goroutine.
      Requests whose REST mapping fails are dropped. `innerCount` and `outerCount` are
      the two WaitGroup counters. */
  datatype State = State(
    at: Position,
    rendering: set<Request>,
    unreturned: set<Request>,
    pending: set<Request>,
    sending: set<Request>,
    sent: set<Request>,
    dropped: set<Request>,
    innerCount: int,
    outerCount: int,
    now: int,
    groupStart: int,
    started: map<Request, int>,
    finished: map<Request, int>,
    windows: seq<GroupWindow>)

  ghost predicate Valid(shape: Shape, q: Request) {
    q.group < |shape| && q.call < |shape[q.group]| && q.replica < shape[q.group][q.call]
  }

  /** The main goroutine has spawned q. */
  ghost predicate Spawned(shape: Shape, at: Position, q: Request) {
    && Valid(shape, q)
    && (|| q.group < at.group
        || (q.group == at.group && q.call < at.call)
        || (q.group == at.group && q.call == at.call && q.replica < at.replica))
  }

  // ----- The steps -----

  /** wg.Add(1); go func ... */
  ghost predicate Spawn(shape: Shape, s: State, s2: State) {
    && s.at.group < |shape| && s.at.call < |shape[s.at.group]| && s.at.replica < shape[s.at.group][s.at.call]
    && s2 == s.(at := s.at.(replica := s.at.replica + 1),
                rendering := s.rendering + {Request(s.at.group, s.at.call, s.at.replica)},
                innerCount := s.innerCount + 1)
  }

  /** wg.Wait() at the end of replicaHandler. */
  ghost predicate FinishCall(shape: Shape, s: State, s2: State) {
    && s.at.group < |shape| && s.at.call < |shape[s.at.group]| && s.at.replica == shape[s.at.group][s.at.call]
    && s.innerCount == 0
    && s2 == s.(at := Position(s.at.group, s.at.call + 1, 0))
  }

  /** The outer wg.Wait() of a group, then readiness, garbage collection and pauses,
      recordGroupWindow, and the start of the next group. */
  ghost predicate FinishGroup(shape: Shape, s: State, s2: State) {
    && s.at.group < |shape| && s.at.call == |shape[s.at.group]|
    && s.outerCount == 0
    && s.now <= s2.now && s2.groupStart == s2.now
    && exists end: int :: s.now <= end <= s2.now
         && s2 == s.(at := Position(s.at.group + 1, 0, 0), now := s2.now, groupStart := s2.now,
                     windows := s.windows + [GroupWindow(s.at.group, s.groupStart, end)])
  }

  /** replicaWg.Add(1); go func ... */
  ghost predicate Launch(s: State, s2: State, q: Request) {
    && q in s.rendering
    && s2 == s.(rendering := s.rendering - {q}, unreturned := s.unreturned + {q},
                pending := s.pending + {q}, outerCount := s.outerCount + 1)
  }

  /** The inner goroutine returns on a mapping error: no outer Add, deferred wg.Done. */
  ghost predicate Drop(s: State, s2: State, q: Request) {
    && q in s.rendering
    && s2 == s.(rendering := s.rendering - {q}, dropped := s.dropped + {q}, innerCount := s.innerCount - 1)
  }

  /** The inner goroutine's deferred wg.Done. */
  ghost predicate Return(s: State, s2: State, q: Request) {
    && q in s.unreturned
    && s2 == s.(unreturned := s.unreturned - {q}, innerCount := s.innerCount - 1)
  }

  /** The create request goes out. */
  ghost predicate StartCreate(s: State, s2: State, q: Request) {
    && q in s.pending && s.now <= s2.now
    && s2 == s.(pending := s.pending - {q}, sending := s.sending + {q},
                now := s2.now, started := s.started[q := s2.now])
  }

  /** The create request is over; deferred replicaWg.Done. */
  ghost predicate FinishCreate(s: State, s2: State, q: Request) {
    && q in s.sending && s.now <= s2.now
    && s2 == s.(sending := s.sending - {q}, sent := s.sent + {q}, outerCount := s.outerCount - 1,
                now := s2.now, finished := s.finished[q := s2.now])
  }

  ghost predicate Goroutine(s: State, s2: State, q: Request) {
    Launch(s, s2, q) || Drop(s, s2, q) || Return(s, s2, q) || StartCreate(s, s2, q) || FinishCreate(s, s2, q)
  }

  ghost predicate Next(shape: Shape, s: State, s2: State) {
    || Spawn(shape, s, s2) || FinishCall(shape, s, s2) || FinishGroup(shape, s, s2)
    || exists q :: Goroutine(s, s2, q)
  }

  ghost predicate Initial(s: State) {
    s == State(Position(0, 0, 0), {}, {}, {}, {}, {}, {}, 0, 0, s.now, s.now, map[], map[], [])
  }

  /** A run of any length and any interleaving. */
  ghost predicate Behaviour(shape: Shape, run: seq<State>) {
    && run != [] && Initial(run[0])
    && forall k :: 0 < k < |run| ==> Next(shape, run[k - 1], run[k])
  }

  // ----- What every state of every run satisfies -----

  /** q has been handed to a goroutine. */
  ghost predicate Known(s: State, q: Request) {
    q in s.rendering || q in s.pending || q in s.sending || q in s.sent || q in s.dropped
  }

  /** The two counters count, and no request is in two stages at once. */
  ghost predicate Counted(s: State) {
    && s.innerCount == |s.rendering| + |s.unreturned|
    && s.outerCount == |s.pending| + |s.sending|
    && (forall q :: q in s.unreturned ==> q in s.pending || q in s.sending || q in s.sent)
    && (forall q :: q in s.rendering ==>
          q !in s.unreturned && q !in s.pending && q !in s.sending && q !in s.sent && q !in s.dropped)
    && (forall q :: q in s.pending ==> q !in s.sending && q !in s.sent)
    && (forall q :: q in s.sending ==> q !in s.sent)
  }

  /** The inner goroutines at work belong to the current call, the outer ones to the
      current group, and exactly the spawned requests are known. */
  ghost predicate Placed(shape: Shape, s: State) {
    && s.at.group <= |shape|
    && (forall q :: Known(s, q) <==> Spawned(shape, s.at, q))
    && (forall q :: q in s.rendering || q in s.unreturned ==> q.group == s.at.group && q.call == s.at.call)
    && (forall q :: q in s.pending || q in s.sending ==> q.group == s.at.group)
    && (s.at.group < |shape| ==> s.at.call <= |shape[s.at.group]|)
    && (s.at.group < |shape| && s.at.call < |shape[s.at.group]| ==> s.at.replica <= shape[s.at.group][s.at.call])
    && (s.at.group < |shape| && s.at.call == |shape[s.at.group]| ==> s.rendering == {} && s.unreturned == {})
    && (s.at.group == |shape| ==> s.pending == {} && s.sending == {} && s.rendering == {} && s.unreturned == {})
  }

  /** Windows follow one another up to the start of the current group. */
  ghost predicate WindowsTimed(s: State) {
    && |s.windows| == s.at.group && s.groupStart <= s.now
    && (forall g :: 0 <= g < |s.windows| ==> s.windows[g].group == g && s.windows[g].start <= s.windows[g].end)
    && (forall g :: 0 < g < |s.windows| ==> s.windows[g - 1].end <= s.windows[g].start)
    && (s.windows != [] ==> s.windows[|s.windows| - 1].end <= s.groupStart)
  }

  /** A create that has started ran inside its group's window so far. */
  ghost predicate CreatesTimed(s: State) {
    && |s.windows| == s.at.group && s.groupStart <= s.now
    && (forall q :: q in s.started <==> q in s.sending || q in s.sent)
    && (forall q :: q in s.finished <==> q in s.sent)
    && (forall q :: q in s.started ==> q.group <= s.at.group && s.started[q] <= s.now)
    && (forall q :: q in s.finished ==> q in s.started && s.started[q] <= s.finished[q] <= s.now)
    && (forall q :: q in s.started && q.group == s.at.group ==> s.groupStart <= s.started[q])
    && (forall q :: q in s.finished && q.group < s.at.group ==>
          s.windows[q.group].start <= s.started[q] && s.finished[q] <= s.windows[q.group].end)
  }

  ghost predicate Inv(shape: Shape, s: State) {
    Counted(s) && Placed(shape, s) && WindowsTimed(s) && CreatesTimed(s)
  }

  lemma SpawnPlaced(shape: Shape, s: State, s2: State)
    requires Placed(shape, s) && Spawn(shape, s, s2)
    ensures Placed(shape, s2) && !Known(s, Request(s.at.group, s.at.call, s.at.replica))
  {
    var next := Request(s.at.group, s.at.call, s.at.replica);
    assert !Spawned(shape, s.at, next);
    forall q ensures Known(s2, q) <==> Spawned(shape, s2.at, q) {
      assert Known(s2, q) <==> Known(s, q) || q == next;
    }
  }

  /** A step that leaves the clock, the windows and the creates alone. */
  lemma SameTimes(s: State, s2: State)
    requires WindowsTimed(s) && CreatesTimed(s)
    requires s2.at.group == s.at.group && s2.now == s.now && s2.groupStart == s.groupStart && s2.windows == s.windows
    requires s2.started == s.started && s2.finished == s.finished && s2.sending == s.sending && s2.sent == s.sent
    ensures WindowsTimed(s2) && CreatesTimed(s2)
  {
  }

  lemma SpawnCounted(shape: Shape, s: State, s2: State)
    requires Counted(s) && Spawn(shape, s, s2) && !Known(s, Request(s.at.group, s.at.call, s.at.replica))
    ensures Counted(s2)
  {
    assert Request(s.at.group, s.at.call, s.at.replica) !in s.unreturned;
  }

  lemma SpawnKeeps(shape: Shape, s: State, s2: State)
    requires Inv(shape, s) && Spawn(shape, s, s2)
    ensures Inv(shape, s2)
  {
    hide Placed, Counted, WindowsTimed, CreatesTimed, Known;
    SpawnPlaced(shape, s, s2);
    SpawnCounted(shape, s, s2);
    SameTimes(s, s2);
  }

  lemma FinishCallKeeps(shape: Shape, s: State, s2: State)
    requires Inv(shape, s) && FinishCall(shape, s, s2)
    ensures Inv(shape, s2)
  {
    hide WindowsTimed, CreatesTimed;
    SameTimes(s, s2);
    hide Counted;
    forall q ensures Known(s2, q) <==> Spawned(shape, s2.at, q) {
      assert Known(s2, q) <==> Known(s, q);
    }
  }

  lemma FinishGroupKeeps(shape: Shape, s: State, s2: State)
    requires Inv(shape, s) && FinishGroup(shape, s, s2)
    ensures Inv(shape, s2)
  {
    hide CreatesTimed, WindowsTimed;
    FinishGroupTimes(shape, s, s2);
    hide Counted;
    forall q ensures Known(s2, q) <==> Spawned(shape, s2.at, q) {
      assert Known(s2, q) <==> Known(s, q);
    }
  }

  lemma FinishGroupTimes(shape: Shape, s: State, s2: State)
    requires WindowsTimed(s) && CreatesTimed(s) && FinishGroup(shape, s, s2) && s.sending == {}
    ensures WindowsTimed(s2) && CreatesTimed(s2)
  {
    hide WindowsTimed, CreatesTimed, FinishGroup;
    FinishGroupWindows(shape, s, s2);
    FinishGroupCreates(shape, s, s2);
  }

  lemma FinishGroupWindows(shape: Shape, s: State, s2: State)
    requires WindowsTimed(s) && FinishGroup(shape, s, s2)
    ensures WindowsTimed(s2)
  {
  }

  lemma FinishGroupCreates(shape: Shape, s: State, s2: State)
    requires CreatesTimed(s) && FinishGroup(shape, s, s2) && s.sending == {}
    ensures CreatesTimed(s2)
  {
    forall q | q in s2.finished && q.group < s2.at.group
      ensures s2.windows[q.group].start <= s2.started[q] && s2.finished[q] <= s2.windows[q.group].end
    {
      if q.group < s.at.group {
        assert s2.windows[q.group] == s.windows[q.group];
      }
    }
  }

  /** A goroutine's step moves requests forward between stages only. */
  ghost predicate Onward(s: State, s2: State) {
    && s2.at == s.at
    && (forall r :: Known(s2, r) <==> Known(s, r))
    && (forall r :: r in s2.rendering || r in s2.unreturned ==> r in s.rendering || r in s.unreturned)
    && (forall r :: r in s2.pending || r in s2.sending ==> r in s.pending || r in s.sending || r in s.rendering)
  }

  lemma LaunchOnward(s: State, s2: State, q: Request)
    requires Launch(s, s2, q)
    ensures Onward(s, s2)
  {
  }

  lemma DropOnward(s: State, s2: State, q: Request)
    requires Drop(s, s2, q)
    ensures Onward(s, s2)
  {
  }

  lemma CreateOnward(s: State, s2: State, q: Request)
    requires Return(s, s2, q) || StartCreate(s, s2, q) || FinishCreate(s, s2, q)
    ensures Onward(s, s2)
  {
  }

  lemma GoroutineOnward(s: State, s2: State, q: Request)
    requires Goroutine(s, s2, q)
    ensures Onward(s, s2)
  {
    hide Onward, Launch, Drop, Return, StartCreate, FinishCreate;
    if Launch(s, s2, q) {
      LaunchOnward(s, s2, q);
    } else if Drop(s, s2, q) {
      DropOnward(s, s2, q);
    } else {
      CreateOnward(s, s2, q);
    }
  }

  lemma OnwardPlaced(shape: Shape, s: State, s2: State)
    requires Placed(shape, s) && Onward(s, s2)
    ensures Placed(shape, s2)
  {
    hide Spawned, Known;
  }

  lemma GoroutineCounted(s: State, s2: State, q: Request)
    requires Counted(s) && Goroutine(s, s2, q)
    ensures Counted(s2)
  {
    hide Drop, Launch, Return, StartCreate, FinishCreate;
    if Launch(s, s2, q) {
      LaunchCounted(s, s2, q);
    } else if Drop(s, s2, q) {
      DropCounted(s, s2, q);
    } else if Return(s, s2, q) {
      ReturnCounted(s, s2, q);
    } else if StartCreate(s, s2, q) {
      StartCounted(s, s2, q);
    } else {
      FinishCounted(s, s2, q);
    }
  }

  lemma LaunchCounted(s: State, s2: State, q: Request)
    requires Counted(s) && Launch(s, s2, q)
    ensures Counted(s2)
  {
  }

  lemma DropCounted(s: State, s2: State, q: Request)
    requires Counted(s) && Drop(s, s2, q)
    ensures Counted(s2)
  {
  }

  lemma ReturnCounted(s: State, s2: State, q: Request)
    requires Counted(s) && Return(s, s2, q)
    ensures Counted(s2)
  {
  }

  lemma StartCounted(s: State, s2: State, q: Request)
    requires Counted(s) && StartCreate(s, s2, q)
    ensures Counted(s2)
  {
  }

  lemma FinishCounted(s: State, s2: State, q: Request)
    requires Counted(s) && FinishCreate(s, s2, q)
    ensures Counted(s2)
  {
  }

  lemma StartTimed(s: State, s2: State, q: Request)
    requires CreatesTimed(s) && WindowsTimed(s) && StartCreate(s, s2, q) && q.group == s.at.group
    requires q !in s.sending && q !in s.sent
    ensures WindowsTimed(s2) && CreatesTimed(s2)
  {
    LaterWindows(s, s2);
    hide WindowsTimed;
    forall r | r in s2.finished
      ensures r in s2.sent && r != q && s2.started[r] == s.started[r] && s2.finished[r] == s.finished[r]
    {
    }
  }

  lemma LaterWindows(s: State, s2: State)
    requires WindowsTimed(s) && s2.at == s.at && s2.windows == s.windows
    requires s2.groupStart == s.groupStart && s.now <= s2.now
    ensures WindowsTimed(s2)
  {
  }

  lemma FinishTimed(s: State, s2: State, q: Request)
    requires CreatesTimed(s) && WindowsTimed(s) && FinishCreate(s, s2, q) && q.group == s.at.group
    ensures WindowsTimed(s2) && CreatesTimed(s2)
  {
    LaterWindows(s, s2);
    hide WindowsTimed;
    forall r | r in s2.finished && r != q ensures r in s.finished && s2.finished[r] == s.finished[r] {
    }
  }

  lemma GoroutineTimed(shape: Shape, s: State, s2: State, q: Request)
    requires Inv(shape, s) && Goroutine(s, s2, q)
    ensures WindowsTimed(s2) && CreatesTimed(s2)
  {
    hide WindowsTimed, CreatesTimed;
    if StartCreate(s, s2, q) {
      StartTimed(s, s2, q);
    } else if FinishCreate(s, s2, q) {
      FinishTimed(s, s2, q);
    } else {
      hide Placed, Counted;
      SameTimes(s, s2);
    }
  }

  lemma GoroutineKeeps(shape: Shape, s: State, s2: State, q: Request)
    requires Inv(shape, s) && Goroutine(s, s2, q)
    ensures Inv(shape, s2)
  {
    hide Placed, Counted, WindowsTimed, CreatesTimed, Goroutine, Onward;
    GoroutineOnward(s, s2, q);
    OnwardPlaced(shape, s, s2);
    GoroutineCounted(s, s2, q);
    GoroutineTimed(shape, s, s2, q);
  }

  lemma NextKeeps(shape: Shape, s: State, s2: State)
    requires Inv(shape, s) && Next(shape, s, s2)
    ensures Inv(shape, s2)
  {
    hide Inv, Spawn, FinishCall, FinishGroup, Goroutine;
    if Spawn(shape, s, s2) {
      SpawnKeeps(shape, s, s2);
    } else if FinishCall(shape, s, s2) {
      FinishCallKeeps(shape, s, s2);
    } else if FinishGroup(shape, s, s2) {
      FinishGroupKeeps(shape, s, s2);
    } else {
      var q :| Goroutine(s, s2, q);
      GoroutineKeeps(shape, s, s2, q);
    }
  }

  lemma InitialInv(shape: Shape, s: State)
    requires Initial(s)
    ensures Inv(shape, s)
  {
  }

  lemma {:induction false} AlwaysInv(shape: Shape, run: seq<State>, k: nat)
    requires Behaviour(shape, run) && k < |run|
    ensures Inv(shape, run[k])
    decreases k
  {
    hide Inv, Next, Initial;
    if k == 0 {
      InitialInv(shape, run[0]);
    } else {
      AlwaysInv(shape, run, k - 1);
      NextKeeps(shape, run[k - 1], run[k]);
    }
  }

  // ----- The barrier -----

  /** In every interleaving, when a create of some group goes out, every create of
      every earlier group is over: sent, or dropped before it was ever sent. */
  lemma Barrier(shape: Shape, run: seq<State>, k: nat, q: Request, earlier: Request)
    requires Behaviour(shape, run) && 0 < k < |run| && StartCreate(run[k - 1], run[k], q)
    requires Valid(shape, earlier) && earlier.group < q.group
    ensures earlier in run[k - 1].sent || earlier in run[k - 1].dropped
    ensures earlier in run[k - 1].sent ==>
      earlier in run[k].finished && q in run[k].started && run[k].finished[earlier] <= run[k].started[q]
  {
    hide Inv, Next, Initial, Valid;
    AlwaysInv(shape, run, k - 1);
    hide Behaviour;
    EarlierOver(shape, run[k - 1], q, earlier);
    if earlier in run[k - 1].sent {
      TimesApart(shape, run[k - 1], run[k], q, earlier);
    }
  }

  lemma TimesApart(shape: Shape, s: State, s2: State, q: Request, earlier: Request)
    requires Inv(shape, s) && StartCreate(s, s2, q) && earlier in s.sent && earlier != q
    ensures earlier in s2.finished && q in s2.started && s2.finished[earlier] <= s2.started[q]
  {
    hide Placed, Counted, WindowsTimed;
  }

  lemma EarlierOver(shape: Shape, s: State, q: Request, earlier: Request)
    requires Inv(shape, s) && q in s.pending && Valid(shape, earlier) && earlier.group < q.group
    ensures (earlier in s.sent || earlier in s.dropped) && earlier != q
  {
    hide Counted, WindowsTimed, CreatesTimed;
    assert Spawned(shape, s.at, earlier);
    assert Known(s, earlier);
  }

  /** The run is never stuck before its end. */
  lemma NeverStuck(shape: Shape, run: seq<State>, k: nat)
    requires Behaviour(shape, run) && k < |run| && run[k].at.group < |shape|
    ensures exists s2 :: Next(shape, run[k], s2)
  {
    AlwaysInv(shape, run, k);
    Enabled(shape, run[k]);
  }

  lemma Enabled(shape: Shape, s: State)
    requires Inv(shape, s) && s.at.group < |shape|
    ensures exists s2 :: Next(shape, s, s2)
  {
    hide Next;
    if q :| q in s.rendering || q in s.unreturned {
      InnerEnabled(shape, s, q);
    } else if q :| q in s.pending || q in s.sending {
      OuterEnabled(shape, s, q);
    } else {
      assert s.rendering == {} && s.unreturned == {} && s.pending == {} && s.sending == {};
      hide WindowsTimed, CreatesTimed, Known, Spawned;
      MainEnabled(shape, s);
    }
  }

  lemma InnerEnabled(shape: Shape, s: State, q: Request)
    requires q in s.rendering || q in s.unreturned
    ensures exists s2 :: Next(shape, s, s2)
  {
    if q in s.rendering {
      var s2 := s.(rendering := s.rendering - {q}, dropped := s.dropped + {q}, innerCount := s.innerCount - 1);
      assert Drop(s, s2, q);
      EnabledIf(shape, s, s2, q);
    } else {
      var s2 := s.(unreturned := s.unreturned - {q}, innerCount := s.innerCount - 1);
      assert Return(s, s2, q);
      EnabledIf(shape, s, s2, q);
    }
  }

  lemma OuterEnabled(shape: Shape, s: State, q: Request)
    requires q in s.pending || q in s.sending
    ensures exists s2 :: Next(shape, s, s2)
  {
    if q in s.pending {
      var s2 := s.(pending := s.pending - {q}, sending := s.sending + {q}, started := s.started[q := s.now]);
      assert StartCreate(s, s2, q);
      EnabledIf(shape, s, s2, q);
    } else {
      var s2 := s.(sending := s.sending - {q}, sent := s.sent + {q}, outerCount := s.outerCount - 1,
                   finished := s.finished[q := s.now]);
      assert FinishCreate(s, s2, q);
      EnabledIf(shape, s, s2, q);
    }
  }

  lemma EnabledIf(shape: Shape, s: State, s2: State, q: Request)
    requires Goroutine(s, s2, q)
    ensures exists s3 :: Next(shape, s, s3)
  {
    hide Goroutine;
    assert Next(shape, s, s2);
  }

  /** With no goroutine at work both counters are zero and the main one moves on. */
  lemma MainEnabled(shape: Shape, s: State)
    requires s.innerCount == 0 && s.outerCount == 0 && s.at.group < |shape| && s.at.call <= |shape[s.at.group]|
    requires s.at.call < |shape[s.at.group]| ==> s.at.replica <= shape[s.at.group][s.at.call]
    ensures exists s2 :: Next(shape, s, s2)
  {
    if s.at.call == |shape[s.at.group]| {
      var w := GroupWindow(s.at.group, s.groupStart, s.now);
      var s2 := s.(at := Position(s.at.group + 1, 0, 0), groupStart := s.now, windows := s.windows + [w]);
      assert FinishGroup(shape, s, s2) && Next(shape, s, s2);
    } else if s.at.replica < shape[s.at.group][s.at.call] {
      var s2 := s.(at := s.at.(replica := s.at.replica + 1),
                   rendering := s.rendering + {Request(s.at.group, s.at.call, s.at.replica)},
                   innerCount := s.innerCount + 1);
      assert Spawn(shape, s, s2) && Next(shape, s, s2);
    } else {
      var s2 := s.(at := Position(s.at.group, s.at.call + 1, 0));
      assert FinishCall(shape, s, s2) && Next(shape, s, s2);
    }
  }

  /** Every goroutine can take its own next step at once, whatever the others do. */
  lemma GoroutinesGoOn(shape: Shape, run: seq<State>, k: nat, q: Request)
    requires Behaviour(shape, run) && k < |run|
    ensures q in run[k].rendering ==> (exists s2 :: Launch(run[k], s2, q)) && exists s2 :: Drop(run[k], s2, q)
    ensures q in run[k].unreturned ==> exists s2 :: Return(run[k], s2, q)
    ensures q in run[k].pending ==> exists s2 :: StartCreate(run[k], s2, q)
    ensures q in run[k].sending ==> exists s2 :: FinishCreate(run[k], s2, q)
  {
    var s := run[k];
    if q in s.rendering {
      assert Launch(s, s.(rendering := s.rendering - {q}, unreturned := s.unreturned + {q},
                          pending := s.pending + {q}, outerCount := s.outerCount + 1), q);
      assert Drop(s, s.(rendering := s.rendering - {q}, dropped := s.dropped + {q}, innerCount := s.innerCount - 1), q);
    }
    if q in s.unreturned {
      assert Return(s, s.(unreturned := s.unreturned - {q}, innerCount := s.innerCount - 1), q);
    }
    if q in s.pending {
      assert StartCreate(s, s.(pending := s.pending - {q}, sending := s.sending + {q},
                               started := s.started[q := s.now]), q);
    }
    if q in s.sending {
      assert FinishCreate(s, s.(sending := s.sending - {q}, sent := s.sent + {q}, outerCount := s.outerCount - 1,
                                finished := s.finished[q := s.now]), q);
    }
  }

  ghost predicate Launched(s: State, q: Request) { q in s.pending || q in s.sending || q in s.sent }

  /** When the run is over, exactly the requests that were launched have been sent, every
      other one was dropped, and none is both. */
  lemma SentIffLaunched(shape: Shape, run: seq<State>, k: nat, q: Request)
    requires Behaviour(shape, run) && k < |run| && run[k].at.group == |shape| && Valid(shape, q)
    ensures q in run[k].sent <==> exists j :: 0 < j <= k && Launch(run[j - 1], run[j], q)
    ensures q in run[k].dropped <==> exists j :: 0 < j <= k && Drop(run[j - 1], run[j], q)
    ensures q in run[k].sent <==> q !in run[k].dropped
  {
    LaunchedIff(shape, run, k, q);
    AlwaysInv(shape, run, k);
    hide Behaviour, Counted, WindowsTimed, CreatesTimed, Launch, Drop;
    assert Spawned(shape, run[k].at, q);
    assert Known(run[k], q);
  }

  lemma {:induction false} LaunchedIff(shape: Shape, run: seq<State>, k: nat, q: Request)
    requires Behaviour(shape, run) && k < |run|
    ensures Launched(run[k], q) <==> exists j :: 0 < j <= k && Launch(run[j - 1], run[j], q)
    ensures q in run[k].dropped <==> exists j :: 0 < j <= k && Drop(run[j - 1], run[j], q)
    ensures !(Launched(run[k], q) && q in run[k].dropped)
    decreases k
  {
    if k > 0 {
      LaunchedIff(shape, run, k - 1, q);
      AlwaysInv(shape, run, k - 1);
      assert Next(shape, run[k - 1], run[k]);
      hide Behaviour, Placed, WindowsTimed, CreatesTimed, Next, Launched, Launch, Drop;
      StepLaunches(shape, run[k - 1], run[k], q);
    }
  }

  lemma StepLaunches(shape: Shape, s: State, s2: State, q: Request)
    requires Counted(s) && Next(shape, s, s2) && !(Launched(s, q) && q in s.dropped)
    ensures Launched(s2, q) <==> Launched(s, q) || Launch(s, s2, q)
    ensures q in s2.dropped <==> q in s.dropped || Drop(s, s2, q)
    ensures !(Launched(s2, q) && q in s2.dropped)
  {
    if r :| Goroutine(s, s2, r) {
      hide Launched, Counted, Launch, Drop, Goroutine;
      GoroutineLaunches(s, s2, r, q);
    } else {
      hide Counted;
    }
  }

  lemma GoroutineLaunches(s: State, s2: State, r: Request, q: Request)
    requires Counted(s) && Goroutine(s, s2, r) && !(Launched(s, q) && q in s.dropped)
    ensures Launched(s2, q) <==> Launched(s, q) || Launch(s, s2, q)
    ensures q in s2.dropped <==> q in s.dropped || Drop(s, s2, q)
    ensures !(Launched(s2, q) && q in s2.dropped)
  {
    hide Launched, Counted, Launch, Drop, Return, StartCreate, FinishCreate;
    if Launch(s, s2, r) {
      LaunchLaunches(s, s2, r, q);
    } else if Drop(s, s2, r) {
      DropDrops(s, s2, r, q);
    } else {
      OthersLaunchNone(s, s2, r, q);
    }
  }

  lemma LaunchLaunches(s: State, s2: State, r: Request, q: Request)
    requires Counted(s) && Launch(s, s2, r)
    ensures (Launched(s2, q) <==> Launched(s, q) || Launch(s, s2, q)) && s2.dropped == s.dropped && !Drop(s, s2, q)
    ensures Launched(s2, q) && q in s2.dropped ==> Launched(s, q)
  {
    assert s2.rendering == s.rendering - {r};
  }

  lemma DropDrops(s: State, s2: State, r: Request, q: Request)
    requires Counted(s) && Drop(s, s2, r)
    ensures (q in s2.dropped <==> q in s.dropped || Drop(s, s2, q)) && (Launched(s2, q) <==> Launched(s, q))
    ensures !Launch(s, s2, q) && (Launched(s2, q) && q in s2.dropped ==> q in s.dropped)
  {
    assert s2.rendering == s.rendering - {r};
  }

  lemma OthersLaunchNone(s: State, s2: State, r: Request, q: Request)
    requires Return(s, s2, r) || StartCreate(s, s2, r) || FinishCreate(s, s2, r)
    ensures (Launched(s2, q) <==> Launched(s, q)) && s2.dropped == s.dropped
    ensures !Launch(s, s2, q) && !Drop(s, s2, q)
  {
    assert s2.rendering == s.rendering;
  }

  /** A request keeps the times at which its create went out and was over. */
  lemma {:induction false} TimesStay(shape: Shape, run: seq<State>, j: nat, k: nat, q: Request)
    requires Behaviour(shape, run) && 0 < j <= k < |run|
    ensures StartCreate(run[j - 1], run[j], q) ==> q in run[k].started && run[k].started[q] == run[j].now
    ensures FinishCreate(run[j - 1], run[j], q) ==> q in run[k].finished && run[k].finished[q] == run[j].now
    decreases k
  {
    hide Inv, Next;
    if j == k {
      StepTimes(run[j - 1], run[j], q);
    } else {
      hide StartCreate, FinishCreate;
      var before, after := run[k - 1], run[k];
      TimesStay(shape, run, j, k - 1, q);
      AlwaysInv(shape, run, k - 1);
      assert Next(shape, before, after);
      hide Behaviour;
      StepKeepsTimes(shape, before, after, q);
    }
  }

  lemma StepTimes(s: State, s2: State, q: Request)
    ensures StartCreate(s, s2, q) ==> q in s2.started && s2.started[q] == s2.now
    ensures FinishCreate(s, s2, q) ==> q in s2.finished && s2.finished[q] == s2.now
  {
  }

  lemma StepKeepsTimes(shape: Shape, s: State, s2: State, q: Request)
    requires Inv(shape, s) && Next(shape, s, s2)
    ensures q in s.started ==> q in s2.started && s2.started[q] == s.started[q]
    ensures q in s.finished ==> q in s2.finished && s2.finished[q] == s.finished[q]
  {
    hide Placed, WindowsTimed, Counted, CreatesTimed;
    if r :| Goroutine(s, s2, r) {
      hide Goroutine;
      GoroutineKeepsTimes(s, s2, r, q);
    }
  }

  lemma GoroutineKeepsTimes(s: State, s2: State, r: Request, q: Request)
    requires Counted(s) && CreatesTimed(s) && Goroutine(s, s2, r)
    ensures q in s.started ==> q in s2.started && s2.started[q] == s.started[q]
    ensures q in s.finished ==> q in s2.finished && s2.finished[q] == s.finished[q]
  {
    if StartCreate(s, s2, r) {
      assert r !in s.started;
    } else if FinishCreate(s, s2, r) {
      assert r !in s.finished;
    }
  }

  // ----- Windows -----

  /** Windows in the order they were recorded: chronological, meeting at most at an
      instant. */
  ghost predicate Chronological(ws: seq<GroupWindow>) {
    && (forall k :: 0 <= k < |ws| ==> ws[k].start <= ws[k].end)
    && (forall j, k :: 0 <= j < k < |ws| ==> ws[j].end <= ws[k].start)
  }

  lemma {:induction false} StepwiseChronological(ws: seq<GroupWindow>)
    requires forall k :: 0 <= k < |ws| ==> ws[k].start <= ws[k].end
    requires forall k :: 0 < k < |ws| ==> ws[k - 1].end <= ws[k].start
    ensures Chronological(ws)
    decreases |ws|
  {
    if ws != [] {
      var rest := ws[..|ws| - 1];
      StepwiseChronological(rest);
      forall j | 0 <= j < |ws| - 1 ensures ws[j].end <= ws[|ws| - 1].start {
        assert rest[j] == ws[j] && rest[|rest| - 1] == ws[|ws| - 2];
      }
    }
  }

  /** Every run records chronological windows, one per group in execution order, and
      every create of a finished group ran inside its group's window. */
  lemma WindowsHold(shape: Shape, run: seq<State>, k: nat, q: Request)
    requires Behaviour(shape, run) && k < |run|
    ensures var s := run[k];
            && Chronological(s.windows) && |s.windows| == s.at.group
            && (q in s.sent && q.group < s.at.group ==>
                  && q in s.started && q in s.finished && s.windows[q.group].group == q.group
                  && s.windows[q.group].start <= s.started[q] <= s.finished[q] <= s.windows[q.group].end)
  {
    AlwaysInv(shape, run, k);
    StepwiseChronological(run[k].windows);
  }

  /** Nothing of a run is recorded before the run begins. */
  lemma {:induction false} AfterStart(shape: Shape, run: seq<State>, k: nat)
    requires Behaviour(shape, run) && k < |run|
    ensures run[0].now <= run[k].groupStart <= run[k].now
    ensures forall g :: 0 <= g < |run[k].windows| ==> run[0].now <= run[k].windows[g].start
    decreases k
  {
    if k > 0 {
      AfterStart(shape, run, k - 1);
      AlwaysInv(shape, run, k);
      assert Next(shape, run[k - 1], run[k]);
      hide Inv, Spawn, FinishCall, Goroutine;
      StepWindows(shape, run[k - 1], run[k]);
    }
  }

  lemma StepWindows(shape: Shape, s: State, s2: State)
    requires Next(shape, s, s2)
    ensures s.now <= s2.now
    ensures (s2.windows == s.windows && s2.groupStart == s.groupStart)
         || (s2.groupStart == s2.now && |s2.windows| == |s.windows| + 1 && s2.windows[..|s.windows|] == s.windows
             && s2.windows[|s.windows|].start == s.groupStart)
  {
    hide Spawned, Valid;
    if !FinishGroup(shape, s, s2) && !Spawn(shape, s, s2) && !FinishCall(shape, s, s2) {
      var q :| Goroutine(s, s2, q);
    }
  }

  /** Run b starts when run a has come to its last state. */
  ghost predicate Follows(a: seq<State>, b: seq<State>) {
    a != [] && b != [] && a[|a| - 1].now <= b[0].now
  }

  /** The grouped runs of a job: the initial creation and then one for every churn cycle,
      each starting after the one before. All append to the same GroupWindows. */
  ghost predicate History(shapes: seq<Shape>, runs: seq<seq<State>>) {
    && |shapes| == |runs|
    && (forall r :: 0 <= r < |runs| ==> Behaviour(shapes[r], runs[r]))
    && forall r :: 0 < r < |runs| ==> Follows(runs[r - 1], runs[r])
  }

  /** What GroupWindows holds after the runs. */
  ghost function Recorded(shapes: seq<Shape>, runs: seq<seq<State>>): seq<GroupWindow>
    requires History(shapes, runs)
  {
    if runs == [] then []
    else
      var last := runs[|runs| - 1];
      Recorded(shapes[..|shapes| - 1], runs[..|runs| - 1]) + last[|last| - 1].windows
  }

  /** Every window of ws has ended when the run comes to its last state. */
  ghost predicate EndedBy(ws: seq<GroupWindow>, run: seq<State>) {
    run != [] && forall w :: w in ws ==> w.end <= run[|run| - 1].now
  }

  /** The windows of all runs follow one another, so a timestamp is in two of them only
      at an instant where one ends and the other starts. */
  lemma {:induction false} HistoryWindowsHold(shapes: seq<Shape>, runs: seq<seq<State>>)
    requires History(shapes, runs)
    ensures Chronological(Recorded(shapes, runs))
    ensures runs != [] ==> EndedBy(Recorded(shapes, runs), runs[|runs| - 1])
    decreases |runs|
  {
    hide Behaviour, Follows, EndedBy, Chronological;
    var m := |runs| - 1;
    if m < 0 {
      NoWindows();
    } else if m == 0 {
      RunWindows(shapes[0], runs[0]);
      NoWindows();
      JoinWindows([], shapes[0], runs[0]);
      assert runs[..0] == [] && Recorded(shapes[..0], runs[..0]) == [];
    } else {
      HistoryWindowsHold(shapes[..m], runs[..m]);
      assert runs[..m][m - 1] == runs[m - 1] && Follows(runs[m - 1], runs[m]);
      EndedBefore(Recorded(shapes[..m], runs[..m]), runs[m - 1], runs[m]);
      JoinWindows(Recorded(shapes[..m], runs[..m]), shapes[m], runs[m]);
    }
  }

  lemma NoWindows()
    ensures Chronological([])
  {
  }

  lemma EndedBefore(ws: seq<GroupWindow>, a: seq<State>, b: seq<State>)
    requires EndedBy(ws, a) && Follows(a, b)
    ensures b != [] && forall w :: w in ws ==> w.end <= b[0].now
  {
  }

  /** One more run after windows that ended before it began. */
  lemma JoinWindows(ws: seq<GroupWindow>, shape: Shape, run: seq<State>)
    requires Behaviour(shape, run) && Chronological(ws) && run != [] && forall w :: w in ws ==> w.end <= run[0].now
    ensures Chronological(ws + run[|run| - 1].windows) && EndedBy(ws + run[|run| - 1].windows, run)
  {
    hide Behaviour, Chronological;
    RunWindows(shape, run);
    ChronologicalConcat(ws, run[|run| - 1].windows, run[0].now);
  }

  lemma RunWindows(shape: Shape, run: seq<State>)
    requires Behaviour(shape, run)
    ensures run != [] && Chronological(run[|run| - 1].windows)
    ensures forall w :: w in run[|run| - 1].windows ==> run[0].now <= w.start && w.end <= run[|run| - 1].now
    ensures run[0].now <= run[|run| - 1].now
  {
    var k := |run| - 1;
    AfterStart(shape, run, k);
    AlwaysInv(shape, run, k);
    hide Behaviour, Counted, Placed, CreatesTimed;
    StepwiseChronological(run[k].windows);
  }

  lemma ChronologicalConcat(a: seq<GroupWindow>, b: seq<GroupWindow>, t: int)
    requires Chronological(a) && Chronological(b)
    requires (forall w :: w in a ==> w.end <= t) && forall w :: w in b ==> t <= w.start
    ensures Chronological(a + b)
  {
    var all := a + b;
    forall j, k | 0 <= j < k < |all| ensures all[j].end <= all[k].start {
      if j < |a| <= k {
        assert all[j] in a && all[k] in b;
      }
    }
  }

  predicate Contains(w: GroupWindow, t: int) { w.start <= t <= w.end }

  ghost predicate IsFirst(windows: seq<GroupWindow>, k: int, t: int) {
    0 <= k < |windows| && Contains(windows[k], t) && forall j :: 0 <= j < k ==> !Contains(windows[j], t)
  }

  /** createMetric's scan: the group id of the first window around a range-query
      timestamp, stopping there. */
  method TagGroup(windows: seq<GroupWindow>, t: int) returns (groupId: Option<nat>)
    ensures groupId.None? ==> forall k :: 0 <= k < |windows| ==> !Contains(windows[k], t)
    ensures groupId.Some? ==> exists k :: IsFirst(windows, k, t) && windows[k].group == groupId.value
  {
    groupId := None;
    for k := 0 to |windows|
      invariant forall j :: 0 <= j < k ==> !Contains(windows[j], t)
    {
      if !(t < windows[k].start) && !(t > windows[k].end) {
        assert IsFirst(windows, k, t);
        groupId := Some(windows[k].group);
        return;
      }
    }
  }

  /** The first match is the only match, except at an instant where one window ends
      and a later one starts. */
  lemma FirstMatchOnly(ws: seq<GroupWindow>, t: int, j: nat, k: nat)
    requires Chronological(ws) && j < k < |ws| && Contains(ws[j], t) && Contains(ws[k], t)
    ensures t == ws[j].end == ws[k].start
  {
  }

  /** A timestamp strictly inside the window of a group is tagged with that group. */
  lemma TagIsGroup(ws: seq<GroupWindow>, t: int, k: nat, j: nat)
    requires Chronological(ws) && k < |ws| && ws[k].start < t < ws[k].end
    requires j < |ws| && Contains(ws[j], t)
    ensures j == k
  {
  }
}
