/** churnNamespaces: delete an aligned window of the job's namespaces with the
    cluster-scoped objects that serve it, and create that range of iterations again. */
module NamespaceChurn {
  import opened Arithmetic
  import opened Churn
  import opened Decimal
  import opened Sequences
  import opened Workload
  import opened Cluster
  import opened Lifecycle

  // ----- The window -----

  /** numToChurn, aligned to the repeat interval when there is one. */
  function NumToChurn(percent: int, listed: nat, repeat: int): int
    requires repeat >= 1
  {
    var base := Share(percent, listed);
    if repeat > 1 then
      var up := CeilDiv(base, repeat) * repeat;
      if up > listed then listed / repeat * repeat else up
    else base
  }

  /** rand.Intn(n) for an arbitrary draw. */
  function Intn(draw: nat, n: int): (r: int)
    requires n > 0
    ensures 0 <= r < n
  {
    draw % n
  }

  /** randStart of a cycle. */
  function RandStart(percent: int, listed: nat, repeat: int, draw: nat): int
    requires repeat >= 1
  {
    var num := NumToChurn(percent, listed, repeat);
    if repeat > 1 then
      var positions := (listed - num) / repeat + 1;
      if positions > 0 then Intn(draw, positions) * repeat else 0
    else if listed - num + 1 > 0 then Intn(draw, listed - num + 1)
    else 0
  }

  lemma AlignedNum(percent: int, listed: nat, repeat: int)
    requires repeat > 1
    ensures 0 <= NumToChurn(percent, listed, repeat) <= listed
    ensures NumToChurn(percent, listed, repeat) % repeat == 0
  {
    var base := Share(percent, listed);
    BelowCeil(base, repeat, 0);
    var c, f := CeilDiv(base, repeat), listed / repeat;
    MulMonotone(repeat, 0, c);
    BlockOf(listed, repeat);
    MulMonotone(repeat, 0, f);
    DivMod(repeat * c, repeat, c, 0);
    DivMod(repeat * f, repeat, f, 0);
    assert c * repeat == repeat * c && f * repeat == repeat * f;
  }

  /** How many namespaces a cycle churns. Without a repeat interval it is the percentage
      of the list rounded down, and at least one. */
  lemma PlainSize(percent: int, listed: nat)
    ensures
      var num := NumToChurn(percent, listed, 1);
      && num >= 1 && percent * listed < 100 * (num + 1)
      && (num == 1 || 100 * num <= percent * listed)
  {
    ShareRoundsDown(percent, listed);
  }

  /** With one it is the least multiple of the interval that is not below that number, or
      the last whole block of the list when the list is too short for it. */
  lemma AlignedSize(percent: int, listed: nat, repeat: int)
    requires repeat > 1
    ensures
      var plain, num := NumToChurn(percent, listed, 1), NumToChurn(percent, listed, repeat);
      && num % repeat == 0 && 0 <= num <= listed
      && (if num >= plain then num < plain + repeat else listed < num + repeat)
  {
    AlignedNum(percent, listed, repeat);
    var plain := Share(percent, listed);
    var up := CeilDiv(plain, repeat);
    BelowCeil(plain, repeat, up);
    BelowCeil(plain, repeat, up - 1);
    Distribute(repeat, up, 1);
    assert up * repeat == repeat * up;
    var f := listed / repeat;
    assert listed == repeat * f + listed % repeat && f * repeat == repeat * f;
    if repeat * up > listed && f * repeat >= plain {
      assert up > f by {
        if up <= f { MulMonotone(repeat, up, f); }
      }
      MulMonotone(repeat, f, up - 1);
      assert false;
    }
  }

  /** Half of ten namespaces: five, or eight with an interval of 4. */
  lemma HalfCase()
    ensures NumToChurn(50, 10, 1) == 5 && NumToChurn(50, 10, 4) == 8
  {
    assert Share(50, 10) == 5 && CeilDiv(5, 4) == 2;
  }

  /** With a repeat interval the window is made of whole blocks inside the list,
      for every percentage, list length and draw. */
  lemma AlignedWindow(percent: int, listed: nat, repeat: int, draw: nat)
    requires repeat > 1
    ensures
      var s, num := RandStart(percent, listed, repeat, draw), NumToChurn(percent, listed, repeat);
      0 <= s && 0 <= num && s + num <= listed && s % repeat == 0 && num % repeat == 0
  {
    AlignedNum(percent, listed, repeat);
    var num := NumToChurn(percent, listed, repeat);
    var room := listed - num;
    BlockOf(room, repeat);
    var p := Intn(draw, room / repeat + 1);
    MulMonotone(repeat, 0, p);
    MulMonotone(repeat, p, room / repeat);
    DivMod(repeat * p, repeat, p, 0);
    assert p * repeat == repeat * p;
    assert room == repeat * (room / repeat) + room % repeat;
  }

  /** Without one, the slice taken from the list is in range exactly when there is a
      namespace and the percentage does not ask for more than all of them; on the
      others it goes beyond the list. */
  lemma PlainWindow(percent: int, listed: nat, draw: nat)
    ensures
      var s, num := RandStart(percent, listed, 1, draw), NumToChurn(percent, listed, 1);
      && (0 <= s && 1 <= num && s + num <= listed
          <==> listed >= 1 && percent * listed < 100 * (listed + 1))
  {
    if percent < 0 {
      MulMonotone(listed, 0, -percent);
      assert -percent * listed == listed * -percent;
      Negate(listed, percent);
    }
  }

  /** 110 percent of ten namespaces: the slice is [0, 11) whatever the draw. */
  lemma BeyondCase(draw: nat)
    ensures RandStart(110, 10, 1, draw) == 0 && NumToChurn(110, 10, 1) == 11
  {
    assert Share(110, 10) == 11;
  }

  /** 0 <= percent <= 100 and a non-empty list are enough, repeat interval or not. */
  lemma WindowInRange(percent: int, listed: nat, repeat: int, draw: nat)
    requires repeat >= 1 && listed >= 1 && percent <= 100
    ensures
      var s, num := RandStart(percent, listed, repeat, draw), NumToChurn(percent, listed, repeat);
      0 <= s && 0 <= num && s + num <= listed
  {
    if repeat > 1 {
      AlignedWindow(percent, listed, repeat, draw);
    } else {
      MulMonotone(listed, percent, 100);
      PlainWindow(percent, listed, draw);
    }
  }

  predicate InWindow(s: int, e: int, j: int) { s <= j < e }

  /** The iterations from i that one repeat interval covers are all in the window. */
  ghost predicate AllChurned(s: int, e: int, i: int, repeat: int) {
    forall j :: i <= j < i + repeat ==> InWindow(s, e, j)
  }

  ghost predicate NoneChurned(s: int, e: int, i: int, repeat: int) {
    forall j :: i <= j < i + repeat ==> !InWindow(s, e, j)
  }

  /** A multiple of the interval never splits a block that starts at a multiple. */
  lemma BlockUnsplit(bound: int, repeat: int, i: int, j: int)
    requires repeat >= 1 && bound % repeat == 0 && i % repeat == 0 && i <= j < i + repeat
    ensures i < bound <==> j < bound
  {
    if i < bound {
      Distribute(repeat, bound / repeat, i / repeat);
      var d := bound / repeat - i / repeat;
      assert repeat * d == bound - i;
      if d <= 0 {
        MulMonotone(repeat, d, 0);
      }
      MulAtLeast(repeat, d);
    }
  }

  /** Churn-window closure: a shared object of iteration i, which serves iterations
      [i, i + repeat), is in an aligned window exactly when all of those are, and
      otherwise none of them is. */
  lemma SharedClosure(s: int, e: int, repeat: int, i: int)
    requires repeat >= 1 && s % repeat == 0 && e % repeat == 0 && i % repeat == 0
    ensures InWindow(s, e, i) <==> AllChurned(s, e, i, repeat)
    ensures !InWindow(s, e, i) <==> NoneChurned(s, e, i, repeat)
  {
    forall j | i <= j < i + repeat ensures InWindow(s, e, j) <==> InWindow(s, e, i) {
      BlockUnsplit(s, repeat, i, j);
      BlockUnsplit(e, repeat, i, j);
    }
    assert i <= i < i + repeat;
  }

  lemma AddAligned(a: int, b: int, repeat: int)
    requires repeat >= 1 && a % repeat == 0 && b % repeat == 0
    ensures (a + b) % repeat == 0
  {
    Distribute(repeat, a / repeat, -(b / repeat));
    Negate(repeat, b / repeat);
    DivMod(a + b, repeat, a / repeat + b / repeat, 0);
  }

  /** An aligned bound inside the list does not pass its last whole block. */
  lemma LastBlock(listed: nat, repeat: int, bound: int)
    requires repeat >= 1 && bound % repeat == 0 && bound <= listed
    ensures bound <= repeat * (listed / repeat)
  {
    var block := repeat * (listed / repeat);
    DivMod(block, repeat, listed / repeat, 0);
    assert listed == block + listed % repeat;
    BlockUnsplit(bound, repeat, block, listed);
  }

  /** The draw selects a window with position i in it. */
  predicate Draws(percent: int, listed: nat, repeat: int, draw: nat, i: nat)
    requires repeat >= 1
  {
    var s := RandStart(percent, listed, repeat, draw);
    s <= i < s + NumToChurn(percent, listed, repeat)
  }

  /** The iterations after the last whole block are in no window. */
  lemma TailNeverChurned(percent: int, listed: nat, repeat: int, draw: nat, i: nat)
    requires repeat > 1 && repeat * (listed / repeat) <= i
    ensures !Draws(percent, listed, repeat, draw, i)
  {
    hide RandStart, NumToChurn;
    AlignedWindow(percent, listed, repeat, draw);
    var s, num := RandStart(percent, listed, repeat, draw), NumToChurn(percent, listed, repeat);
    AddAligned(s, num, repeat);
    LastBlock(listed, repeat, s + num);
  }

  /** How many whole blocks a window takes: at least one as soon as there is one. */
  lemma NumInBlocks(percent: int, listed: nat, repeat: int) returns (c: int)
    requires repeat > 1
    ensures NumToChurn(percent, listed, repeat) == repeat * c && 0 <= c <= listed / repeat
    ensures listed / repeat >= 1 ==> c >= 1
  {
    var base := Share(percent, listed);
    var up, f := CeilDiv(base, repeat), listed / repeat;
    BelowCeil(base, repeat, 0);
    BlockOf(listed, repeat);
    assert up * repeat == repeat * up && f * repeat == repeat * f;
    if repeat * up > listed {
      c := f;
    } else {
      c := up;
      WholeBlocks(listed, repeat, up);
    }
  }

  lemma WholeBlocks(listed: nat, repeat: int, c: int)
    requires repeat >= 1 && repeat * c <= listed
    ensures c <= listed / repeat && (listed - repeat * c) / repeat == listed / repeat - c
  {
    var f, m := listed / repeat, listed % repeat;
    assert listed == repeat * f + m;
    Distribute(repeat, f, -1);
    if c > f {
      MulMonotone(repeat, f + 1, c);
    }
    Distribute(repeat, f, c);
    DivMod(listed - repeat * c, repeat, f - c, m);
  }

  /** Draw number d starts the window at block d, as long as it fits. */
  lemma StartAtBlock(percent: int, listed: nat, repeat: int, c: int, d: nat)
    requires repeat > 1 && NumToChurn(percent, listed, repeat) == repeat * c && d <= listed / repeat - c
    ensures RandStart(percent, listed, repeat, d) == repeat * d
  {
    hide NumToChurn;
    AlignedNum(percent, listed, repeat);
    WholeBlocks(listed, repeat, c);
    DivMod(d, listed / repeat - c + 1, 0, d);
    assert d * repeat == repeat * d;
  }

  /** With a repeat interval, whatever the percentage: some draw churns an iteration if
      and only if it lies before the end of the last whole block. */
  lemma ChurnableIff(percent: int, listed: nat, repeat: int, i: nat)
    requires repeat > 1
    ensures (exists draw: nat :: Draws(percent, listed, repeat, draw, i)) <==> i < repeat * (listed / repeat)
  {
    if i < repeat * (listed / repeat) {
      var draw := DrawFor(percent, listed, repeat, i);
    } else {
      forall draw: nat ensures !Draws(percent, listed, repeat, draw, i) {
        TailNeverChurned(percent, listed, repeat, draw, i);
      }
    }
  }

  lemma DrawFor(percent: int, listed: nat, repeat: int, i: nat) returns (draw: nat)
    requires repeat > 1 && i < repeat * (listed / repeat)
    ensures Draws(percent, listed, repeat, draw, i)
  {
    hide RandStart, NumToChurn;
    var f := listed / repeat;
    BlockOf(listed, repeat);
    BlockOf(i, repeat);
    if f <= 0 {
      MulMonotone(repeat, f, 0);
    }
    var c := NumInBlocks(percent, listed, repeat);
    draw := Min(i / repeat, f - c);
    StartAtBlock(percent, listed, repeat, c, draw);
    BlocksCover(repeat, f, c, i, draw);
  }

  /** c blocks from the block of i on, or the last c of f blocks, hold i. */
  lemma BlocksCover(repeat: int, f: int, c: int, i: nat, d: nat)
    requires repeat >= 1 && i < repeat * f && 1 <= c <= f && d == Min(i / repeat, f - c)
    ensures repeat * d <= i < repeat * d + repeat * c
  {
    var b := i / repeat;
    assert i == repeat * b + i % repeat;
    MulMonotone(repeat, d, b);
    MulMonotone(repeat, 1, c);
    Distribute(repeat, f, c);
  }

  /** Without an interval, and with a percentage of at most 100, some draw churns every
      namespace of the list. */
  lemma PlainChurnableIff(percent: int, listed: nat, i: nat)
    requires listed >= 1 && percent <= 100
    ensures (exists draw: nat :: Draws(percent, listed, 1, draw, i)) <==> i < listed
  {
    var num := NumToChurn(percent, listed, 1);
    forall draw: nat ensures Draws(percent, listed, 1, draw, i) ==> i < listed {
      WindowInRange(percent, listed, 1, draw);
    }
    WindowInRange(percent, listed, 1, 0);
    if i < listed {
      var draw := Min(i, listed - num);
      DivMod(draw, listed - num + 1, 0, draw);
      assert RandStart(percent, listed, 1, draw) == draw;
      assert Draws(percent, listed, 1, draw, i);
    }
  }

  /** The windows that can be drawn start at every multiple of the interval, 1 without
      one, from which they fit the list, and nowhere else. */
  lemma StartDrawnIff(percent: int, listed: nat, repeat: int, s: nat)
    requires repeat >= 1 && listed >= 1 && percent <= 100
    ensures (exists draw: nat :: RandStart(percent, listed, repeat, draw) == s)
       <==> s % repeat == 0 && s + NumToChurn(percent, listed, repeat) <= listed
  {
    hide RandStart, NumToChurn;
    if draw: nat :| RandStart(percent, listed, repeat, draw) == s {
      WindowInRange(percent, listed, repeat, draw);
      if repeat > 1 {
        AlignedWindow(percent, listed, repeat, draw);
      }
    }
    if s % repeat == 0 && s + NumToChurn(percent, listed, repeat) <= listed {
      StartAt(percent, listed, repeat, s);
    }
  }

  lemma StartAt(percent: int, listed: nat, repeat: int, s: nat)
    requires repeat >= 1 && s % repeat == 0 && s + NumToChurn(percent, listed, repeat) <= listed
    ensures exists draw: nat :: RandStart(percent, listed, repeat, draw) == s
  {
    hide NumToChurn;
    if repeat == 1 {
      DivMod(s, listed - NumToChurn(percent, listed, 1) + 1, 0, s);
      assert RandStart(percent, listed, 1, s) == s;
    } else {
      hide RandStart;
      var c := NumInBlocks(percent, listed, repeat);
      var d := BlockBefore(listed, repeat, c, s);
      StartAtBlock(percent, listed, repeat, c, d);
    }
  }

  lemma BlockBefore(listed: nat, repeat: int, c: int, s: nat) returns (d: nat)
    requires repeat >= 1 && s % repeat == 0 && s + repeat * c <= listed
    ensures s == repeat * d && d <= listed / repeat - c
  {
    BlockOf(s, repeat);
    d := s / repeat;
    Distribute(repeat, d, -c);
    Negate(repeat, c);
    WholeBlocks(listed, repeat, d + c);
  }

  /** Ten namespaces, an interval of 4 and 100 percent: every window is [0, 8), so the
      namespaces 8 and 9 are never churned. */
  lemma TailCase(draw: nat)
    ensures RandStart(100, 10, 4, draw) == 0 && NumToChurn(100, 10, 4) == 8
    ensures !Draws(100, 10, 4, draw, 8) && !Draws(100, 10, 4, draw, 9)
  {
    assert Share(100, 10) == 10 && NumToChurn(100, 10, 4) == 8;
  }

  // ----- The interval -----

  /** The churn loop's scan: the interval of the first template that has one. */
  function FirstRepeat(job: Job, n: nat): (repeat: int)
    requires n <= |job.objects|
    ensures repeat >= 1
  {
    if n == 0 then 1
    else if FirstRepeat(job, n - 1) > 1 then FirstRepeat(job, n - 1)
    else Max(1, job.objects[n - 1].repeatEvery)
  }

  /** Every interval above 1 is the same one: what configuration validation enforces. */
  ghost predicate UniformRepeat(job: Job) {
    forall j, k | 0 <= j < |job.objects| && 0 <= k < |job.objects|
      && job.objects[j].repeatEvery > 1 && job.objects[k].repeatEvery > 1 ::
      job.objects[j].repeatEvery == job.objects[k].repeatEvery
  }

  /** Stopping at the first interval finds the largest one for every validated job. */
  lemma {:induction false} FirstIsLargest(job: Job, n: nat)
    requires UniformRepeat(job) && n <= |job.objects|
    ensures forall k :: 0 <= k < n ==> job.objects[k].repeatEvery <= FirstRepeat(job, n)
    ensures FirstRepeat(job, n) > 1 ==> exists k :: 0 <= k < n && job.objects[k].repeatEvery == FirstRepeat(job, n)
  {
    if n > 0 {
      FirstIsLargest(job, n - 1);
    }
  }

  // ----- The sorted list -----

  ghost predicate SortedBySuffix(names: seq<string>) {
    forall j, k :: 0 <= j < k < |names| ==> Suffix(names[j]) <= Suffix(names[k])
  }

  /** Where the natural sort puts one more name. */
  function InsertBySuffix(names: seq<string>, x: string): seq<string> {
    if names == [] || Suffix(names[|names| - 1]) <= Suffix(x) then names + [x]
    else InsertBySuffix(names[..|names| - 1], x) + [names[|names| - 1]]
  }

  lemma {:induction false} InsertSorted(names: seq<string>, x: string)
    requires SortedBySuffix(names) && NoRepeats(names) && x !in names
    ensures SortedBySuffix(InsertBySuffix(names, x)) && NoRepeats(InsertBySuffix(names, x))
    ensures forall y :: y in InsertBySuffix(names, x) <==> y == x || y in names
    decreases |names|
  {
    hide Suffix;
    if names != [] && Suffix(names[|names| - 1]) > Suffix(x) {
      var rest, last := names[..|names| - 1], names[|names| - 1];
      assert names == rest + [last];
      InsertSorted(rest, x);
      var r := InsertBySuffix(rest, x);
      forall k | 0 <= k < |r| ensures Suffix(r[k]) <= Suffix(last) && r[k] != last {
        assert r[k] in r;
      }
    }
  }

  lemma ListedKey(base: string, n: nat, name: string)
    requires name in Names(base, n)
    ensures 0 <= Suffix(name) < n && name == NamespaceName(base, Suffix(name))
  {
    var i :| 0 <= i < n && Names(base, n)[i] == name;
    SuffixOfName(base, i);
  }

  function Keys(names: seq<string>): (keys: seq<int>)
    ensures |keys| == |names| && forall k :: 0 <= k < |keys| ==> keys[k] == Suffix(names[k])
  {
    seq(|names|, k requires 0 <= k < |names| => Suffix(names[k]))
  }

  lemma KeysAscend(base: string, n: nat, names: seq<string>)
    requires SortedBySuffix(names) && NoRepeats(names)
    requires forall k :: 0 <= k < |names| ==> names[k] in Names(base, n)
    ensures Ascending(Keys(names))
    ensures forall k :: 0 <= k < |names| ==> 0 <= Keys(names)[k] < n && names[k] == NamespaceName(base, Keys(names)[k])
  {
    hide Suffix, Names, NamespaceName;
    forall k | 0 <= k < |names|
      ensures 0 <= Keys(names)[k] < n && names[k] == NamespaceName(base, Keys(names)[k])
    {
      ListedKey(base, n, names[k]);
    }
  }

  /** Sorted by suffix, the namespaces of n iterations are base-0 .. base-(n-1) in
      that order: position k of the list is namespace base-k. */
  lemma SortedAreNames(base: string, n: nat, names: seq<string>)
    requires SortedBySuffix(names) && NoRepeats(names)
    requires forall ns :: ns in names <==> ns in Names(base, n)
    ensures names == Names(base, n)
  {
    var keys := Keys(names);
    KeysAscend(base, n, names);
    hide Suffix, NamespaceName, SortedBySuffix, NoRepeats, Keys, Ascending;
    forall x ensures x in keys <==> x in UpTo(n) {
      if x in UpTo(n) {
        assert Names(base, n)[x] in names;
        var k :| 0 <= k < |names| && names[k] == NamespaceName(base, x);
        NamesDistinct(base, x, keys[k]);
      }
      if x in keys {
        assert UpTo(n)[x] == x;
      }
    }
    assert Ascending(UpTo(n)) by { UpToAscends(n); }
    AscendingUnique(keys, UpTo(n));
  }

  lemma UpToAscends(n: nat)
    ensures Ascending(UpTo(n))
  {
  }

  // ----- A cycle -----

  /** preloadClusterScopedObjects lists c: some cluster-scoped template has c's
      resource and repeats at c's iteration. */
  predicate Served(job: Job, c: Create)
    requires ValidJob(job)
  {
    && c.index < |job.objects|
    && exists k :: 0 <= k < |job.objects| && !job.objects[k].namespaced
         && job.objects[k].gvr == job.objects[c.index].gvr && c.iteration % job.objects[k].repeatEvery == 0
  }

  /** The label patch, the deletion of the cluster-scoped objects of iterations
      [s, e) found in the preloaded cache, and the deletion of the labelled
      namespaces with everything in them. */
  function DeleteWindow(st: State, job: Job, cache: set<Create>, window: set<string>, s: nat, e: nat): State
    requires ValidJob(job)
  {
    st.(flags := map ns | ns in st.flags :: st.flags[ns] && ns !in window,
        owned := st.owned - window,
        live := map c | c in st.live && !(c in cache && s <= c.iteration < e && Served(job, c)) && c.ns !in window
                  :: st.live[c])
  }

  function WindowNames(names: seq<string>, s: nat, e: nat): set<string>
    requires s <= e <= |names|
  {
    set ns | ns in names[s..e]
  }

  /** One pass of the churn loop with the window [s, e) of the sorted list. */
  function Cycle(st: State, job: Job, cache: set<Create>, names: seq<string>, s: nat, e: nat): State
    requires ValidJob(job) && s <= e <= |names|
  {
    RunCreate(DeleteWindow(st, job, cache, WindowNames(names, s, e), s, e), job, s, e)
  }

  // ----- The workload that churn works on -----

  /** The job places objects in a namespace for each block of iterations. */
  ghost predicate NamespacedJob(job: Job) {
    ValidJob(job) && NamespacesRequired(job) && job.namespacedIterations
  }

  /** The job churns namespaces one iteration each. */
  ghost predicate ChurnJob(job: Job) { NamespacedJob(job) && job.iterationsPerNamespace == 1 }

  /** How many namespaces n iterations fill. */
  ghost function Blocks(job: Job, n: nat): (b: nat)
    requires job.iterationsPerNamespace >= 1
    ensures b <= n && (job.iterationsPerNamespace == 1 ==> b == n)
  {
    BlockOf(n, job.iterationsPerNamespace);
    BelowCeil(n, job.iterationsPerNamespace, n);
    MulMonotone(n, 1, job.iterationsPerNamespace);
    CeilDiv(n, job.iterationsPerNamespace)
  }

  /** The first b generated namespaces. */
  ghost function FirstNames(job: Job, b: nat): set<string> { set ns | ns in Names(job.namespace, b) }

  /** The workload of n iterations stands: its namespaces exist and are marked, and
      live is every create of [0, n) that its group did not collect. */
  ghost predicate Standing(job: Job, st: State, n: nat)
    requires ValidJob(job)
  {
    && FixedExist(job, st)
    && FirstNames(job, Blocks(job, n)) !! st.foreign
    && st.owned == FirstNames(job, Blocks(job, n))
    && (forall ns :: Flagged(st, ns) <==> ns in st.owned)
    && st.live == Surviving(job, st.flags, AddAll(map[], Created(job, 0, n), st.runid), st.runid)
  }

  lemma InFirstNames(job: Job, b: nat, k: nat)
    ensures NamespaceName(job.namespace, k) in FirstNames(job, b) <==> k < b
  {
    NameListed(job.namespace, b, k);
  }

  /** The namespaces a run over [0, n) needs are the first Blocks(n). */
  lemma NeededBlocks(job: Job, n: nat)
    requires NamespacedJob(job)
    ensures Needed(job, 0, n) == FirstNames(job, Blocks(job, n))
  {
    var b := Blocks(job, n);
    hide NamespacesRequired, FirstNames, Blocks;
    forall i: nat | i < n ensures GenerateNamespace(job, i) in FirstNames(job, b) {
      IterationInBlocks(job, n, i);
    }
    forall ns | ns in FirstNames(job, b) ensures ns in Needed(job, 0, n) {
      var i := BlockHasIteration(job, n, ns);
    }
  }

  lemma IterationInBlocks(job: Job, n: nat, i: nat)
    requires job.iterationsPerNamespace >= 1 && i < n
    ensures GenerateNamespace(job, i) in FirstNames(job, Blocks(job, n))
  {
    BlockBelow(i, job.iterationsPerNamespace, n);
    InFirstNames(job, Blocks(job, n), i / job.iterationsPerNamespace);
  }

  lemma BlockHasIteration(job: Job, n: nat, ns: string) returns (i: nat)
    requires job.iterationsPerNamespace >= 1 && ns in FirstNames(job, Blocks(job, n))
    ensures i < n && GenerateNamespace(job, i) == ns
  {
    var per := job.iterationsPerNamespace;
    var k :| 0 <= k < Blocks(job, n) && Names(job.namespace, Blocks(job, n))[k] == ns;
    BelowCeil(n, per, k);
    MulMonotone(per, 0, k);
    DivMod(per * k, per, k, 0);
    i := per * k;
  }

  lemma BlockBelow(i: nat, per: int, n: nat)
    requires per >= 1 && i < n
    ensures 0 <= i / per < CeilDiv(n, per)
  {
    BlockOf(i, per);
    BelowCeil(n, per, i / per);
    assert i == per * (i / per) + i % per;
  }

  lemma NeededNames(job: Job, s: nat, e: nat, n: nat)
    requires ChurnJob(job) && s <= e <= n
    ensures Needed(job, s, e) == WindowNames(Names(job.namespace, n), s, e)
  {
    hide NamespacesRequired, ValidJob;
    var names := Names(job.namespace, n);
    forall i | 0 <= i < n ensures GenerateNamespace(job, i) == names[i] {
      DivMod(i, 1, i, 0);
    }
    hide NamespaceName, GenerateNamespace, Names;
    forall ns ensures ns in Needed(job, s, e) <==> ns in names[s..e] {
      if ns in names[s..e] {
        var k :| 0 <= k < e - s && names[s..e][k] == ns;
        assert GenerateNamespace(job, s + k) == ns;
      }
      if ns in Needed(job, s, e) {
        var i :| s <= i < e && GenerateNamespace(job, i) == ns;
        assert names[s..e][i - s] == ns;
      }
    }
  }

  /** The creation run that precedes churning leaves the workload standing. */
  lemma FirstRunStands(job: Job, st: State, n: nat)
    requires NamespacedJob(job) && FixedExist(job, st) && FirstNames(job, Blocks(job, n)) !! st.foreign
    requires st.owned == {} && st.live == map[] && forall ns :: !Flagged(st, ns)
    ensures Standing(job, RunCreate(st, job, 0, n), n)
  {
    RunCreateRan(st, job, 0, n);
    NeededBlocks(job, n);
    hide RunCreate, ValidJob, NamespacesRequired, Survives, Names, Blocks;
    assert AddAll(map[], Created(job, 0, n), st.runid) == AddAll(st.live, Created(job, 0, n), st.runid);
  }

  lemma SurvivingAt(job: Job, flags: map<string, bool>, live: map<Create, string>, runid: string, c: Create)
    ensures c in Surviving(job, flags, live, runid) <==> c in live && (live[c] == runid ==> Survives(job, flags, c))
    ensures c in Surviving(job, flags, live, runid) ==> Surviving(job, flags, live, runid)[c] == live[c]
  {
    hide Survives;
  }

  lemma StandingAt(job: Job, st: State, n: nat, c: Create)
    requires ValidJob(job) && Standing(job, st, n)
    ensures c in st.live <==> IsCreate(job, c, 0, n) && Survives(job, st.flags, c)
    ensures c in st.live ==> st.live[c] == st.runid
  {
    hide Survives, IsCreate, ValidJob, FixedExist, FirstNames, Surviving, AddAll, Blocks;
    SurvivingAt(job, st.flags, AddAll(map[], Created(job, 0, n), st.runid), st.runid, c);
    AddAllAt(map[], Created(job, 0, n), st.runid, c);
  }

  // ----- What a window deletes and what it makes again -----

  /** The list positions of the window are used as iteration numbers, so the deleted
      namespaces are all created again exactly when each namespace holds a single
      iteration, the window is empty, or it is the first namespace alone. */
  lemma RecreatedIff(job: Job, s: nat, e: nat, n: nat)
    requires NamespacedJob(job) && s <= e <= n
    ensures WindowNames(Names(job.namespace, n), s, e) <= Needed(job, s, e)
       <==> job.iterationsPerNamespace == 1 || s == e || (s == 0 && e == 1)
  {
    var names, per := Names(job.namespace, n), job.iterationsPerNamespace;
    hide NamespacesRequired;
    if job.iterationsPerNamespace == 1 {
      NeededNames(job, s, e, n);
    } else if s < e {
      var last := e - 1;
      assert names[s..e][last - s] == NamespaceName(job.namespace, last);
      if s == 0 && e == 1 {
        DivMod(0, per, 0, 0);
        assert GenerateNamespace(job, 0) == names[0];
        assert WindowNames(names, s, e) == {names[0]};
      }
      if WindowNames(names, s, e) <= Needed(job, s, e) {
        assert NamespaceName(job.namespace, last) in WindowNames(names, s, e);
        var i :| s <= i < e && GenerateNamespace(job, i) == NamespaceName(job.namespace, last);
        NamesDistinct(job.namespace, i / per, last);
        FirstBlock(i, per, last);
      }
    }
  }

  /** Only iteration 0 has its own number as block index when blocks hold several. */
  lemma FirstBlock(i: nat, per: int, last: nat)
    requires per >= 2 && i <= last && i / per == last
    ensures last == 0
  {
    MulMonotone(last, 2, per);
    assert i == per * last + i % per;
  }

  /** The window's namespaces hold iteration i. */
  predicate InBlocks(job: Job, s: int, e: int, i: nat)
    requires job.iterationsPerNamespace >= 1
  {
    s <= i / job.iterationsPerNamespace < e
  }

  /** c lies in a generated namespace. */
  predicate Generated(job: Job, c: Create)
    requires c.index < |job.objects|
  {
    job.objects[c.index].namespaced && job.objects[c.index].fixedNamespace == ""
  }

  /** An object's namespace is one of the window's exactly when it is generated and the
      window's namespaces hold the object's iteration. */
  lemma PlacedInWindow(job: Job, st: State, s: nat, e: nat, n: nat, c: Create)
    requires NamespacedJob(job) && s <= e <= Blocks(job, n) && IsCreate(job, c, 0, n)
    requires FirstNames(job, Blocks(job, n)) !! st.foreign && FixedExist(job, st)
    ensures c.ns in WindowNames(Names(job.namespace, Blocks(job, n)), s, e)
       <==> Generated(job, c) && InBlocks(job, s, e, c.iteration)
  {
    hide NamespacesRequired, Blocks;
    var names, b := Names(job.namespace, Blocks(job, n)), c.iteration / job.iterationsPerNamespace;
    BlockOf(c.iteration, job.iterationsPerNamespace);
    if c.ns in WindowNames(names, s, e) {
      var k :| 0 <= k < e - s && names[s..e][k] == c.ns;
      assert names[s + k] == c.ns && c.ns in FirstNames(job, Blocks(job, n));
      assert c.ns == NamespaceName(job.namespace, s + k) && c.ns != "";
      NamesDistinct(job.namespace, s + k, b);
    }
    if Generated(job, c) && InBlocks(job, s, e, c.iteration) {
      assert NamespacesRequired(job) && c.ns == NamespaceName(job.namespace, b);
      assert names[s..e][b - s] == names[b] == c.ns;
    }
  }

  /** Every deleted object is of an iteration of the window, or in one of its namespaces. */
  lemma DeletedInWindow(job: Job, st: State, cache: set<Create>, s: nat, e: nat, n: nat, c: Create)
    requires NamespacedJob(job) && Standing(job, st, n) && s <= e <= Blocks(job, n)
    ensures
      var gone := DeleteWindow(st, job, cache, WindowNames(Names(job.namespace, Blocks(job, n)), s, e), s, e);
      c in st.live && c !in gone.live ==>
        s <= c.iteration < e || (Generated(job, c) && InBlocks(job, s, e, c.iteration))
  {
    StandingAt(job, st, n, c);
    hide DeleteWindow, Served, Survives, NamespacesRequired, Placement, WindowNames, FirstNames, Blocks;
    if c in st.live {
      PlacedInWindow(job, st, s, e, n, c);
    }
  }

  /** One iteration in a namespace with one flag: the group collects it or spares it
      before and after alike. */
  lemma SameFlagSameFate(job: Job, flags: map<string, bool>, flags2: map<string, bool>, c: Create)
    requires (c.ns in flags && flags[c.ns]) <==> (c.ns in flags2 && flags2[c.ns])
    ensures Survives(job, flags, c) <==> Survives(job, flags2, c)
  {
    if c.index < |job.objects| {
      assert forall k :: 0 <= k < |job.objects| ==> (HitBy(job, flags, k, c) <==> HitBy(job, flags2, k, c));
    }
  }

  // ----- When a cycle conserves the workload -----

  /** The cycle deletes c with its namespace and does not create its iteration. */
  ghost predicate Lost(job: Job, flags: map<string, bool>, s: nat, e: nat, n: nat, c: Create)
    requires ValidJob(job)
  {
    && IsCreate(job, c, 0, n) && Survives(job, flags, c)
    && Generated(job, c) && InBlocks(job, s, e, c.iteration) && !(s <= c.iteration < e)
  }

  /** The state of a cycle, namespace by namespace. */
  ghost predicate Renewed(job: Job, st: State, st2: State, s: nat, e: nat, n: nat)
    requires ValidJob(job) && s <= e <= Blocks(job, n)
  {
    var window := WindowNames(Names(job.namespace, Blocks(job, n)), s, e);
    && st2.foreign == st.foreign && st2.runid == st.runid
    && st2.owned == st.owned - window + Needed(job, s, e)
    && Needed(job, s, e) <= st.owned && window <= st.owned
    && forall ns :: Flagged(st2, ns) <==> ns in st2.owned
  }

  lemma CycleRenews(job: Job, st: State, cache: set<Create>, s: nat, e: nat, n: nat)
    requires NamespacedJob(job) && Standing(job, st, n) && s <= e <= Blocks(job, n)
    ensures
      var names := Names(job.namespace, Blocks(job, n));
      var gone := DeleteWindow(st, job, cache, WindowNames(names, s, e), s, e);
      var st2 := Cycle(st, job, cache, names, s, e);
      && Renewed(job, st, st2, s, e, n) && gone.runid == st.runid
      && st2.live == Surviving(job, st2.flags, AddAll(gone.live, Created(job, s, e), gone.runid), gone.runid)
  {
    var names := Names(job.namespace, Blocks(job, n));
    var window := WindowNames(names, s, e);
    var gone := DeleteWindow(st, job, cache, window, s, e);
    NeededBlocks(job, n);
    WindowGone(job, st, cache, window, s, e);
    RunCreateRan(gone, job, s, e);
    assert window <= FirstNames(job, Blocks(job, n));
    NeededWithin(job, s, e, n);
    hide RunCreate, ValidJob, Survives, Names, WindowNames, FixedExist, AddAll, Surviving, Served, Blocks, FirstNames;
    hide Needed, NamespacesRequired, DefaultCreates, Created;
    assert gone.owned == st.owned - window && gone.foreign == st.foreign;
  }

  lemma NeededWithin(job: Job, s: nat, e: nat, n: nat)
    requires NamespacedJob(job) && e <= n
    ensures Needed(job, s, e) <= Needed(job, 0, n)
  {
    hide GenerateNamespace, NamespacesRequired;
  }

  lemma WindowGone(job: Job, st: State, cache: set<Create>, window: set<string>, s: nat, e: nat)
    requires ValidJob(job) && FixedExist(job, st) && (forall ns :: Flagged(st, ns) <==> ns in st.owned)
    ensures
      var gone := DeleteWindow(st, job, cache, window, s, e);
      && Faithful(gone) && FixedExist(job, gone)
      && forall ns :: Flagged(gone, ns) <==> Flagged(st, ns) && ns !in window
  {
    hide Served;
  }

  /** An object outside the deleted namespaces, or of an iteration that is made again,
      is in a namespace with the mark it had. */
  lemma SameMark(job: Job, st: State, st2: State, s: nat, e: nat, n: nat, c: Create)
    requires NamespacedJob(job) && Standing(job, st, n) && s <= e <= Blocks(job, n)
    requires Renewed(job, st, st2, s, e, n) && IsCreate(job, c, 0, n)
    requires s <= c.iteration < e || !(Generated(job, c) && InBlocks(job, s, e, c.iteration))
    ensures Survives(job, st.flags, c) <==> Survives(job, st2.flags, c)
  {
    hide Survives, NamespacesRequired, Surviving, AddAll, Blocks, Names, WindowNames, FirstNames;
    PlacedInWindow(job, st, s, e, n, c);
    if s <= c.iteration < e && Generated(job, c) {
      assert NamespacesRequired(job);
      assert c.ns in Needed(job, s, e);
    }
    hide Needed, Standing;
    assert Flagged(st, c.ns) <==> Flagged(st2, c.ns) by {
      assert Flagged(st, c.ns) <==> c.ns in st.owned;
    }
    SameFlagSameFate(job, st.flags, st2.flags, c);
  }

  /** What is live for c after a cycle: what was, unless it is lost. */
  lemma CycleAt(job: Job, st: State, cache: set<Create>, s: nat, e: nat, n: nat, c: Create)
    requires NamespacedJob(job) && Standing(job, st, n) && s <= e <= Blocks(job, n)
    ensures
      var st2 := Cycle(st, job, cache, Names(job.namespace, Blocks(job, n)), s, e);
      && (c in st2.live <==> c in st.live && !Lost(job, st.flags, s, e, n, c))
      && (c in st2.live && c in st.live ==> st2.live[c] == st.live[c])
  {
    var names := Names(job.namespace, Blocks(job, n));
    var window := WindowNames(names, s, e);
    var gone := DeleteWindow(st, job, cache, window, s, e);
    var st2 := Cycle(st, job, cache, names, s, e);
    CycleRenews(job, st, cache, s, e, n);
    StandingAt(job, st, n, c);
    if IsCreate(job, c, 0, n) {
      PlacedIn(job, st, s, e, n, c);
      if s <= c.iteration < e || !(Generated(job, c) && InBlocks(job, s, e, c.iteration)) {
        SameMark(job, st, st2, s, e, n, c);
      }
    }
    hide Cycle, DeleteWindow, Standing, Renewed, Survives, Surviving, AddAll, NamespacedJob, Names, WindowNames, Blocks;
    hide Generated, InBlocks, Matches, ValidJob, Served;
    SurvivingAt(job, st2.flags, AddAll(gone.live, Created(job, s, e), gone.runid), gone.runid, c);
    AddAllAt(gone.live, Created(job, s, e), gone.runid, c);
  }

  lemma PlacedIn(job: Job, st: State, s: nat, e: nat, n: nat, c: Create)
    requires NamespacedJob(job) && Standing(job, st, n) && s <= e <= Blocks(job, n) && IsCreate(job, c, 0, n)
    ensures c.ns in WindowNames(Names(job.namespace, Blocks(job, n)), s, e)
       <==> Generated(job, c) && InBlocks(job, s, e, c.iteration)
  {
    hide FirstNames, Blocks;
    PlacedInWindow(job, st, s, e, n, c);
  }

  /** When a cycle conserves the workload, for any number of iterations per namespace: it
      keeps the live objects if and only if none is deleted with its namespace without
      its iteration being made again, and the namespaces if and only if each holds one
      iteration, the window is empty, or it is the first namespace alone. */
  lemma CycleConservesIff(job: Job, st: State, cache: set<Create>, s: nat, e: nat, n: nat)
    requires NamespacedJob(job) && Standing(job, st, n) && s <= e <= Blocks(job, n)
    ensures
      var st2 := Cycle(st, job, cache, Names(job.namespace, Blocks(job, n)), s, e);
      && (st2.live == st.live <==> forall c :: !Lost(job, st.flags, s, e, n, c))
      && (st2.owned == st.owned <==> job.iterationsPerNamespace == 1 || s == e || (s == 0 && e == 1))
  {
    hide Cycle, Standing, NamespacesRequired, Lost, Names, Blocks;
    CycleRenews(job, st, cache, s, e, n);
    RenewedOwnedIff(job, st, Cycle(st, job, cache, Names(job.namespace, Blocks(job, n)), s, e), s, e, n);
    CycleLiveIff(job, st, cache, s, e, n);
  }

  lemma RenewedOwnedIff(job: Job, st: State, st2: State, s: nat, e: nat, n: nat)
    requires NamespacedJob(job) && s <= e <= Blocks(job, n) && Renewed(job, st, st2, s, e, n)
    ensures st2.owned == st.owned <==> job.iterationsPerNamespace == 1 || s == e || (s == 0 && e == 1)
  {
    RecreatedIff(job, s, e, Blocks(job, n));
    hide Needed, WindowNames, Names, Blocks, NamespacesRequired;
  }

  lemma CycleLiveIff(job: Job, st: State, cache: set<Create>, s: nat, e: nat, n: nat)
    requires NamespacedJob(job) && Standing(job, st, n) && s <= e <= Blocks(job, n)
    ensures
      var st2 := Cycle(st, job, cache, Names(job.namespace, Blocks(job, n)), s, e);
      st2.live == st.live <==> forall c :: !Lost(job, st.flags, s, e, n, c)
  {
    hide Cycle, Standing, NamespacesRequired, Names, Blocks, Survives, Matches, Generated, InBlocks;
    var st2 := Cycle(st, job, cache, Names(job.namespace, Blocks(job, n)), s, e);
    forall c
      ensures c in st2.live <==> c in st.live && !Lost(job, st.flags, s, e, n, c)
      ensures c in st2.live && c in st.live ==> st2.live[c] == st.live[c]
      ensures Lost(job, st.flags, s, e, n, c) ==> c in st.live
    {
      CycleAt(job, st, cache, s, e, n, c);
      StandingAt(job, st, n, c);
    }
    hide Lost;
    if forall c :: !Lost(job, st.flags, s, e, n, c) {
      assert st2.live == st.live;
    }
  }

  /** Churning the first namespace alone re-creates it and, when namespaces hold several
      iterations, still loses every uncollected object of iteration 1 in it. */
  lemma FirstWindowLoses(job: Job, st: State, cache: set<Create>, n: nat, c: Create)
    requires NamespacedJob(job) && Standing(job, st, n) && n >= 2 && job.iterationsPerNamespace >= 2
    ensures 1 <= Blocks(job, n)
    ensures c in st.live && c.iteration == 1 && Generated(job, c) ==>
      c !in Cycle(st, job, cache, Names(job.namespace, Blocks(job, n)), 0, 1).live
  {
    BelowCeil(n, job.iterationsPerNamespace, 0);
    DivMod(1, job.iterationsPerNamespace, 0, 1);
    hide Cycle, Survives, NamespacesRequired, Names;
    StandingAt(job, st, n, c);
    hide Standing;
    CycleAt(job, st, cache, 0, 1, n, c);
  }

  /** One namespaced template and two iterations in one namespace: the cycle over that
      namespace loses the object of iteration 1. */
  lemma LossCase() returns (job: Job, st: State, c: Create)
    ensures NamespacedJob(job) && job.iterationsPerNamespace == 2 && Blocks(job, 2) == 1
    ensures Standing(job, st, 2) && c in st.live && c.iteration == 1
    ensures c !in Cycle(st, job, st.live.Keys, Names(job.namespace, 1), 0, 1).live
  {
    var o := Object(0, 0, false, 1, false, 1, true, "", true);
    job := Job("ns", true, 2, false, [o]);
    var clean := State(map[], {}, {}, map[], "u", "r", 2, [], []);
    assert job.objects[0] == o;
    assert Blocks(job, 2) == 1;
    FirstRunStands(job, clean, 2);
    st := RunCreate(clean, job, 0, 2);
    hide RunCreate, Standing, Cycle, Names;
    c := Create(0, 1, 1, IterationNamespace(job, 1));
    StandingAt(job, st, 2, c);
    FirstWindowLoses(job, st, st.live.Keys, 2, c);
  }

  /** With one iteration per namespace churn conserves the workload: whatever window is
      drawn, the namespaces, their marks and the live objects after a cycle are those
      before. */
  lemma CycleConserves(job: Job, st: State, cache: set<Create>, s: nat, e: nat, n: nat)
    requires ChurnJob(job) && Standing(job, st, n) && s <= e <= n
    ensures
      var st2 := Cycle(st, job, cache, Names(job.namespace, n), s, e);
      && Standing(job, st2, n)
      && st2.owned == st.owned && st2.live == st.live
      && st2.foreign == st.foreign && st2.runid == st.runid
  {
    var st2 := Cycle(st, job, cache, Names(job.namespace, n), s, e);
    CycleRenews(job, st, cache, s, e, n);
    CycleConservesIff(job, st, cache, s, e, n);
    forall c ensures !Lost(job, st.flags, s, e, n, c) {
      DivMod(c.iteration, 1, c.iteration, 0);
      hide Survives, IsCreate;
    }
    hide Cycle, Lost, NamespacesRequired, DeleteWindow, Names, WindowNames, Needed;
    StillStanding(job, st, st2, n);
  }

  lemma StillStanding(job: Job, st: State, st2: State, n: nat)
    requires ValidJob(job) && Standing(job, st, n)
    requires st2.owned == st.owned && st2.foreign == st.foreign && st2.live == st.live && st2.runid == st.runid
    requires forall ns :: Flagged(st2, ns) <==> ns in st2.owned
    ensures Standing(job, st2, n)
  {
    hide ValidJob, FirstNames, AddAll, Blocks;
    forall c ensures Survives(job, st.flags, c) <==> Survives(job, st2.flags, c) {
      assert Flagged(st, c.ns) <==> Flagged(st2, c.ns);
      SameFlagSameFate(job, st.flags, st2.flags, c);
    }
    hide Survives;
    var all := AddAll(map[], Created(job, 0, n), st.runid);
    assert Surviving(job, st.flags, all, st.runid) == Surviving(job, st2.flags, all, st.runid);
  }

  /** Every window is a slice of a list of that length. */
  ghost predicate Fit(windows: seq<(nat, nat)>, listed: nat) {
    forall k :: 0 <= k < |windows| ==> windows[k].0 <= windows[k].1 <= listed
  }

  /** The windows are the ones the draws select. */
  ghost predicate Drawn(windows: seq<(nat, nat)>, percent: int, listed: nat, repeat: int, draws: nat -> nat)
    requires repeat >= 1
  {
    forall k :: 0 <= k < |windows| ==>
      && windows[k].0 == RandStart(percent, listed, repeat, draws(k))
      && windows[k].1 == windows[k].0 + NumToChurn(percent, listed, repeat)
  }

  lemma NoneDrawn(percent: int, listed: nat, repeat: int, draws: nat -> nat)
    requires repeat >= 1
    ensures Fit([], listed) && Drawn([], percent, listed, repeat, draws)
  {
  }

  lemma DrawnMore(windows: seq<(nat, nat)>, percent: int, listed: nat, repeat: int, draws: nat -> nat, w: (nat, nat))
    requires repeat >= 1 && Drawn(windows, percent, listed, repeat, draws) && Fit(windows, listed)
    requires w.0 == RandStart(percent, listed, repeat, draws(|windows|))
    requires w.1 == w.0 + NumToChurn(percent, listed, repeat) && w.0 <= w.1 <= listed
    ensures Drawn(windows + [w], percent, listed, repeat, draws) && Fit(windows + [w], listed)
  {
    hide RandStart, NumToChurn;
  }

  /** Any sequence of windows, cycle after cycle. */
  ghost function Cycles(st: State, job: Job, cache: set<Create>, names: seq<string>, windows: seq<(nat, nat)>): State
    requires ValidJob(job) && Fit(windows, |names|)
  {
    if windows == [] then st
    else
      var last := windows[|windows| - 1];
      Cycle(Cycles(st, job, cache, names, windows[..|windows| - 1]), job, cache, names, last.0, last.1)
  }

  lemma CyclesMore(st: State, job: Job, cache: set<Create>, names: seq<string>, windows: seq<(nat, nat)>, w: (nat, nat))
    requires ValidJob(job) && Fit(windows, |names|) && Fit(windows + [w], |names|) && w.0 <= w.1 <= |names|
    ensures Cycles(st, job, cache, names, windows + [w])
         == Cycle(Cycles(st, job, cache, names, windows), job, cache, names, w.0, w.1)
  {
    hide Cycle, Fit, ValidJob;
    assert (windows + [w])[..|windows|] == windows;
  }

  /** Any number of churn cycles, whatever the windows drawn, leaves the workload as
      it found it. */
  lemma {:induction false} ChurnConserves(job: Job, st: State, cache: set<Create>, n: nat, windows: seq<(nat, nat)>)
    requires ChurnJob(job) && Standing(job, st, n) && Fit(windows, n)
    ensures
      var st2 := Cycles(st, job, cache, Names(job.namespace, n), windows);
      && Standing(job, st2, n)
      && st2.owned == st.owned && st2.live == st.live
      && st2.foreign == st.foreign && st2.runid == st.runid
    decreases |windows|
  {
    if windows != [] {
      hide Standing, ChurnJob, Cycle, Names, ValidJob;
      var last := windows[|windows| - 1];
      var before := Cycles(st, job, cache, Names(job.namespace, n), windows[..|windows| - 1]);
      ChurnConserves(job, st, cache, n, windows[..|windows| - 1]);
      CycleConserves(job, before, cache, last.0, last.1, n);
    }
  }

  /** A cycle is not idle: it deletes every live object of the window's iterations
      but those in namespaces fixed by their template, and no other. */
  lemma CycleDeletes(job: Job, st: State, s: nat, e: nat, n: nat, c: Create)
    requires ChurnJob(job) && ScopeByResource(job) && Standing(job, st, n) && s <= e <= n
    requires ClusterScopeUnplaced(job)
    ensures
      var gone := DeleteWindow(st, job, st.live.Keys, WindowNames(Names(job.namespace, n), s, e), s, e);
      c in st.live ==>
        (c !in gone.live <==>
           s <= c.iteration < e && c.index < |job.objects| && job.objects[c.index].fixedNamespace == "")
  {
    DeletedInWindow(job, st, st.live.Keys, s, e, n, c);
    StandingAt(job, st, n, c);
    hide DeleteWindow, Survives, NamespacesRequired, Served, WindowNames, Names;
    if c in st.live {
      var o := job.objects[c.index];
      if o.fixedNamespace != "" {
        FixedStays(job, st, s, e, n, c);
      } else if s <= c.iteration < e {
        hide Standing;
        WindowReaches(job, s, e, n, c);
      }
    }
  }

  /** A create of the window is in one of its namespaces or served by the cluster scope. */
  lemma WindowReaches(job: Job, s: nat, e: nat, n: nat, c: Create)
    requires ChurnJob(job) && s <= e <= n && Matches(job, c) && s <= c.iteration < e
    requires job.objects[c.index].fixedNamespace == ""
    ensures if job.objects[c.index].namespaced then c.ns in WindowNames(Names(job.namespace, n), s, e)
            else Served(job, c)
  {
    var names := Names(job.namespace, n);
    DivMod(c.iteration, 1, c.iteration, 0);
    if job.objects[c.index].namespaced {
      assert NamespacesRequired(job);
      assert c.ns == names[c.iteration] == names[s..e][c.iteration - s];
    } else {
      FiresDivides(job.objects[c.index], c.iteration);
    }
  }

  /** A cluster-scoped template names no namespace. */
  ghost predicate ClusterScopeUnplaced(job: Job) {
    forall k :: 0 <= k < |job.objects| && !job.objects[k].namespaced ==> job.objects[k].fixedNamespace == ""
  }

  lemma FiresDivides(o: Object, i: nat)
    requires o.repeatEvery >= 1 && Fires(o, i)
    ensures i % o.repeatEvery == 0
  {
    DivMod(0, o.repeatEvery, 0, 0);
    DivMod(i, 1, i, 0);
  }

  lemma FixedStays(job: Job, st: State, s: nat, e: nat, n: nat, c: Create)
    requires ChurnJob(job) && ScopeByResource(job) && s <= e <= n && IsCreate(job, c, 0, n)
    requires FixedExist(job, st) && FirstNames(job, n) !! st.foreign
    requires job.objects[c.index].fixedNamespace != "" && job.objects[c.index].namespaced
    ensures c.ns !in WindowNames(Names(job.namespace, n), s, e) && !Served(job, c)
  {
    hide NamespacesRequired, Names;
    assert c.ns in st.foreign;
    assert forall ns :: ns in WindowNames(Names(job.namespace, n), s, e) ==> ns in FirstNames(job, n);
  }

  /** The job's drawn windows are aligned to the interval of every template with one. */
  lemma DrawnAligned(job: Job, percent: int, draw: nat, n: nat, k: nat)
    requires UniformRepeat(job) && k < |job.objects| && job.objects[k].repeatEvery > 1
    ensures
      var repeat := FirstRepeat(job, |job.objects|);
      && repeat == job.objects[k].repeatEvery
      && var s, num := RandStart(percent, n, repeat, draw), NumToChurn(percent, n, repeat);
         0 <= s && 0 <= num && s + num <= n && s % repeat == 0 && (s + num) % repeat == 0
  {
    var repeat := job.objects[k].repeatEvery;
    FirstIsLargest(job, |job.objects|);
    AlignedWindow(percent, n, repeat, draw);
    AddAligned(RandStart(percent, n, repeat, draw), NumToChurn(percent, n, repeat), repeat);
    hide RandStart, NumToChurn;
  }

  /** A cycle deletes a shared cluster-scoped object exactly when all the iterations it
      serves are churned, and keeps it exactly when none is. */
  lemma SharedDeletedIff(job: Job, st: State, percent: int, draw: nat, n: nat, c: Create, s: nat, e: nat)
    requires ChurnJob(job) && UniformRepeat(job) && ScopeByResource(job) && ClusterScopeUnplaced(job)
    requires Standing(job, st, n) && s <= e <= n
    ensures
      var repeat := FirstRepeat(job, |job.objects|);
      var gone := DeleteWindow(st, job, st.live.Keys, WindowNames(Names(job.namespace, n), s, e), s, e);
      Shared(job, st, c) && s == RandStart(percent, n, repeat, draw) && e == s + NumToChurn(percent, n, repeat) ==>
        && repeat == job.objects[c.index].repeatEvery
        && (c !in gone.live <==> AllChurned(s, e, c.iteration, repeat))
        && (c in gone.live <==> NoneChurned(s, e, c.iteration, repeat))
  {
    hide RandStart, NumToChurn, DeleteWindow, Standing, Survives, Fires, Names, WindowNames, FirstRepeat;
    hide NamespacesRequired, UniformRepeat, AllChurned, NoneChurned;
    var repeat := FirstRepeat(job, |job.objects|);
    if Shared(job, st, c) && s == RandStart(percent, n, repeat, draw) && e == s + NumToChurn(percent, n, repeat) {
      DrawnAligned(job, percent, draw, n, c.index);
      StandingAt(job, st, n, c);
      FiresDivides(job.objects[c.index], c.iteration);
      SharedClosure(s, e, repeat, c.iteration);
      CycleDeletes(job, st, s, e, n, c);
    }
  }

  /** c is a live cluster-scoped object that serves several iterations. */
  ghost predicate Shared(job: Job, st: State, c: Create) {
    && c in st.live && c.index < |job.objects|
    && !job.objects[c.index].namespaced && job.objects[c.index].repeatEvery > 1
  }

  // ----- The cache over whole histories -----

  /** The operations of a job that touch its namespaces. */
  datatype Operation =
    | CreateOver(start: nat, end: nat)
    | ChurnWindow(cache: set<Create>, window: set<string>, s: nat, e: nat)
    | GarbageCollect

  function Perform(st: State, job: Job, op: Operation): State
    requires ValidJob(job)
  {
    match op
    case CreateOver(start, end) => RunCreate(st, job, start, end)
    case ChurnWindow(cache, window, s, e) => RunCreate(DeleteWindow(st, job, cache, window, s, e), job, s, e)
    case GarbageCollect => Collect(st, job)
  }

  function History(st: State, job: Job, ops: seq<Operation>): State
    requires ValidJob(job)
  {
    if ops == [] then st else Perform(History(st, job, ops[..|ops| - 1]), job, ops[|ops| - 1])
  }

  lemma CreateFaithful(st: State, ns: string)
    requires Faithful(st)
    ensures Faithful(CreateNamespace(st, ns))
  {
    var st2 := CreateNamespace(st, ns);
    forall x | Flagged(st2, x) ensures Exists(st2, x) {
      assert Flagged(st, x) || x == ns;
    }
  }

  lemma SameNamespacesFaithful(st: State, st2: State)
    requires Faithful(st) && st2.flags == st.flags && st2.owned == st.owned && st2.foreign == st.foreign
    ensures Faithful(st2)
  {
    forall ns | Flagged(st2, ns) ensures Exists(st2, ns) {
      assert Flagged(st, ns);
    }
  }

  lemma {:induction false} RangeFaithful(st: State, job: Job, start: nat, end: nat)
    requires ValidJob(job) && Faithful(st)
    ensures Faithful(CreateRange(st, job, start, end))
    decreases end
  {
    hide Faithful, CreateNamespace, GenerateNamespace;
    if start < end {
      RangeFaithful(st, job, start, end - 1);
      CreateFaithful(CreateRange(st, job, start, end - 1), GenerateNamespace(job, end - 1));
    }
  }

  lemma PassFaithful(st: State, job: Job, i: nat)
    requires ValidJob(job) && Faithful(st)
    ensures Faithful(DefaultPass(st, job, i))
  {
    hide Faithful, CreateNamespace, GenerateNamespace, IterationCreates, AddAll, Landing, NamespacesRequired;
    CreateFaithful(st, GenerateNamespace(job, i));
    var ready := if NamespacesRequired(job) && job.namespacedIterations
                 then CreateNamespace(st, GenerateNamespace(job, i)) else st;
    SameNamespacesFaithful(ready, DefaultPass(st, job, i));
  }

  lemma {:induction false} LoopFaithful(st: State, job: Job, start: nat, end: nat)
    requires ValidJob(job) && Faithful(st)
    ensures Faithful(DefaultLoop(st, job, start, end))
    decreases end
  {
    hide Faithful, DefaultPass, ValidJob;
    if start < end {
      LoopFaithful(st, job, start, end - 1);
      PassFaithful(DefaultLoop(st, job, start, end - 1), job, end - 1);
    }
  }

  lemma {:induction false} GroupsFaithful(st: State, job: Job, nums: seq<int>, start: nat, end: nat)
    requires ValidJob(job) && Faithful(st)
    ensures Faithful(GroupLoop(st, job, nums, start, end))
    decreases |nums|
  {
    hide Faithful, ValidJob, RangeCreates, Kept, AddAll, Landing;
    if nums != [] {
      GroupsFaithful(st, job, nums[..|nums| - 1], start, end);
      SameNamespacesFaithful(GroupLoop(st, job, nums[..|nums| - 1], start, end), GroupLoop(st, job, nums, start, end));
    }
  }

  lemma PreCreateFaithful(st: State, job: Job, start: nat, end: nat)
    requires ValidJob(job) && Faithful(st)
    ensures Faithful(PreCreate(st, job, start, end)) && Faithful(DefaultStart(st, job, start, end))
  {
    hide Faithful, CreateRange, CreateNamespace, NamespacesRequired;
    RangeFaithful(st, job, start, end);
    CreateFaithful(st, job.namespace);
    CreateFaithful(PreCreate(st, job, start, end), job.namespace);
  }

  lemma RunFaithful(st: State, job: Job, start: nat, end: nat)
    requires ValidJob(job) && Faithful(st)
    ensures Faithful(RunCreate(st, job, start, end))
  {
    hide GroupLoop, DefaultLoop, PreCreate, DefaultStart, Faithful, NamespacesRequired, Grouped;
    PreCreateFaithful(st, job, start, end);
    var pre := if NamespacesRequired(job) then PreCreate(st, job, start, end) else st;
    GroupsFaithful(pre, job, Groups(job), start, end);
    LoopFaithful(DefaultStart(st, job, start, end), job, start, end);
  }

  /** createdNamespaces is a faithful cache: after any history of creation, churn
      and gc, a true entry means the namespace exists. */
  lemma {:induction false} CacheFaithful(st: State, job: Job, ops: seq<Operation>)
    requires ValidJob(job) && Faithful(st)
    ensures Faithful(History(st, job, ops))
    decreases |ops|
  {
    if ops != [] {
      hide RunCreate, ValidJob, Collect;
      var before := History(st, job, ops[..|ops| - 1]);
      CacheFaithful(st, job, ops[..|ops| - 1]);
      match ops[|ops| - 1]
      case CreateOver(start, end) => RunFaithful(before, job, start, end);
      case ChurnWindow(cache, window, s, e) =>
        WindowFaithful(before, job, cache, window, s, e);
        RunFaithful(DeleteWindow(before, job, cache, window, s, e), job, s, e);
      case GarbageCollect => CollectFaithful(before, job);
    }
  }

  lemma WindowFaithful(st: State, job: Job, cache: set<Create>, window: set<string>, s: nat, e: nat)
    requires ValidJob(job) && Faithful(st)
    ensures Faithful(DeleteWindow(st, job, cache, window, s, e))
  {
    var gone := DeleteWindow(st, job, cache, window, s, e);
    forall ns | Flagged(gone, ns) ensures Exists(gone, ns) {
      assert Flagged(st, ns);
    }
  }
}
