/** churnObjects: each cycle deletes the oldest objects of a template and creates them
    again. Its fairness over runs of any length. */
module ObjectChurn {
  import opened Arithmetic
  import opened Churn
  import opened Sequences

  /** The objects of one template with their creation timestamps. */
  type Stamps = map<nat, int>

  /** How many of n listed objects a cycle deletes. */
  function DeleteCount(percent: int, n: nat): (d: int)
    ensures 0 <= d <= n
    ensures n >= 1 ==> d >= 1
  {
    Min(Max(Share(percent, n), 0), n)
  }

  /** The percentage of the list rounded down, but at least one and at most all. */
  lemma DeleteSize(percent: int, n: nat)
    requires n >= 1
    ensures
      var d := DeleteCount(percent, n);
      && 1 <= d <= n && (d == n || percent * n < 100 * (d + 1))
      && (d == 1 || 100 * d <= percent * n)
  {
    ShareRoundsDown(percent, n);
  }

  /** batch is a possible head of the list sorted by timestamp; equal timestamps may
      come in any order. */
  ghost predicate Oldest(st: Stamps, batch: set<nat>) {
    && batch <= st.Keys
    && forall b, p :: b in batch && p in st.Keys - batch ==> st[b] <= st[p]
  }

  /** The batch is deleted and created again; what stayed keeps its timestamps. */
  ghost predicate Replaced(st: Stamps, batch: set<nat>, st2: Stamps) {
    && Oldest(st, batch)
    && st2.Keys == st.Keys
    && forall p :: p in st.Keys - batch ==> st2[p] == st[p]
  }

  /** One cycle in which what is created again is newer than what stayed. */
  ghost predicate Cycle(st: Stamps, batch: set<nat>, st2: Stamps) {
    && Replaced(st, batch, st2)
    && forall b, p :: b in batch && p in st.Keys - batch ==> st2[b] > st[p]
  }

  /** One cycle at clock value `now`: nothing is newer than the clock before it and
      nothing created in it is older. Kubernetes keeps whole seconds, so the clock may
      stand still and timestamps may tie. */
  ghost predicate ClockCycle(st: Stamps, batch: set<nat>, st2: Stamps, now: int) {
    && Replaced(st, batch, st2)
    && (forall p :: p in st ==> st[p] <= now)
    && forall b :: b in batch ==> st2[b] >= now
  }

  /** sts[k] is the list before cycle k, which takes batches[k], d objects each time. */
  ghost predicate Replacements(sts: seq<Stamps>, batches: seq<set<nat>>, d: nat) {
    && |sts| == |batches| + 1
    && forall k :: 0 <= k < |batches| ==> Replaced(sts[k], batches[k], sts[k + 1]) && |batches[k]| == d
  }

  ghost predicate IsRun(sts: seq<Stamps>, batches: seq<set<nat>>, d: nat) {
    && |sts| == |batches| + 1
    && forall k :: 0 <= k < |batches| ==> Cycle(sts[k], batches[k], sts[k + 1]) && |batches[k]| == d
  }

  /** A run whose clock reads clock[k] at cycle k and never goes back. */
  ghost predicate ClockRun(sts: seq<Stamps>, batches: seq<set<nat>>, clock: seq<int>, d: nat) {
    && |sts| == |batches| + 1 && |clock| == |batches|
    && (forall k :: 0 <= k < |batches| ==>
          ClockCycle(sts[k], batches[k], sts[k + 1], clock[k]) && |batches[k]| == d)
    && forall j, k :: 0 <= j <= k < |clock| ==> clock[j] <= clock[k]
  }

  lemma RunReplaces(sts: seq<Stamps>, batches: seq<set<nat>>, d: nat)
    requires IsRun(sts, batches, d)
    ensures Replacements(sts, batches, d)
  {
    hide Replaced;
  }

  /** The object set is conserved by every run. */
  lemma {:induction false} RunConserves(sts: seq<Stamps>, batches: seq<set<nat>>, d: nat, k: nat)
    requires Replacements(sts, batches, d) && k < |sts|
    ensures sts[k].Keys == sts[0].Keys
  {
    if k > 0 {
      RunConserves(sts, batches, d, k - 1);
      assert Replaced(sts[k - 1], batches[k - 1], sts[k]);
    }
  }

  // ----- At least once in ceil(n/d) cycles -----

  /** The objects that can be deleted before o. */
  ghost function NotNewer(st: Stamps, o: nat): set<nat>
    requires o in st
  {
    set p | p in st && p != o && st[p] <= st[o]
  }

  /** Cycle k spares o, and what it creates is newer than o. */
  ghost predicate LeftBehind(sts: seq<Stamps>, batches: seq<set<nat>>, o: nat, k: nat)
    requires |sts| == |batches| + 1 && k < |batches|
  {
    && o in sts[k] && o !in batches[k]
    && forall b :: b in batches[k] ==> b in sts[k + 1] && sts[k + 1][b] > sts[k][o]
  }

  lemma SpareShrinks(st: Stamps, batch: set<nat>, st2: Stamps, o: nat)
    requires Replaced(st, batch, st2) && o in st && o !in batch
    requires forall b :: b in batch ==> b in st2 && st2[b] > st[o]
    ensures |NotNewer(st2, o)| <= |NotNewer(st, o)| - |batch|
  {
    var before := NotNewer(st, o);
    assert batch <= before;
    assert NotNewer(st2, o) <= before - batch;
    Subset(NotNewer(st2, o), before - batch);
    assert |before - batch| == |before| - |batch| by { assert before == (before - batch) + batch; }
  }

  lemma {:induction false} Subset(a: set<nat>, b: set<nat>)
    requires a <= b
    ensures |a| <= |b|
  {
    assert b == a + (b - a);
  }

  lemma {:induction false} SparedCycles(sts: seq<Stamps>, batches: seq<set<nat>>, d: nat, o: nat, t: nat, m: nat)
    requires Replacements(sts, batches, d) && t + m <= |batches| && o in sts[0]
    requires forall k :: t <= k < t + m ==> LeftBehind(sts, batches, o, k)
    ensures o in sts[t] && o in sts[t + m]
    ensures |NotNewer(sts[t + m], o)| <= |NotNewer(sts[t], o)| - m * d
    decreases m
  {
    RunConserves(sts, batches, d, t);
    RunConserves(sts, batches, d, t + m);
    if m > 0 {
      SparedCycles(sts, batches, d, o, t, m - 1);
      var k := t + m - 1;
      assert LeftBehind(sts, batches, o, k) && Replaced(sts[k], batches[k], sts[k + 1]);
      SpareShrinks(sts[k], batches[k], sts[k + 1], o);
      assert (m - 1) * d + d == m * d;
    }
  }

  lemma SparedAtMost(sts: seq<Stamps>, batches: seq<set<nat>>, d: nat, o: nat, t: nat, m: nat)
    requires Replacements(sts, batches, d) && t + m <= |batches| && o in sts[0]
    requires forall k :: t <= k < t + m ==> LeftBehind(sts, batches, o, k)
    ensures d * m < |sts[0]|
  {
    SparedCycles(sts, batches, d, o, t, m);
    RunConserves(sts, batches, d, t);
    assert NotNewer(sts[t], o) <= sts[t].Keys - {o};
    Subset(NotNewer(sts[t], o), sts[t].Keys - {o});
    assert d * m == m * d;
  }

  /** Fairness, lower bound: in any ceil(n/d) consecutive cycles every object is
      churned, whatever the order inside the recreated batches. */
  lemma ChurnedAtLeastOnce(sts: seq<Stamps>, batches: seq<set<nat>>, d: nat, o: nat, t: nat)
    requires IsRun(sts, batches, d) && d >= 1 && o in sts[0]
    requires CeilDiv(|sts[0]|, d) >= 0 && t + CeilDiv(|sts[0]|, d) <= |batches|
    ensures exists k :: t <= k < t + CeilDiv(|sts[0]|, d) && o in batches[k]
  {
    var m := CeilDiv(|sts[0]|, d);
    BelowCeil(|sts[0]|, d, m);
    RunReplaces(sts, batches, d);
    if forall k :: t <= k < t + m ==> o !in batches[k] {
      forall k | t <= k < t + m ensures LeftBehind(sts, batches, o, k) {
        RunConserves(sts, batches, d, k);
        assert Cycle(sts[k], batches[k], sts[k + 1]);
      }
      hide Cycle, Replaced, LeftBehind, IsRun;
      SparedAtMost(sts, batches, d, o, t, m);
      assert false;
    }
  }

  // ----- With a clock of whole seconds -----

  lemma {:induction false} SparedStamp(sts: seq<Stamps>, batches: seq<set<nat>>, d: nat, o: nat, t: nat, m: nat)
    requires Replacements(sts, batches, d) && t + m <= |batches| && o in sts[t]
    requires forall k :: t <= k < t + m ==> o !in batches[k]
    ensures o in sts[t + m] && sts[t + m][o] == sts[t][o]
    decreases m
  {
    if m > 0 {
      SparedStamp(sts, batches, d, o, t, m - 1);
      var k := t + m - 1;
      assert Replaced(sts[k], batches[k], sts[k + 1]);
    }
  }

  /** An object that has not been churned by the time the clock has passed its own
      timestamp, at cycle s, is churned within the ceil(n/d) cycles from s. */
  lemma TiedWait(sts: seq<Stamps>, batches: seq<set<nat>>, clock: seq<int>, d: nat, o: nat, t: nat, s: nat)
    requires ClockRun(sts, batches, clock, d) && d >= 1 && t <= s < |batches| && o in sts[0]
    requires CeilDiv(|sts[0]|, d) >= 0 && s + CeilDiv(|sts[0]|, d) <= |batches|
    requires o in sts[t] && sts[t][o] < clock[s]
    ensures exists k :: t <= k < s + CeilDiv(|sts[0]|, d) && o in batches[k]
  {
    var m := CeilDiv(|sts[0]|, d);
    BelowCeil(|sts[0]|, d, m);
    if forall k :: t <= k < s + m ==> o !in batches[k] {
      forall k | s <= k < s + m ensures LeftBehind(sts, batches, o, k) {
        SparedStamp(sts, batches, d, o, t, k - t);
        assert ClockCycle(sts[k], batches[k], sts[k + 1], clock[k]);
      }
      hide ClockCycle, Replaced, LeftBehind, ClockRun;
      SparedAtMost(sts, batches, d, o, s, m);
      assert false;
    }
  }

  /** A run of m cycles over n objects that never takes o, and whose clock is past o's
      timestamp from cycle w on. */
  ghost predicate Starving(sts: seq<Stamps>, batches: seq<set<nat>>, clock: seq<int>,
                           n: nat, d: nat, w: nat, m: nat, o: nat) {
    && ClockRun(sts, batches, clock, d) && |batches| == m
    && |sts[0]| == n && o in sts[0]
    && (forall k :: w <= k < m ==> sts[0][o] < clock[k])
    && forall k :: 0 <= k < m ==> o !in batches[k]
  }

  /** How long an object can be passed over, exactly: a run of m >= 1 cycles can leave
      one out if and only if a cycle does not take them all and m is less than the number
      of cycles inside the object's own second plus ceil(n/d). */
  lemma StarvationIff(n: nat, d: nat, w: nat, m: nat)
    requires 1 <= d <= n && m >= 1
    ensures (exists sts, batches, clock, o :: Starving(sts, batches, clock, n, d, w, m, o))
       <==> d < n && m < w + CeilDiv(n, d)
  {
    BelowCeil(n, d, 0);
    if sts, batches, clock, o :| Starving(sts, batches, clock, n, d, w, m, o) {
      assert ClockCycle(sts[0], batches[0], sts[1], clock[0]) && |batches[0]| == d;
      if d == n {
        WholeBatch(sts[0], batches[0]);
        assert false;
      }
      if m >= w + CeilDiv(n, d) {
        TiedWait(sts, batches, clock, d, o, 0, w);
        assert false;
      }
    }
    if d < n && m < w + CeilDiv(n, d) {
      hide Starving;
      StarvingRun(n, d, w, m);
    }
  }

  lemma WholeBatch(st: Stamps, batch: set<nat>)
    requires batch <= st.Keys && |batch| == |st|
    ensures batch == st.Keys
  {
    assert st.Keys == batch + (st.Keys - batch);
    assert |st.Keys| == |batch| + |st.Keys - batch|;
  }

  /** k * d, as the sum it is. */
  function Times(k: nat, d: nat): nat { if k == 0 then 0 else Times(k - 1, d) + d }

  lemma {:induction false} TimesIs(k: nat, d: nat)
    ensures Times(k, d) == d * k
  {
    if k > 0 {
      TimesIs(k - 1, d);
      Distribute(d, k, 1);
    }
  }

  /** n objects of which the first `taken` were created again in second 1 and the others
      are of second 0. */
  ghost function StampsAfter(n: nat, taken: nat): Stamps {
    map p | p in Range(0, n) :: if p < taken then 1 else 0
  }

  /** A cycle in second 0 takes the first d objects and ties them again. */
  lemma EarlyCycle(n: nat, d: nat)
    requires d < n
    ensures ClockCycle(StampsAfter(n, 0), Range(0, d), StampsAfter(n, 0), 0)
  {
  }

  /** A cycle in second 1 takes the next d objects of second 0. */
  lemma LateCycle(n: nat, d: nat, taken: nat)
    requires taken + d < n
    ensures ClockCycle(StampsAfter(n, taken), Range(taken, taken + d), StampsAfter(n, taken + d), 1)
  {
  }

  /** The starving run before cycle k: the first w cycles happen in second 0. */
  ghost function StampsAt(n: nat, d: nat, w: nat, k: nat): Stamps {
    StampsAfter(n, if k < w then 0 else Times(k - w, d))
  }

  ghost function BatchAt(d: nat, w: nat, k: nat): set<nat> {
    if k < w then Range(0, d) else Range(Times(k - w, d), Times(k - w, d) + d)
  }

  ghost function ClockAt(w: nat, k: nat): int { if k < w then 0 else 1 }

  lemma StarvingCycle(n: nat, d: nat, w: nat, k: nat)
    requires 1 <= d < n && (k >= w ==> Times(k - w + 1, d) < n)
    ensures ClockCycle(StampsAt(n, d, w, k), BatchAt(d, w, k), StampsAt(n, d, w, k + 1), ClockAt(w, k))
    ensures |BatchAt(d, w, k)| == d && n - 1 !in BatchAt(d, w, k)
  {
    hide ClockCycle, StampsAfter;
    if k < w {
      EarlyCycle(n, d);
    } else {
      LateCycle(n, d, Times(k - w, d));
    }
  }

  lemma StarvingCycles(n: nat, d: nat, w: nat, m: nat, k: nat)
    requires 1 <= d < n && k < m < w + CeilDiv(n, d)
    ensures ClockCycle(StampsAt(n, d, w, k), BatchAt(d, w, k), StampsAt(n, d, w, k + 1), ClockAt(w, k))
    ensures |BatchAt(d, w, k)| == d && n - 1 !in BatchAt(d, w, k)
  {
    if k >= w {
      BelowCeil(n, d, m - w);
      MulMonotone(d, k - w + 1, m - w);
      TimesIs(k - w + 1, d);
    }
    hide ClockCycle, StampsAt, BatchAt, ClockAt, CeilDiv, Times;
    StarvingCycle(n, d, w, k);
  }

  ghost function StampsList(n: nat, d: nat, w: nat, m: nat): (sts: seq<Stamps>)
    ensures |sts| == m + 1 && forall k :: 0 <= k <= m ==> sts[k] == StampsAt(n, d, w, k)
  {
    seq(m + 1, (k: nat) => StampsAt(n, d, w, k))
  }

  ghost function BatchList(d: nat, w: nat, m: nat): (batches: seq<set<nat>>)
    ensures |batches| == m && forall k :: 0 <= k < m ==> batches[k] == BatchAt(d, w, k)
  {
    seq(m, (k: nat) => BatchAt(d, w, k))
  }

  ghost function ClockList(w: nat, m: nat): (clock: seq<int>)
    ensures |clock| == m && forall k :: 0 <= k < m ==> clock[k] == ClockAt(w, k)
  {
    seq(m, (k: nat) => ClockAt(w, k))
  }

  lemma StarvingRun(n: nat, d: nat, w: nat, m: nat)
    requires 1 <= d < n && m >= 1 && m < w + CeilDiv(n, d)
    ensures exists sts, batches, clock, o :: Starving(sts, batches, clock, n, d, w, m, o)
  {
    var sts, batches, clock := StampsList(n, d, w, m), BatchList(d, w, m), ClockList(w, m);
    StartOfRun(n, d, w);
    hide StampsList, BatchList, ClockList, ClockCycle, BatchAt, StampsAt, CeilDiv;
    forall k | 0 <= k < m
      ensures ClockCycle(sts[k], batches[k], sts[k + 1], clock[k]) && |batches[k]| == d && n - 1 !in batches[k]
    {
      StarvingCycles(n, d, w, m, k);
    }
    assert Starving(sts, batches, clock, n, d, w, m, n - 1);
  }

  lemma StartOfRun(n: nat, d: nat, w: nat)
    requires n >= 1
    ensures var first := StampsAt(n, d, w, 0); |first| == n && n - 1 in first && first[n - 1] == 0
  {
    var first := StampsAt(n, d, w, 0);
    assert first.Keys == Range(0, n);
  }

  // ----- At most once in floor(n/d) cycles -----

  /** The objects that must be deleted before o. */
  ghost function Older(st: Stamps, o: nat): set<nat>
    requires o in st
  {
    set p | p in st && st[p] < st[o]
  }

  lemma FreshlyChurned(st: Stamps, batch: set<nat>, st2: Stamps, o: nat)
    requires Cycle(st, batch, st2) && o in batch
    ensures |Older(st2, o)| >= |st| - |batch|
  {
    var stayed := st.Keys - batch;
    assert stayed <= Older(st2, o);
    Subset(stayed, Older(st2, o));
    assert st.Keys == stayed + batch;
  }

  lemma OlderShrinksSlowly(st: Stamps, batch: set<nat>, st2: Stamps, o: nat)
    requires Cycle(st, batch, st2) && o in st && o !in batch
    ensures |Older(st2, o)| >= |Older(st, o)| - |batch|
  {
    var before := Older(st, o);
    assert before - batch <= Older(st2, o);
    Subset(before - batch, Older(st2, o));
    var both := before * batch;
    assert before == (before - batch) + both;
    Subset(both, batch);
  }

  lemma TakenWithOlder(st: Stamps, batch: set<nat>, st2: Stamps, o: nat)
    requires Cycle(st, batch, st2) && o in batch
    ensures |Older(st, o)| < |batch|
  {
    assert Older(st, o) <= batch - {o};
    Subset(Older(st, o), batch - {o});
  }

  lemma {:induction false} WaitingCycles(sts: seq<Stamps>, batches: seq<set<nat>>, d: nat, o: nat, t: nat, m: nat)
    requires IsRun(sts, batches, d) && t + 1 + m <= |batches| && o in batches[t]
    requires forall k :: t < k <= t + m ==> o !in batches[k]
    ensures o in sts[t + 1 + m]
    ensures |Older(sts[t + 1 + m], o)| + Times(m + 1, d) >= |sts[0]|
    decreases m
  {
    RunReplaces(sts, batches, d);
    RunConserves(sts, batches, d, t);
    RunConserves(sts, batches, d, t + 1 + m);
    assert Cycle(sts[t], batches[t], sts[t + 1]) && |batches[t]| == d;
    if m == 0 {
      hide Cycle, Older, IsRun;
      FreshlyChurned(sts[t], batches[t], sts[t + 1], o);
    } else {
      WaitingCycles(sts, batches, d, o, t, m - 1);
      var k := t + m;
      assert Cycle(sts[k], batches[k], sts[k + 1]) && |batches[k]| == d;
      hide Cycle, Older, IsRun;
      OlderShrinksSlowly(sts[k], batches[k], sts[k + 1], o);
    }
  }

  lemma FloorBelow(n: nat, d: nat, x: nat)
    requires d >= 1 && n < d * (x + 1)
    ensures n / d <= x
  {
    if n / d >= x + 1 {
      MulMonotone(d, x + 1, n / d);
    }
  }

  lemma NextChurn(sts: seq<Stamps>, batches: seq<set<nat>>, d: nat, o: nat, k1: nat, k2: nat)
    requires IsRun(sts, batches, d) && k1 < k2 < |batches| && o in batches[k1] && o in batches[k2]
    requires forall k :: k1 < k < k2 ==> o !in batches[k]
    ensures |sts[0]| < d * (k2 - k1 + 1)
  {
    WaitingCycles(sts, batches, d, o, k1, k2 - k1 - 1);
    assert Cycle(sts[k2], batches[k2], sts[k2 + 1]) && |batches[k2]| == d;
    hide Cycle, IsRun, Older;
    TakenWithOlder(sts[k2], batches[k2], sts[k2 + 1], o);
    TimesIs(k2 - k1 + 1, d);
  }

  /** Fairness, upper bound: between two cycles that churn the same object lie at
      least floor(n/d) - 1 others, so any floor(n/d) consecutive cycles churn it at
      most once. */
  lemma {:induction false} ChurnedAtMostOnce(sts: seq<Stamps>, batches: seq<set<nat>>, d: nat, o: nat, k1: nat, k2: nat)
    requires IsRun(sts, batches, d) && d >= 1
    requires k1 < k2 < |batches| && o in batches[k1] && o in batches[k2]
    ensures k2 - k1 >= |sts[0]| / d
    decreases k2
  {
    hide Cycle;
    if k :| k1 < k < k2 && o in batches[k] {
      ChurnedAtMostOnce(sts, batches, d, o, k1, k);
    } else {
      NextChurn(sts, batches, d, o, k1, k2);
      FloorBelow(|sts[0]|, d, k2 - k1);
    }
  }

  // ----- The loop -----

  ghost predicate SortedByStamp(list: seq<nat>, st: Stamps) {
    && (forall k :: 0 <= k < |list| ==> list[k] in st)
    && forall j, k :: 0 <= j < k < |list| ==> st[list[j]] <= st[list[k]] && list[j] != list[k]
  }

  /** Where the sort puts one more object; ties fall as they come. */
  function InsertByStamp(list: seq<nat>, x: nat, st: Stamps): (r: seq<nat>)
    requires SortedByStamp(list, st) && x in st && x !in list
    ensures SortedByStamp(r, st)
    ensures forall y :: y in r <==> y == x || y in list
    ensures |r| == |list| + 1
  {
    if list == [] || st[list[|list| - 1]] <= st[x] then list + [x]
    else
      var rest, last := list[..|list| - 1], list[|list| - 1];
      assert list == rest + [last];
      var r := InsertByStamp(rest, x, st);
      assert forall k :: 0 <= k < |r| ==> r[k] in r;
      r + [last]
  }

  /** What a cycle does to one template: nothing unless it is churned. */
  ghost predicate TemplateCycle(churned: bool, percent: int, st: Stamps, batch: set<nat>, st2: Stamps, now: int) {
    if churned then ClockCycle(st, batch, st2, now) && |batch| == DeleteCount(percent, |st|)
    else batch == {} && st2 == st
  }

  /** The batch that a cycle deletes of a template. */
  ghost predicate Chosen(churned: bool, percent: int, st: Stamps, batch: set<nat>) {
    if churned then Oldest(st, batch) && |batch| == DeleteCount(percent, |st|) else batch == {}
  }

  /** The objects of batch are created again. */
  function Stamped(st: Stamps, batch: set<nat>, restamp: (nat, nat) -> int, k: nat): Stamps {
    st + map b | b in batch :: restamp(k, b)
  }

  /** The churned part of the executor: the live objects of each template, and which
      templates are churned. */
  class ObjectChurner {
    const churned: seq<bool>
    var lists: seq<Stamps>

    /** The listing of a template sorted by creation timestamp. */
    method ListOldestFirst(k: nat) returns (list: seq<nat>)
      requires k < |lists|
      ensures SortedByStamp(list, lists[k]) && forall x :: x in list <==> x in lists[k]
      ensures |list| == |lists[k]|
    {
      list := [];
      var stamps := lists[k];
      var pending := stamps.Keys;
      while pending != {}
        invariant pending <= stamps.Keys && SortedByStamp(list, stamps)
        invariant forall x :: x in list <==> x in stamps && x !in pending
        invariant |list| + |pending| == |stamps|
        decreases |pending|
      {
        var x :| x in pending;
        list := InsertByStamp(list, x, stamps);
        pending := pending - {x};
      }
    }

    /** Deletes the listed objects of a template. */
    method Delete(k: nat, doomed: seq<nat>)
      requires k < |lists|
      modifies this
      ensures lists == old(lists)[k := old(lists)[k] - Elements(doomed)]
    {
      ghost var before := lists;
      for i := 0 to |doomed|
        invariant |lists| == |before| && lists[k] == before[k] - Elements(doomed[..i])
        invariant forall j :: 0 <= j < |lists| && j != k ==> lists[j] == before[j]
      {
        hide Elements;
        lists := lists[k := lists[k] - {doomed[i]}];
      }
      assert doomed[..|doomed|] == doomed;
    }

    /** Deletes the oldest `percent` of a template's objects. */
    method DeleteOldest(k: nat, percent: int) returns (batch: set<nat>)
      requires k < |lists|
      modifies this
      ensures lists == old(lists)[k := old(lists)[k] - batch]
      ensures Chosen(true, percent, old(lists)[k], batch)
    {
      var list := ListOldestFirst(k);
      var doomed := list[..DeleteCount(percent, |list|)];
      ElementsCard(doomed);
      hide SortedByStamp, Elements, Oldest;
      batch := Elements(doomed);
      Delete(k, doomed);
    }

    /** The deletions of a cycle, template after template. */
    method DeleteAll(percent: int) returns (batches: seq<set<nat>>)
      requires |lists| == |churned|
      modifies this
      ensures |batches| == |lists| == |churned|
      ensures forall k :: 0 <= k < |lists| ==> lists[k] == old(lists)[k] - batches[k]
      ensures forall k :: 0 <= k < |lists| ==> Chosen(churned[k], percent, old(lists)[k], batches[k])
    {
      batches := [];
      for k := 0 to |lists|
        invariant |lists| == |churned| == |old(lists)| && |batches| == k
        invariant forall j :: 0 <= j < k ==> lists[j] == old(lists)[j] - batches[j]
        invariant forall j :: k <= j < |lists| ==> lists[j] == old(lists)[j]
        invariant forall j :: 0 <= j < k ==> Chosen(churned[j], percent, old(lists)[j], batches[j])
      {
        assert Chosen(false, percent, lists[k], {}) && lists[k] - {} == lists[k];
        hide Chosen;
        var batch := {};
        if churned[k] {
          batch := DeleteOldest(k, percent);
        }
        batches := batches + [batch];
      }
    }

    /** reCreateDeletedObjects: object b of template k gets the timestamp restamp(k, b). */
    method ReCreate(batches: seq<set<nat>>, restamp: (nat, nat) -> int)
      requires |batches| == |lists|
      modifies this
      ensures |lists| == |batches|
      ensures forall k: nat :: k < |lists| ==> lists[k] == Stamped(old(lists)[k], batches[k], restamp, k)
    {
      hide Stamped;
      for k := 0 to |lists|
        invariant |lists| == |batches| == |old(lists)|
        invariant forall j: nat :: j < k ==> lists[j] == Stamped(old(lists)[j], batches[j], restamp, j)
        invariant forall j :: k <= j < |lists| ==> lists[j] == old(lists)[j]
      {
        lists := lists[k := Stamped(lists[k], batches[k], restamp, k)];
      }
    }

    /** One cycle over all templates. */
    method ChurnOnce(percent: int, restamp: (nat, nat) -> int, now: int) returns (batches: seq<set<nat>>)
      requires |lists| == |churned| && forall k: nat :: k < |lists| ==> NoneNewer(lists[k], now)
      requires forall k: nat, p: nat :: restamp(k, p) >= now
      modifies this
      ensures |batches| == |lists| == |churned| == |old(lists)|
      ensures forall k :: 0 <= k < |lists| ==>
        TemplateCycle(churned[k], percent, old(lists)[k], batches[k], lists[k], now)
      ensures forall k: nat, b :: k < |lists| && b in batches[k] ==> b in lists[k] && lists[k][b] == restamp(k, b)
    {
      batches := DeleteAll(percent);
      ghost var deleted := lists;
      ReCreate(batches, restamp);
      hide Chosen, TemplateCycle, Stamped, NoneNewer;
      forall k: nat | k < |lists|
        ensures TemplateCycle(churned[k], percent, old(lists)[k], batches[k], lists[k], now)
        ensures forall b :: b in batches[k] ==> b in lists[k] && lists[k][b] == restamp(k, b)
      {
        assert lists[k] == Stamped(old(lists)[k] - batches[k], batches[k], restamp, k);
      }
    }

    /** The churn loop. The clock never goes back; `expiry` is how many cycles begin before
        the timer fires, and cycle c re-creates object p of template k at restamp(c, k, p),
        between clock(c) and clock(c + 1). rows[c] are the lists before cycle c. */
    method ChurnObjects(percent: int, cycles: int, timed: bool, expiry: nat,
                        restamp: (nat, nat, nat) -> int, clock: nat -> int)
      returns (done: nat, ghost rows: seq<seq<Stamps>>, ghost taken: seq<seq<set<nat>>>, ghost times: seq<int>)
      requires |lists| == |churned| && (timed || cycles > 0)
      requires forall k: nat :: k < |lists| ==> NoneNewer(lists[k], clock(0))
      requires forall c: nat, k: nat, p: nat :: clock(c) <= restamp(c, k, p) <= clock(c + 1)
      modifies this
      ensures done == CycleLimit(cycles, timed, expiry) && |lists| == |churned|
      ensures Wide(rows, |churned|) && Wide(taken, |churned|) && |taken| == |times| == done && |rows| == done + 1
      ensures rows[0] == old(lists) && rows[done] == lists
      ensures forall c :: 0 <= c < done ==> times[c] == clock(c)
      ensures forall k: nat :: k < |churned| && churned[k] ==>
        && ClockRun(Column(rows, k), Column(taken, k), times, DeleteCount(percent, |old(lists)[k]|))
        && lists[k].Keys == old(lists)[k].Keys
      ensures (forall c: nat, k: nat, p: nat :: clock(c) < restamp(c, k, p)) ==>
        forall k: nat :: k < |churned| && churned[k] ==>
          IsRun(Column(rows, k), Column(taken, k), DeleteCount(percent, |old(lists)[k]|))
      ensures forall k: nat :: k < |churned| && !churned[k] ==> lists[k] == old(lists)[k]
    {
      done, rows, taken, times := 0, [lists], [], [];
      ghost var first := lists;
      ghost var strict := forall c: nat, k: nat, p: nat :: clock(c) < restamp(c, k, p);
      GoesOnUntil(cycles, timed, expiry, 0);
      while GoesOn(cycles, timed, expiry, done)
        invariant |lists| == |churned| && |rows| == done + 1 && |taken| == |times| == done
        invariant AllSoFar(churned, percent, first, rows, taken, times, clock, strict, done)
        invariant rows[done] == lists && rows[0] == first
        invariant done <= CycleLimit(cycles, timed, expiry)
        invariant GoesOn(cycles, timed, expiry, done) <==> done < CycleLimit(cycles, timed, expiry)
        decreases CycleLimit(cycles, timed, expiry) - done
      {
        hide GoesOn, CycleLimit, AllSoFar, TemplateCycle;
        ghost var before := lists;
        AllNoneNewer(churned, percent, first, rows, taken, times, clock, strict, done);
        var c := done;
        assert forall k: nat, p: nat :: clock(c) <= restamp(c, k, p) <= clock(c + 1);
        var batches := ChurnOnce(percent, (k: nat, p: nat) => restamp(c, k, p), clock(c));
        assert clock(c) <= restamp(c, 0, 0) <= clock(c + 1);
        CycleDone(churned, percent, first, rows, taken, times, clock, strict, done, batches, before, lists,
                  (k: nat, p: nat) => restamp(c, k, p));
        rows, taken, times := rows + [lists], taken + [batches], times + [clock(done)];
        done := done + 1;
        GoesOnUntil(cycles, timed, expiry, done);
      }
      AllDone(churned, percent, first, rows, taken, times, clock, strict, done);
    }
  }

  ghost predicate NoneNewer(st: Stamps, now: int) {
    forall p :: p in st ==> st[p] <= now
  }

  ghost predicate Wide<T>(rows: seq<seq<T>>, width: nat) {
    forall r :: 0 <= r < |rows| ==> |rows[r]| == width
  }

  /** The history of one template. */
  ghost function Column<T>(rows: seq<seq<T>>, k: nat): (column: seq<T>)
    requires forall r :: 0 <= r < |rows| ==> k < |rows[r]|
    ensures |column| == |rows| && forall r :: 0 <= r < |rows| ==> column[r] == rows[r][k]
  {
    seq(|rows|, r requires 0 <= r < |rows| => rows[r][k])
  }

  /** The record of the first `done` cycles over all templates. */
  ghost predicate AllSoFar(churned: seq<bool>, percent: int, first: seq<Stamps>, rows: seq<seq<Stamps>>,
                           taken: seq<seq<set<nat>>>, times: seq<int>, clock: nat -> int, strict: bool, done: nat) {
    && |first| == |churned| && |rows| == done + 1 && |taken| == done
    && Wide(rows, |churned|) && Wide(taken, |churned|)
    && |times| == done && (forall c :: 0 <= c < done ==> times[c] == clock(c))
    && forall k: nat :: k < |churned| ==>
         TemplateSoFar(churned[k], percent, first[k], Column(rows, k), Column(taken, k), times, clock, strict, done)
  }

  ghost predicate TemplateSoFar(churned: bool, percent: int, first: Stamps, sts: seq<Stamps>, batches: seq<set<nat>>,
                                times: seq<int>, clock: nat -> int, strict: bool, done: nat) {
    && |sts| == done + 1 && sts[0] == first && NoneNewer(sts[done], clock(done))
    && (churned ==>
          SoFar(sts, batches, times, DeleteCount(percent, |first|), clock, strict, done) && |sts[done]| == |first|)
    && (!churned ==> sts[done] == first)
  }

  lemma AllNoneNewer(churned: seq<bool>, percent: int, first: seq<Stamps>, rows: seq<seq<Stamps>>,
                     taken: seq<seq<set<nat>>>, times: seq<int>, clock: nat -> int, strict: bool, done: nat)
    requires AllSoFar(churned, percent, first, rows, taken, times, clock, strict, done)
    ensures |rows| == done + 1 && |rows[done]| == |churned|
    ensures forall k: nat :: k < |rows[done]| ==> NoneNewer(rows[done][k], clock(done))
  {
    hide NoneNewer, SoFar, DeleteCount;
    forall k: nat | k < |rows[done]| ensures NoneNewer(rows[done][k], clock(done)) {
      assert TemplateSoFar(churned[k], percent, first[k], Column(rows, k), Column(taken, k), times,
                           clock, strict, done);
    }
  }

  lemma CycleDone(churned: seq<bool>, percent: int, first: seq<Stamps>, rows: seq<seq<Stamps>>,
                  taken: seq<seq<set<nat>>>, times: seq<int>, clock: nat -> int, strict: bool, done: nat,
                  batches: seq<set<nat>>, before: seq<Stamps>, after: seq<Stamps>, restamp: (nat, nat) -> int)
    requires AllSoFar(churned, percent, first, rows, taken, times, clock, strict, done) && rows[done] == before
    requires |before| == |after| == |batches| == |churned| && clock(done) <= clock(done + 1)
    requires forall k: nat :: k < |after| ==>
      TemplateCycle(churned[k], percent, before[k], batches[k], after[k], clock(done))
    requires forall k: nat, b :: k < |after| && b in batches[k] ==> b in after[k] && after[k][b] == restamp(k, b)
    requires forall k: nat, p: nat :: restamp(k, p) <= clock(done + 1) && (strict ==> restamp(k, p) > clock(done))
    ensures AllSoFar(churned, percent, first, rows + [after], taken + [batches], times + [clock(done)],
                     clock, strict, done + 1)
  {
    forall k: nat | k < |churned|
      ensures Column(rows + [after], k) == Column(rows, k) + [after[k]]
      ensures Column(taken + [batches], k) == Column(taken, k) + [batches[k]]
      ensures TemplateSoFar(churned[k], percent, first[k], Column(rows, k) + [after[k]],
                            Column(taken, k) + [batches[k]], times + [clock(done)], clock, strict, done + 1)
    {
      assert TemplateSoFar(churned[k], percent, first[k], Column(rows, k), Column(taken, k), times,
                           clock, strict, done);
      hide TemplateSoFar, TemplateCycle;
    }
    hide TemplateSoFar, TemplateCycle;
  }

  lemma AllDone(churned: seq<bool>, percent: int, first: seq<Stamps>, rows: seq<seq<Stamps>>,
                taken: seq<seq<set<nat>>>, times: seq<int>, clock: nat -> int, strict: bool, done: nat)
    requires AllSoFar(churned, percent, first, rows, taken, times, clock, strict, done)
    ensures Wide(rows, |churned|) && Wide(taken, |churned|) && |rows| == done + 1 && |taken| == |times| == done
    ensures forall c :: 0 <= c < done ==> times[c] == clock(c)
    ensures forall k: nat :: k < |churned| && churned[k] ==>
      && ClockRun(Column(rows, k), Column(taken, k), times, DeleteCount(percent, |first[k]|))
      && rows[done][k].Keys == first[k].Keys
      && (strict ==> IsRun(Column(rows, k), Column(taken, k), DeleteCount(percent, |first[k]|)))
    ensures forall k: nat :: k < |churned| && !churned[k] ==> rows[done][k] == first[k]
  {
    forall k: nat | k < |churned|
      ensures TemplateSoFar(churned[k], percent, first[k], Column(rows, k), Column(taken, k), times,
                            clock, strict, done)
      ensures churned[k] ==> rows[done][k].Keys == first[k].Keys
    {
      assert TemplateSoFar(churned[k], percent, first[k], Column(rows, k), Column(taken, k), times,
                           clock, strict, done);
      if churned[k] {
        RunConserves(Column(rows, k), Column(taken, k), DeleteCount(percent, |first[k]|), done);
      }
    }
    hide ClockRun, IsRun, DeleteCount, NoneNewer;
  }

  /** The record of the first `done` cycles; `strict` when everything is created again
      later than the clock of its cycle. */
  ghost predicate SoFar(sts: seq<Stamps>, batches: seq<set<nat>>, times: seq<int>, d: nat, clock: nat -> int,
                        strict: bool, done: nat) {
    && |batches| == done && ClockRun(sts, batches, times, d)
    && (forall c :: 0 <= c < done ==> times[c] == clock(c) <= clock(done))
    && (forall p :: p in sts[done] ==> sts[done][p] <= clock(done))
    && (strict ==> IsRun(sts, batches, d))
  }

  lemma StampedAt(st: Stamps, batch: set<nat>, restamp: (nat, nat) -> int, k: nat)
    requires batch <= st.Keys
    ensures
      var st2 := Stamped(st - batch, batch, restamp, k);
      && st2.Keys == st.Keys
      && (forall p :: p in st.Keys - batch ==> st2[p] == st[p])
      && forall b :: b in batch ==> st2[b] == restamp(k, b)
  {
  }
}
