/** The windows a time range is cut into, newest first, and those its failed windows are cut
    into again. */
module Windows {
  import opened GoTime

  /** `count` windows of `width` seconds, counted back from second `end`. */
  datatype Plan = Plan(end: int, width: nat, count: nat)

  /** How many windows: one more than the chunks the range holds, but no more than one more than
      the chunks the maximum retention holds. */
  function WindowCount(start: int, end: int, chunk: int, maxret: int): int
    requires chunk > 0
  {
    Min(TruncDiv(end - start, chunk) + 1, TruncDiv(maxret, chunk) + 1)
  }

  lemma CountNonNegative(start: int, end: int, chunk: int, maxret: int)
    requires chunk > 0 && start <= end && maxret >= 0
    ensures WindowCount(start, end, chunk, maxret) >= 1
  {
  }

  function PlanOf(start: int, end: int, chunk: int, maxret: int): Plan
    requires chunk > 0 && WindowCount(start, end, chunk, maxret) >= 0
  {
    Plan(UnixSec(end), chunk / SECOND, WindowCount(start, end, chunk, maxret))
  }

  /** The newer edge of window i, which is the older edge of window i - 1. */
  function Edge(p: Plan, i: nat): int {
    p.end - i * p.width
  }

  /** Windows are open at both ends. */
  predicate InWindow(p: Plan, i: nat, t: int) {
    Edge(p, i + 1) * SECOND < t < Edge(p, i) * SECOND
  }

  ghost predicate InSomeWindow(p: Plan, t: int) {
    exists i :: 0 <= i < p.count && InWindow(p, i, t)
  }

  /** The instants strictly between the oldest and the newest edge. */
  predicate InPlan(p: Plan, t: int) {
    Edge(p, p.count) * SECOND < t < p.end * SECOND
  }

  lemma EdgeStep(p: Plan, i: nat)
    ensures Edge(p, i + 1) == Edge(p, i) - p.width
    ensures Edge(p, 0) == p.end
  {
    assert (i + 1) * p.width == i * p.width + p.width;
  }

  lemma {:induction false} EdgesDescend(p: Plan, i: nat, j: nat)
    requires i <= j
    ensures Edge(p, j) <= Edge(p, i)
    decreases j - i
  {
    if i < j {
      EdgesDescend(p, i, j - 1);
      EdgeStep(p, j - 1);
    }
  }

  lemma WindowsApart(p: Plan, i: nat, j: nat, t: int)
    requires i < j
    ensures !(InWindow(p, i, t) && InWindow(p, j, t))
  {
    EdgesDescend(p, i + 1, j);
  }

  lemma WindowsDisjoint(p: Plan, i: nat, j: nat, t: int)
    ensures InWindow(p, i, t) && InWindow(p, j, t) ==> i == j
  {
    hide InWindow;
    if i < j {
      WindowsApart(p, i, j, t);
    } else if j < i {
      WindowsApart(p, j, i, t);
    }
  }

  lemma WindowInPlan(p: Plan, i: nat, t: int)
    requires i < p.count && InWindow(p, i, t)
    ensures InPlan(p, t)
  {
    EdgesDescend(p, i + 1, p.count);
    EdgesDescend(p, 0, i);
    EdgeStep(p, 0);
  }

  /** Where an instant lies: its distance from the end as windows and a rest. */
  lemma Locate(p: Plan, t: int) returns (i: nat, r: int)
    requires p.width > 0 && t < p.end * SECOND
    ensures i == (p.end * SECOND - t) / (p.width * SECOND)
    ensures r == (p.end * SECOND - t) % (p.width * SECOND)
    ensures 0 <= r < p.width * SECOND
    ensures t == Edge(p, i) * SECOND - r
  {
    var w := p.width * SECOND;
    var d := p.end * SECOND - t;
    i, r := d / w, d % w;
    assert d == i * w + r;
    assert i * w == i * p.width * SECOND;
  }

  lemma LocateUnique(p: Plan, t: int, i: nat, r: int)
    requires p.width > 0 && 0 <= r < p.width * SECOND && t == Edge(p, i) * SECOND - r
    ensures i == (p.end * SECOND - t) / (p.width * SECOND)
    ensures r == (p.end * SECOND - t) % (p.width * SECOND)
  {
    var w := p.width * SECOND;
    assert i * w == i * p.width * SECOND;
    DivModUnique(p.end * SECOND - t, w, i, r);
  }

  /** Every instant of the plan lies in exactly one window, except those whose distance from the
      end is a multiple of the window, which lie in none. */
  lemma WindowPartition(p: Plan, t: int)
    requires InPlan(p, t)
    ensures p.width > 0
    ensures InSomeWindow(p, t) <==> (p.end * SECOND - t) % (p.width * SECOND) != 0
    ensures forall i, j :: 0 <= i < p.count && 0 <= j < p.count && InWindow(p, i, t) && InWindow(p, j, t) ==> i == j
  {
    if p.width == 0 {
      EdgeZeroWidth(p, p.count);
    }
    var i, r := Locate(p, t);
    EdgeStep(p, i);
    if r != 0 {
      assert InWindow(p, i, t);
      if i >= p.count {
        EdgesDescend(p, p.count, i);
      }
    }
    forall j | 0 <= j < p.count && InWindow(p, j, t) ensures r != 0 {
      EdgeStep(p, j);
      LocateUnique(p, t, j, Edge(p, j) * SECOND - t);
    }
    forall a, b | 0 <= a < p.count && 0 <= b < p.count && InWindow(p, a, t) && InWindow(p, b, t) ensures a == b {
      WindowsDisjoint(p, a, b, t);
    }
  }

  lemma EdgeZeroWidth(p: Plan, i: nat)
    requires p.width == 0
    ensures Edge(p, i) == p.end
  {
  }

  // ------------------------------------------------------------ how far back

  lemma CountTimesChunk(x: int, chunk: int)
    requires chunk > 0 && x >= 0
    ensures x < (TruncDiv(x, chunk) + 1) * chunk <= x + chunk
  {
    assert x == (x / chunk) * chunk + x % chunk;
    assert (x / chunk + 1) * chunk == (x / chunk) * chunk + chunk;
  }

  lemma OldestEdge(p: Plan, chunk: int)
    requires chunk > 0 && chunk % SECOND == 0 && p.width == chunk / SECOND
    ensures Edge(p, p.count) * SECOND == p.end * SECOND - p.count * chunk
  {
    assert chunk == p.width * SECOND;
    assert p.count * chunk == p.count * p.width * SECOND;
  }

  /** With chunks of whole seconds the windows reach back past the start of the range, by less
      than a chunk and a second, unless the cap cuts them short; then they reach back past the
      maximum retention. */
  lemma PlanReach(start: int, end: int, chunk: int, maxret: int)
    requires chunk > 0 && chunk % SECOND == 0 && start <= end && maxret >= 0
    ensures var p := PlanOf(start, end, chunk, maxret);
            var oldest := Edge(p, p.count) * SECOND;
            && p.count >= 1
            && (TruncDiv(end - start, chunk) <= TruncDiv(maxret, chunk) ==>
                  start - chunk - SECOND < oldest < start && oldest < p.end * SECOND - (end - start))
            && (TruncDiv(end - start, chunk) >= TruncDiv(maxret, chunk) ==>
                  oldest < p.end * SECOND - maxret)
  {
    if TruncDiv(end - start, chunk) <= TruncDiv(maxret, chunk) {
      UncappedReach(start, end, chunk, maxret);
    }
    CappedReach(start, end, chunk, maxret);
  }

  lemma UncappedReach(start: int, end: int, chunk: int, maxret: int)
    requires chunk > 0 && chunk % SECOND == 0 && start <= end && maxret >= 0
    requires TruncDiv(end - start, chunk) <= TruncDiv(maxret, chunk)
    ensures var p := PlanOf(start, end, chunk, maxret);
            var oldest := Edge(p, p.count) * SECOND;
            p.count >= 1 && start - chunk - SECOND < oldest < start && oldest < p.end * SECOND - (end - start)
  {
    var n := TruncDiv(end - start, chunk) + 1;
    var p := Plan(UnixSec(end), chunk / SECOND, n);
    assert PlanOf(start, end, chunk, maxret) == p;
    OldestEdge(p, chunk);
    CountTimesChunk(end - start, chunk);
    BackFrom(start, end, n * chunk, chunk);
  }

  lemma CappedReach(start: int, end: int, chunk: int, maxret: int)
    requires chunk > 0 && chunk % SECOND == 0 && start <= end && maxret >= 0
    ensures TruncDiv(end - start, chunk) >= TruncDiv(maxret, chunk) ==>
              var p := PlanOf(start, end, chunk, maxret);
              p.count >= 1 && Edge(p, p.count) * SECOND < p.end * SECOND - maxret
  {
    if TruncDiv(end - start, chunk) >= TruncDiv(maxret, chunk) {
      var n := TruncDiv(maxret, chunk) + 1;
      var p := Plan(UnixSec(end), chunk / SECOND, n);
      assert PlanOf(start, end, chunk, maxret) == p;
      OldestEdge(p, chunk);
      CountTimesChunk(maxret, chunk);
    }
  }

  /** How far the windows go, for any chunk: never further back than the maximum retention and a
      chunk, nor than the length of the range and a chunk. */
  lemma PlanStops(start: int, end: int, chunk: int, maxret: int)
    requires chunk > 0 && maxret >= 0 && WindowCount(start, end, chunk, maxret) >= 0
    ensures var p := PlanOf(start, end, chunk, maxret);
            var oldest := Edge(p, p.count) * SECOND;
            && oldest >= p.end * SECOND - maxret - chunk
            && (start <= end ==> oldest >= p.end * SECOND - (end - start) - chunk)
  {
    var p := PlanOf(start, end, chunk, maxret);
    assert p.count <= TruncDiv(maxret, chunk) + 1 && p.count <= TruncDiv(end - start, chunk) + 1;
    CountStops(p, chunk, maxret);
    if start <= end {
      CountStops(p, chunk, end - start);
    }
  }

  lemma CountStops(p: Plan, chunk: int, length: int)
    requires chunk > 0 && length >= 0 && p.width == chunk / SECOND && p.count <= length / chunk + 1
    ensures Edge(p, p.count) * SECOND >= p.end * SECOND - length - chunk
  {
    CountTimesChunk(length, chunk);
    MulMonotone(p.count, length / chunk + 1, chunk);
    MulMonotone(p.width * SECOND, chunk, p.count);
    assert p.count * p.width * SECOND == p.width * SECOND * p.count;
    assert p.count * chunk == chunk * p.count;
  }

  lemma MulMonotone(a: int, b: int, m: int)
    requires a <= b && m >= 0
    ensures a * m <= b * m
  {
    assert b * m == a * m + (b - a) * m;
    assert (b - a) * m >= 0;
  }

  lemma BackFrom(start: int, end: int, back: int, chunk: int)
    ensures var oldest := UnixSec(end) * SECOND - back;
            end - start < back <= end - start + chunk ==> start - chunk - SECOND < oldest < start
  {
  }

  /** An instant within the range and the maximum retention, up to the last whole second, lies within
      the plan. */
  lemma RangeInPlan(start: int, end: int, chunk: int, maxret: int, t: int)
    requires chunk > 0 && chunk % SECOND == 0 && start <= end && maxret >= 0
    requires Max(start, UnixSec(end) * SECOND - maxret) <= t < UnixSec(end) * SECOND
    ensures WindowCount(start, end, chunk, maxret) >= 0
    ensures InPlan(PlanOf(start, end, chunk, maxret), t)
  {
    CountNonNegative(start, end, chunk, maxret);
    PlanReach(start, end, chunk, maxret);
  }

  /** The windows reach back past the start of the range, or past the maximum retention. */
  ghost predicate ReachesBack(start: int, end: int, chunk: int, maxret: int)
    requires chunk > 0
  {
    WindowCount(start, end, chunk, maxret) >= 0 &&
    var p := PlanOf(start, end, chunk, maxret);
    Edge(p, p.count) * SECOND < Max(start, p.end * SECOND - maxret)
  }

  ghost predicate AlwaysReaches(chunk: int)
    requires chunk > 0
  {
    forall start, end, maxret :: start <= end && maxret >= 0 ==> ReachesBack(start, end, chunk, maxret)
  }

  /** Every range is covered as far back as promised exactly with chunks of whole seconds: with any
      other chunk the windows are narrower than the chunks counted, and a range of just under one
      chunk already comes up short. */
  lemma ReachExact(chunk: int)
    requires chunk > 0
    ensures AlwaysReaches(chunk) <==> chunk % SECOND == 0
  {
    if chunk % SECOND == 0 {
      forall start, end, maxret | start <= end && maxret >= 0 ensures ReachesBack(start, end, chunk, maxret) {
        CountNonNegative(start, end, chunk, maxret);
        PlanReach(start, end, chunk, maxret);
      }
    } else {
      ShortReach(chunk);
    }
  }

  /** A range one nanosecond shorter than the chunk, under a retention of one chunk, has one
      window, which ends short of it. */
  lemma ShortReach(chunk: int)
    requires chunk > 0 && chunk % SECOND != 0
    ensures !ReachesBack(-(chunk - 1), 0, chunk, chunk)
  {
    DivModUnique(chunk, chunk, 1, 0);
    var p := Plan(0, chunk / SECOND, 1);
    assert PlanOf(-(chunk - 1), 0, chunk, chunk) == p;
    EdgeStep(p, 0);
  }

  /** rp.GetFirstLastTime at instant `now`: a policy that keeps data for ever starts at the
      maximum retention. */
  function FirstLastTime(duration: int, max: int, now: int): (int, int) {
    if duration == 0 then (now - max, now) else (now - duration, now)
  }

  /** The range ends at the moment, and starts the policy's duration before it, or the maximum
      retention for a policy that keeps data for ever. */
  lemma FullRange(duration: int, max: int, now: int)
    ensures FirstLastTime(duration, max, now).1 == now
    ensures duration == 0 ==> FirstLastTime(duration, max, now).0 == now - max
    ensures duration != 0 ==> FirstLastTime(duration, max, now).0 == now - duration
  {
  }

  /** A full copy stops a chunk and a second before that, at the latest. */
  lemma FullCopyStops(duration: int, now: int, chunk: int, maxret: int)
    requires chunk > 0 && duration >= 0 && maxret >= 0
    ensures var (first, last) := FirstLastTime(duration, maxret, now);
            var p := PlanOf(first, last, chunk, maxret);
            var kept := if duration == 0 then maxret else Min(duration, maxret);
            now - kept - chunk - SECOND < Edge(p, p.count) * SECOND
  {
    var first := FirstLastTime(duration, maxret, now).0;
    FullRange(duration, maxret, now);
    CountNonNegative(first, now, chunk, maxret);
    PlanStops(first, now, chunk, maxret);
    SecondBefore(now);
    hide Edge, TruncDiv, UnixSec, WindowCount;
  }

  lemma SecondBefore(ns: int)
    ensures ns - SECOND < UnixSec(ns) * SECOND <= ns
  {
  }

  /** A full copy reaches back past what the policy keeps, or past the maximum retention. */
  lemma FullCopyReach(duration: int, now: int, chunk: int, maxret: int)
    requires chunk > 0 && chunk % SECOND == 0 && duration >= 0 && maxret >= 0
    ensures var (first, last) := FirstLastTime(duration, maxret, now);
            var p := PlanOf(first, last, chunk, maxret);
            Edge(p, p.count) * SECOND < p.end * SECOND - (if duration == 0 then maxret else Min(duration, maxret))
  {
    var (first, last) := FirstLastTime(duration, maxret, now);
    PlanReach(first, last, chunk, maxret);
  }

  // ------------------------------------------------- the windows of a recovery

  /** How many windows a recovered window is cut into. */
  function SubCount(width: nat, chunk: int, maxret: int): nat
    requires chunk >= 10 && maxret >= 0
  {
    Min(width * SECOND / (chunk / 10) + 1, maxret / (chunk / 10) + 1)
  }

  /** The plan of the recovery of window i, from its report's edges at a tenth of the chunk. */
  function SubPlan(p: Plan, i: nat, chunk: int, maxret: int): Plan
    requires chunk >= 10 && maxret >= 0
  {
    Plan(Edge(p, i), chunk / 10 / SECOND, SubCount(p.width, chunk, maxret))
  }

  lemma SubPlanIs(p: Plan, i: nat, chunk: int, maxret: int)
    requires chunk >= 10 && maxret >= 0
    ensures var s, e := Edge(p, i + 1) * SECOND, Edge(p, i) * SECOND;
            && s <= e
            && WindowCount(s, e, chunk / 10, maxret) >= 0
            && PlanOf(s, e, chunk / 10, maxret) == SubPlan(p, i, chunk, maxret)
  {
    EdgeStep(p, i);
  }

  /** The recovery of window i, for any chunk: never further back than the maximum retention and a
      tenth of the chunk, nor than the window and a tenth of the chunk. */
  lemma RecoveryStops(p: Plan, i: nat, chunk: int, maxret: int)
    requires chunk >= 10 && maxret >= 0
    ensures var sub := SubPlan(p, i, chunk, maxret);
            var oldest := Edge(sub, sub.count) * SECOND;
            && oldest >= Edge(p, i) * SECOND - maxret - chunk / 10
            && oldest >= Edge(p, i + 1) * SECOND - chunk / 10
  {
    SubPlanIs(p, i, chunk, maxret);
    PlanStops(Edge(p, i + 1) * SECOND, Edge(p, i) * SECOND, chunk / 10, maxret);
  }

  /** With chunks of whole tens of seconds a recovered window is cut into exactly eleven: ten that
      tile it and an eleventh next to it on the older side. */
  lemma RecoveryRefines(p: Plan, i: nat, chunk: int, maxret: int)
    requires chunk > 0 && chunk % (10 * SECOND) == 0 && maxret >= chunk && p.width == chunk / SECOND
    ensures var sub := SubPlan(p, i, chunk, maxret);
            && sub.count == 11
            && sub.width * 10 == p.width
            && sub.width * SECOND == chunk / 10
            && Edge(sub, 0) == Edge(p, i)
            && Edge(sub, 10) == Edge(p, i + 1)
            && Edge(sub, 11) == Edge(p, i + 1) - sub.width
  {
    var n := chunk / (10 * SECOND);
    assert chunk == n * 10 * SECOND && n > 0;
    assert chunk / 10 == n * SECOND;
    assert p.width == 10 * n;
    DivModUnique(p.width * SECOND, n * SECOND, 10, 0);
    TenAtLeast(maxret, n * SECOND);
    EdgeStep(p, i);
  }

  lemma TenAtLeast(x: int, y: int)
    requires y > 0 && x >= 10 * y
    ensures x / y >= 10
  {
    var q := x / y;
    assert x == q * y + x % y;
    assert (10 - q) * y == 10 * y - q * y;
    if q < 10 {
      MulGe(10 - q, y);
    }
  }

  /** The instant lies in a window, and in a window of that window's recovery. */
  ghost predicate Covered(p: Plan, chunk: int, maxret: int, t: int)
    requires chunk >= 10 && maxret >= 0
  {
    exists i :: 0 <= i < p.count && InWindow(p, i, t) && InSomeWindow(SubPlan(p, i, chunk, maxret), t)
  }

  /** The instant lies in a window, or in a window of the recovery of one: a copy may read it. */
  ghost predicate Readable(p: Plan, chunk: int, maxret: int, t: int)
    requires chunk >= 10 && maxret >= 0
  {
    || InSomeWindow(p, t)
    || exists i :: 0 <= i < p.count && InSomeWindow(SubPlan(p, i, chunk, maxret), t)
  }

  lemma CoveredIn(p: Plan, i: nat, chunk: int, maxret: int, t: int)
    requires chunk >= 10 && maxret >= 0 && i < p.count && InWindow(p, i, t)
    ensures Covered(p, chunk, maxret, t) <==> InSomeWindow(SubPlan(p, i, chunk, maxret), t)
  {
    forall j | 0 <= j < p.count && InWindow(p, j, t) ensures i == j {
      WindowsDisjoint(p, i, j, t);
    }
  }

  /** With chunks of whole tens of seconds and room for one chunk in the retention, the covered
      instants are those whose distance from the end is no multiple of a tenth of the chunk. */
  lemma CoveredTenths(p: Plan, chunk: int, maxret: int, t: int)
    requires chunk > 0 && chunk % (10 * SECOND) == 0 && maxret >= chunk && p.width == chunk / SECOND
    requires InPlan(p, t)
    ensures Covered(p, chunk, maxret, t) <==> (p.end * SECOND - t) % (chunk / 10) != 0
  {
    WindowPartition(p, t);
    var i, r := Locate(p, t);
    ChunkInTenths(chunk);
    TenthsOfRest(p.end * SECOND - t, chunk / 10);
    hide Covered, Edge, InPlan, InSomeWindow;
    if r == 0 {
      NotCoveredOnEdge(p, chunk, maxret, t);
    } else {
      LocatedInPlan(p, t, i, r);
      TenthsInWindow(p, i, chunk, maxret, t, r);
    }
  }

  lemma ChunkInTenths(chunk: int)
    requires chunk % (10 * SECOND) == 0
    ensures chunk / SECOND * SECOND == 10 * (chunk / 10)
  {
  }

  lemma NotCoveredOnEdge(p: Plan, chunk: int, maxret: int, t: int)
    requires chunk >= 10 && maxret >= 0 && !InSomeWindow(p, t)
    ensures !Covered(p, chunk, maxret, t)
  {
    hide InWindow, SubPlan;
  }

  /** An instant of the plan off the edges lies in a window of the plan. */
  lemma LocatedInPlan(p: Plan, t: int, i: nat, r: int)
    requires InPlan(p, t) && r >= 0 && t == Edge(p, i) * SECOND - r
    ensures i < p.count
  {
    if i >= p.count {
      EdgesDescend(p, p.count, i);
    }
  }

  lemma TenthsInWindow(p: Plan, i: nat, chunk: int, maxret: int, t: int, r: int)
    requires chunk > 0 && chunk % (10 * SECOND) == 0 && maxret >= chunk && p.width == chunk / SECOND
    requires i < p.count && 0 < r < p.width * SECOND && t == Edge(p, i) * SECOND - r
    ensures Covered(p, chunk, maxret, t) <==> r % (chunk / 10) != 0
  {
    EdgeStep(p, i);
    RecoveryRefines(p, i, chunk, maxret);
    CoveredIn(p, i, chunk, maxret, t);
    WindowPartition(SubPlan(p, i, chunk, maxret), t);
  }

  lemma TenthsOfRest(d: int, w: int)
    requires w > 0
    ensures (d % (10 * w)) % w == d % w
  {
    var q, r := d / (10 * w), d % (10 * w);
    assert d == q * (10 * w) + r;
    assert q * (10 * w) == (10 * q) * w;
    ModPeriod(r, 10 * q, w);
  }

  lemma WholeSecondRest(d: int, w: int)
    requires w > 0 && d % SECOND != 0
    ensures d % (w * SECOND) != 0
  {
    if d % (w * SECOND) == 0 {
      var q := d / (w * SECOND);
      assert d == q * (w * SECOND);
      assert d == (q * w) * SECOND;
      DivModUnique(d, SECOND, q * w, 0);
    }
  }

  /** For any chunk: every instant of the plan that is not a whole second is covered exactly when
      the windows of a recovery, together, are as wide as the window they recover. */
  lemma RecoveryReaches(p: Plan, chunk: int, maxret: int)
    requires chunk >= 10 && maxret >= 0 && p.count >= 1
    ensures (forall t :: InPlan(p, t) && t % SECOND != 0 ==> Covered(p, chunk, maxret, t))
       <==> SubCount(p.width, chunk, maxret) * (chunk / 10 / SECOND) >= p.width
  {
    if SubCount(p.width, chunk, maxret) * (chunk / 10 / SECOND) >= p.width {
      forall t | InPlan(p, t) && t % SECOND != 0 ensures Covered(p, chunk, maxret, t) {
        OffSecondCovered(p, chunk, maxret, t);
      }
    } else {
      NotReached(p, chunk, maxret);
    }
  }

  lemma OffSecondCovered(p: Plan, chunk: int, maxret: int, t: int)
    requires chunk >= 10 && maxret >= 0 && InPlan(p, t) && t % SECOND != 0
    requires SubCount(p.width, chunk, maxret) * (chunk / 10 / SECOND) >= p.width
    ensures Covered(p, chunk, maxret, t)
  {
    WindowPartition(p, t);
    OffSecond(p.end, t, p.width);
    var i :| 0 <= i < p.count && InWindow(p, i, t);
    EdgeStep(p, i);
    var sub := SubPlan(p, i, chunk, maxret);
    assert Edge(sub, sub.count) <= Edge(p, i + 1);
    WindowPartition(sub, t);
    OffSecond(sub.end, t, sub.width);
  }

  lemma OffSecond(end: int, t: int, w: int)
    requires w > 0 && t % SECOND != 0
    ensures (end * SECOND - t) % (w * SECOND) != 0
  {
    var d := end * SECOND - t;
    DistanceOffSecond(end, t);
    WholeSecondRest(d, w);
  }

  lemma DistanceOffSecond(end: int, t: int)
    requires t % SECOND != 0
    ensures (end * SECOND - t) % SECOND != 0
  {
  }

  /** The instant one nanosecond after the older edge of the newest window is missed. */
  lemma NotReached(p: Plan, chunk: int, maxret: int)
    requires chunk >= 10 && maxret >= 0 && p.count >= 1
    requires SubCount(p.width, chunk, maxret) * (chunk / 10 / SECOND) < p.width
    ensures var t := Edge(p, 1) * SECOND + 1;
            InPlan(p, t) && t % SECOND != 0 && InWindow(p, 0, t) && !Covered(p, chunk, maxret, t)
  {
    var t := Edge(p, 1) * SECOND + 1;
    var sub := SubPlan(p, 0, chunk, maxret);
    EdgeStep(p, 0);
    assert InWindow(p, 0, t);
    WindowInPlan(p, 0, t);
    DivModUnique(t, SECOND, Edge(p, 1), 1);
    CoveredIn(p, 0, chunk, maxret, t);
    forall j | 0 <= j < sub.count ensures !InWindow(sub, j, t) {
      EdgesDescend(sub, j + 1, sub.count);
    }
  }

  /** For chunks of c whole seconds the condition is that the seconds over the last ten are no
      more than the tens: multiples of ten seconds meet it, 15 s and every chunk under 10 s do
      not, and every chunk of 90 s or more does. */
  lemma WholeSecondChunks(c: nat, maxret: int)
    requires c >= 1 && maxret >= c * SECOND
    ensures SubCount(c, c * SECOND, maxret) * (c * SECOND / 10 / SECOND) >= c <==> c / 10 >= c % 10
  {
    var w := c * (SECOND / 10);
    assert c * SECOND / 10 == w;
    DivModUnique(c * SECOND, w, 10, 0);
    TenAtLeast(maxret, w);
    assert SubCount(c, c * SECOND, maxret) == 11;
    assert w / SECOND == c / 10;
  }
}
