/** What a copy promises: nothing foreign is written, and nothing in range is lost in silence. */
module CopyTheorems {
  import opened Wrappers
  import opened Store
  import opened Faults
  import opened Client
  import opened Windows
  import opened WorkerPool
  import opened SyncEngine

  /** A point of the copied database and policy, in a listed measurement. */
  predicate Eligible(c: Copy, p: Point) {
    Row(c.sdb, c.srp, p) in c.master && p.meas in c.meas
  }

  /** The master is a server: one point a series and time, storable ones; the measurement names
      are keys of a map. */
  ghost predicate ValidMaster(master: seq<Row>) {
    && (forall r :: r in master ==> Storable(r.point))
    && (forall db, rp :: UniqueKeys(PointsAt(master, db, rp)))
  }

  ghost function PointsAt(master: seq<Row>, db: string, rp: string): iset<Point> {
    iset p | Row(db, rp, p) in master
  }

  ghost predicate ValidCopy(c: Copy) {
    DistinctNames(c.meas) && ValidMaster(c.master)
  }

  ghost function Source(c: Copy): iset<Point> {
    iset p | Eligible(c, p)
  }

  ghost function SourceIn(c: Copy, lo: int, hi: int): iset<Point> {
    iset p | Eligible(c, p) && InRange(lo, hi, p.time)
  }

  lemma SourceUnique(c: Copy)
    requires ValidCopy(c)
    ensures UniqueKeys(Source(c))
  {
    assert UniqueKeys(PointsAt(c.master, c.sdb, c.srp));
    assert forall p :: p in Source(c) ==> p in PointsAt(c.master, c.sdb, c.srp);
  }

  lemma SourceInUnique(c: Copy, lo: int, hi: int)
    requires ValidCopy(c)
    ensures UniqueKeys(SourceIn(c, lo, hi))
  {
    assert UniqueKeys(PointsAt(c.master, c.sdb, c.srp));
    assert forall p :: p in SourceIn(c, lo, hi) ==> p in PointsAt(c.master, c.sdb, c.srp);
  }

  /** s' is s with eligible points merged in. */
  ghost predicate Fed(c: Copy, s: Db, s': Db) {
    MergedFrom(s, s', c.dst, Source(c))
  }

  lemma FedTransitive(c: Copy, s: Db, s': Db, s'': Db)
    requires ValidCopy(c) && Fed(c, s, s') && Fed(c, s', s'')
    ensures Fed(c, s, s'')
  {
    SourceUnique(c);
    MergedTransitive(s, s', s'', c.dst, Source(c));
  }

  lemma FedReflexive(c: Copy, s: Db)
    ensures Fed(c, s, s)
  {
    MergedReflexive(s, c.dst, Source(c));
  }

  lemma FedKeeps(c: Copy, s: Db, s': Db, p: Point)
    requires ValidCopy(c) && Eligible(c, p) && Fed(c, s, s') && Holds(s, c.dst, p)
    ensures Holds(s', c.dst, p)
  {
    SourceUnique(c);
    MergedKeeps(s, s', c.dst, Source(c), p);
  }

  lemma MergedReflexive(s: Db, dst: Dest, rows: iset<Point>)
    ensures MergedFrom(s, s, dst, rows)
  {
    assert forall k :: CellMerged(s, s, dst, rows, k);
  }

  // ---------------------------------------------------------------- jobs in order

  ghost predicate BatchesFrom(job: Job, rows: iset<Point>) {
    forall b, p: Point :: b in job.batches && Some(p) in b ==> p in rows
  }

  lemma JobMerges(env: Env, job: Job, s: Db, rows: iset<Point>)
    requires UniqueKeys(rows) && BatchesFrom(job, rows)
    ensures MergedFrom(s, Complete(env, job, Queued, s).store, env.dst, rows)
  {
    CompleteStores(env, job, Queued, s);
    var b := RestStored(env, job, Queued);
    forall x | x in b && x.Some? ensures x.value in rows {
      StoredAllFrom(job.batches, env.faults, job.at, env.cfg.rwMaxRetries, 0, x);
    }
    WriteMerges(s, env.dst, b, rows);
  }

  lemma {:induction false} InOrderMerges(env: Env, jobs: seq<Job>, s: Db, rows: iset<Point>)
    requires UniqueKeys(rows)
    requires forall j :: 0 <= j < |jobs| ==> BatchesFrom(jobs[j], rows)
    ensures MergedFrom(s, RunInOrder(env, jobs, s).store, env.dst, rows)
  {
    if jobs == [] {
      MergedReflexive(s, env.dst, rows);
    } else {
      var n := |jobs| - 1;
      InOrderMerges(env, jobs[..n], s, rows);
      var e := RunInOrder(env, jobs[..n], s);
      JobMerges(env, jobs[n], e.store, rows);
      MergedTransitive(s, e.store, RunInOrder(env, jobs, s).store, env.dst, rows);
    }
  }

  lemma SlotsMember(points: seq<Point>, p: Point)
    requires p in points
    ensures Some(p) in Slots(points)
  {
    var i :| 0 <= i < |points| && points[i] == p;
    assert Slots(points)[i] == Some(p);
  }

  /** A job without errors stores each of its points. */
  lemma JobStores(env: Env, rs: seq<Point>, at: Place, s: Db, rows: iset<Point>, p: Point)
    requires UniqueKeys(rows) && p in RowPoints(rs)
    requires forall q :: q in RowPoints(rs) ==> q in rows
    requires var t := Complete(env, JobOf(rs, env.cfg, at), Queued, s).tally; t.readErrors == t.writeErrors == 0
    ensures Holds(Complete(env, JobOf(rs, env.cfg, at), Queued, s).store, env.dst, p)
  {
    JobMeaning(env, rs, at, s);
    SlotsMember(RowPoints(rs), p);
    WriteStores(s, env.dst, Slots(RowPoints(rs)), rows, p);
  }

  /** If no job fails, the points of every job are stored at the end. */
  lemma {:induction false} InOrderStores(env: Env, jobs: seq<Job>, s: Db, rows: iset<Point>, j: nat,
        rs: seq<Point>, at: Place, p: Point)
    requires UniqueKeys(rows) && j < |jobs| && jobs[j] == JobOf(rs, env.cfg, at)
    requires forall i :: 0 <= i < |jobs| ==> BatchesFrom(jobs[i], rows)
    requires p in RowPoints(rs) && forall q :: q in RowPoints(rs) ==> q in rows
    requires var t := RunInOrder(env, jobs, s).tally; t.readErrors == t.writeErrors == 0
    ensures Holds(RunInOrder(env, jobs, s).store, env.dst, p)
  {
    var n := |jobs| - 1;
    var e := RunInOrder(env, jobs[..n], s);
    if j == n {
      JobStores(env, rs, at, e.store, rows, p);
    } else {
      InOrderStores(env, jobs[..n], s, rows, j, rs, at, p);
      JobMerges(env, jobs[n], e.store, rows);
      MergedKeeps(e.store, RunInOrder(env, jobs, s).store, env.dst, rows, p);
    }
  }

  // ------------------------------------------------------------------- one window

  lemma RowsAre(c: Copy, plan: Plan, i: nat, m: string)
    requires ValidCopy(c)
    ensures RowPoints(Rows(c, plan, i, m)) == Rows(c, plan, i, m)
    ensures forall p :: p in Rows(c, plan, i, m) <==>
                        (Row(c.sdb, c.srp, p) in c.master && p.meas == m && InWindow(plan, i, p.time))
  {
    var rows := Rows(c, plan, i, m);
    forall p ensures p in rows <==>
                     (Row(c.sdb, c.srp, p) in c.master && p.meas == m && InWindow(plan, i, p.time))
    {
      SelectExact(c.master, c.sdb, c.srp, m, Edge(plan, i + 1), Edge(plan, i), p);
    }
    RowsUnchanged(rows);
  }

  lemma JobsFrom(c: Copy, pass: nat, plan: Plan, i: nat, j: nat)
    requires ValidCopy(c) && j < |c.meas|
    ensures BatchesFrom(JobsFor(c, pass, plan, i)[j], SourceIn(c, Edge(plan, i + 1), Edge(plan, i)))
  {
    var m := c.meas[j];
    RowsAre(c, plan, i, m);
    var job := JobsFor(c, pass, plan, i)[j];
    forall b, p: Point | b in job.batches && Some(p) in b
      ensures p in SourceIn(c, Edge(plan, i + 1), Edge(plan, i))
    {
      SplitMembers(RowPoints(Rows(c, plan, i, m)), c.cfg.maxPoints, b, p);
    }
  }

  lemma WindowSound(c: Copy, pass: nat, plan: Plan, i: nat, s: Db)
    requires ValidCopy(c)
    ensures MergedFrom(s, WindowRun(c, pass, plan, i, s).store, c.dst, SourceIn(c, Edge(plan, i + 1), Edge(plan, i)))
  {
    hide JobOf, RunInOrder, Rows, BatchesFrom, ValidMaster, MergedFrom;
    SourceInUnique(c, Edge(plan, i + 1), Edge(plan, i));
    forall j | 0 <= j < |c.meas| ensures
      BatchesFrom(JobsFor(c, pass, plan, i)[j], SourceIn(c, Edge(plan, i + 1), Edge(plan, i)))
    {
      JobsFrom(c, pass, plan, i, j);
    }
    var rows := SourceIn(c, Edge(plan, i + 1), Edge(plan, i));
    InOrderMerges(Env(c.dst, c.faults, c.cfg), JobsFor(c, pass, plan, i), s, rows);
  }

  /** A window without errors leaves every eligible point in it on the slave. */
  lemma WindowComplete(c: Copy, pass: nat, plan: Plan, i: nat, s: Db, p: Point)
    requires ValidCopy(c) && Eligible(c, p) && InWindow(plan, i, p.time)
    requires var t := WindowRun(c, pass, plan, i, s).tally; t.readErrors == t.writeErrors == 0
    ensures Holds(WindowRun(c, pass, plan, i, s).store, c.dst, p)
  {
    hide JobOf, RunInOrder, Rows, BatchesFrom, ValidMaster, Holds;
    SourceInUnique(c, Edge(plan, i + 1), Edge(plan, i));
    var rows := SourceIn(c, Edge(plan, i + 1), Edge(plan, i));
    var jobs := JobsFor(c, pass, plan, i);
    forall j | 0 <= j < |jobs| ensures BatchesFrom(jobs[j], rows) {
      JobsFrom(c, pass, plan, i, j);
    }
    var j :| 0 <= j < |c.meas| && c.meas[j] == p.meas;
    RowsAre(c, plan, i, p.meas);
    var at := Place(c.id, pass, i, p.meas);
    InOrderStores(Env(c.dst, c.faults, c.cfg), jobs, s, rows, j, Rows(c, plan, i, p.meas), at, p);
  }

  // --------------------------------------------------------------------- one pass

  lemma WindowFeeds(c: Copy, pass: nat, plan: Plan, i: nat, s: Db)
    requires ValidCopy(c)
    ensures Fed(c, s, WindowRun(c, pass, plan, i, s).store)
  {
    WindowSound(c, pass, plan, i, s);
    var rows := SourceIn(c, Edge(plan, i + 1), Edge(plan, i));
    MergedMonotone(s, WindowRun(c, pass, plan, i, s).store, c.dst, rows, Source(c));
  }

  lemma {:induction false} PassFeeds(c: Copy, pass: nat, plan: Plan, n: nat, s: Db)
    requires ValidCopy(c)
    ensures Fed(c, s, RunPass(c, pass, plan, n, s).store)
  {
    hide Fed, WindowRun;
    if n == 0 {
      FedReflexive(c, s);
    } else {
      PassFeeds(c, pass, plan, n - 1, s);
      var before := RunPass(c, pass, plan, n - 1, s).store;
      WindowFeeds(c, pass, plan, n - 1, before);
      FedTransitive(c, s, before, RunPass(c, pass, plan, n, s).store);
    }
  }

  /** Points between lo and hi at most were merged in. */
  ghost predicate FedIn(c: Copy, s: Db, s': Db, lo: int, hi: int) {
    MergedFrom(s, s', c.dst, SourceIn(c, lo, hi))
  }

  lemma FedInTransitive(c: Copy, s: Db, s': Db, s'': Db, lo: int, hi: int)
    requires ValidCopy(c) && FedIn(c, s, s', lo, hi) && FedIn(c, s', s'', lo, hi)
    ensures FedIn(c, s, s'', lo, hi)
  {
    SourceInUnique(c, lo, hi);
    MergedTransitive(s, s', s'', c.dst, SourceIn(c, lo, hi));
  }

  lemma FedInWider(c: Copy, s: Db, s': Db, lo: int, hi: int, lo': int, hi': int)
    requires FedIn(c, s, s', lo, hi) && lo' <= lo && hi <= hi'
    ensures FedIn(c, s, s', lo', hi')
  {
    MergedMonotone(s, s', c.dst, SourceIn(c, lo, hi), SourceIn(c, lo', hi'));
  }

  /** Every write of a pass lies between its oldest and its newest edge. */
  lemma {:induction false} PassFeedsIn(c: Copy, pass: nat, plan: Plan, n: nat, s: Db, lo: int, hi: int)
    requires ValidCopy(c) && lo <= Edge(plan, n) && plan.end <= hi
    ensures FedIn(c, s, RunPass(c, pass, plan, n, s).store, lo, hi)
  {
    hide WindowRun;
    if n == 0 {
      MergedReflexive(s, c.dst, SourceIn(c, lo, hi));
    } else {
      EdgeStep(plan, n - 1);
      PassFeedsIn(c, pass, plan, n - 1, s, lo, hi);
      var before := RunPass(c, pass, plan, n - 1, s).store;
      WindowFeedsIn(c, pass, plan, n - 1, before, lo, hi);
      FedInTransitive(c, s, before, RunPass(c, pass, plan, n, s).store, lo, hi);
    }
  }

  lemma WindowFeedsIn(c: Copy, pass: nat, plan: Plan, i: nat, s: Db, lo: int, hi: int)
    requires ValidCopy(c) && lo <= Edge(plan, i + 1) && plan.end <= hi
    ensures FedIn(c, s, WindowRun(c, pass, plan, i, s).store, lo, hi)
  {
    WindowSound(c, pass, plan, i, s);
    EdgesDescend(plan, 0, i);
    EdgeStep(plan, 0);
    FedInWider(c, s, WindowRun(c, pass, plan, i, s).store, Edge(plan, i + 1), Edge(plan, i), lo, hi);
  }

  lemma PassStoresLast(c: Copy, pass: nat, plan: Plan, n: nat, s: Db, p: Point, before: Pass, e: Effect)
    requires ValidCopy(c) && Eligible(c, p)
    requires e == WindowRun(c, pass, plan, n, before.store)
    requires InWindow(plan, n, p.time) || Holds(before.store, c.dst, p)
    ensures (!Holds(before.store, c.dst, p) && HasErrors(ReportOf(plan, n, e.tally))) || Holds(e.store, c.dst, p)
  {
    if Holds(before.store, c.dst, p) {
      WindowFeeds(c, pass, plan, n, before.store);
      FedKeeps(c, before.store, e.store, p);
    } else if !HasErrors(ReportOf(plan, n, e.tally)) {
      WindowComplete(c, pass, plan, n, before.store, p);
    }
  }

  /** After a pass an eligible point of window i is stored, or report i has errors. */
  lemma {:induction false} PassStores(c: Copy, pass: nat, plan: Plan, n: nat, s: Db, i: nat, p: Point)
    requires ValidCopy(c) && Eligible(c, p) && i < n && InWindow(plan, i, p.time)
    ensures |RunPass(c, pass, plan, n, s).reports| == n
    ensures HasErrors(RunPass(c, pass, plan, n, s).reports[i]) || Holds(RunPass(c, pass, plan, n, s).store, c.dst, p)
  {
    hide Fed, WindowRun, Holds, Eligible;
    var before := RunPass(c, pass, plan, n - 1, s);
    var e := WindowRun(c, pass, plan, n - 1, before.store);
    PassStep(c, pass, plan, n - 1, s, before, e);
    PassReports(c, pass, plan, n - 1, s);
    if i < n - 1 {
      PassStores(c, pass, plan, n - 1, s, i, p);
    }
    if i == n - 1 || Holds(before.store, c.dst, p) {
      PassStoresLast(c, pass, plan, n - 1, s, p, before, e);
    }
  }

  /** The point lies in the window of some report. */
  ghost predicate InBad(bad: seq<ChunkReport>, t: int) {
    exists r :: r in bad && InRange(r.timeStart, r.timeEnd, t)
  }

  /** Each pass accounts for every eligible point in its windows. */
  lemma PassAccounts(c: Copy, pass: nat, plan: Plan, s: Db, i: nat, p: Point)
    requires ValidCopy(c) && Eligible(c, p) && i < plan.count && InWindow(plan, i, p.time)
    ensures var r := RunPass(c, pass, plan, plan.count, s);
            |r.reports| == plan.count &&
            (Holds(r.store, c.dst, p) || (r.reports[i] in Bad(r.reports) && InBad(Bad(r.reports), p.time)))
  {
    var r := RunPass(c, pass, plan, plan.count, s);
    PassStores(c, pass, plan, plan.count, s, i, p);
    PassReports(c, pass, plan, plan.count, s);
    BadExact(r.reports, r.reports[i]);
  }

  // ----------------------------------------------------------------- the recovery

  lemma {:induction false} RecoverFeeds(c: Copy, bad: seq<ChunkReport>, n: nat, chunk: int, maxret: int, s: Db)
    requires ValidCopy(c) && chunk >= 10 && maxret >= 0 && n <= |bad| && ProperReports(bad)
    ensures Fed(c, s, Recover(c, bad, n, chunk, maxret, s).store)
  {
    hide Fed, RunPass;
    if n == 0 {
      FedReflexive(c, s);
    } else {
      RecoverFeeds(c, bad, n - 1, chunk, maxret, s);
      RecoverStep(c, bad, n - 1, chunk, maxret, s);
      var before := Recover(c, bad, n - 1, chunk, maxret, s).store;
      var sub := RecoveryPlan(bad[n - 1], chunk, maxret);
      PassFeeds(c, n, sub, sub.count, before);
      FedTransitive(c, s, before, Recover(c, bad, n, chunk, maxret, s).store);
    }
  }

  ghost predicate Accounted(r: Recovery, dst: Dest, p: Point) {
    Holds(r.store, dst, p) || InBad(r.bad, p.time)
  }

  lemma PassAccounted(c: Copy, pass: nat, plan: Plan, s: Db, p: Point)
    requires ValidCopy(c) && Eligible(c, p) && InSomeWindow(plan, p.time)
    ensures var r := RunPass(c, pass, plan, plan.count, s); Accounted(Recovery(r.store, Bad(r.reports)), c.dst, p)
  {
    var i :| 0 <= i < plan.count && InWindow(plan, i, p.time);
    PassAccounts(c, pass, plan, s, i, p);
  }

  lemma MoreBad(a: seq<ChunkReport>, b: seq<ChunkReport>, t: int)
    requires InBad(a, t) || InBad(b, t)
    ensures InBad(a + b, t)
  {
    var r :| (r in a || r in b) && InRange(r.timeStart, r.timeEnd, t);
    assert r in a + b;
  }

  /** A point of the k-th bad chunk, in a window of its recovery, is accounted for when the
      recoveries are over. */
  lemma {:induction false} RecoverAccounts(c: Copy, bad: seq<ChunkReport>, n: nat, chunk: int, maxret: int,
        s: Db, k: nat, p: Point)
    requires ValidCopy(c) && Eligible(c, p) && chunk >= 10 && maxret >= 0 && k < n <= |bad| && ProperReports(bad)
    requires InSomeWindow(RecoveryPlan(bad[k], chunk, maxret), p.time)
    ensures Accounted(Recover(c, bad, n, chunk, maxret, s), c.dst, p)
  {
    hide Fed, RunPass, Holds, Eligible, InSomeWindow;
    var before := Recover(c, bad, n - 1, chunk, maxret, s);
    RecoverStep(c, bad, n - 1, chunk, maxret, s);
    var sub := RecoveryPlan(bad[n - 1], chunk, maxret);
    var pass := RunPass(c, n, sub, sub.count, before.store);
    if k == n - 1 {
      PassAccounted(c, n, sub, before.store, p);
    } else {
      RecoverAccounts(c, bad, n - 1, chunk, maxret, s, k, p);
      if Holds(before.store, c.dst, p) {
        PassFeeds(c, n, sub, sub.count, before.store);
        FedKeeps(c, before.store, pass.store, p);
      }
    }
    if !Holds(pass.store, c.dst, p) {
      MoreBad(before.bad, Bad(pass.reports), p.time);
    }
  }

  /** No silent loss: for every pattern of failures, an eligible point whose instant is covered
      ends on the slave or in the window of a reported bad chunk. */
  lemma NoSilentLoss(c: Copy, plan: Plan, chunk: int, maxret: int, s: Db, p: Point)
    requires chunk >= 10 && maxret >= 0
    ensures ValidCopy(c) && Eligible(c, p) && Covered(plan, chunk, maxret, p.time) ==>
              Accounted(CopyOutcome(c, plan, chunk, maxret, s), c.dst, p)
  {
    hide ValidCopy, Eligible, Covered, CopyOutcome, Accounted;
    if ValidCopy(c) && Eligible(c, p) && Covered(plan, chunk, maxret, p.time) {
      CoveredIsKept(c, plan, chunk, maxret, s, p);
    }
  }

  lemma CoveredIsKept(c: Copy, plan: Plan, chunk: int, maxret: int, s: Db, p: Point)
    requires ValidCopy(c) && Eligible(c, p) && chunk >= 10 && maxret >= 0
    requires Covered(plan, chunk, maxret, p.time)
    ensures Accounted(CopyOutcome(c, plan, chunk, maxret, s), c.dst, p)
  {
    var i :| 0 <= i < plan.count && InWindow(plan, i, p.time)
      && InSomeWindow(SubPlan(plan, i, chunk, maxret), p.time);
    var first := RunPass(c, 0, plan, plan.count, s);
    var bad := Bad(first.reports);
    PassIsProper(c, 0, plan, plan.count, s);
    PassAccounts(c, 0, plan, s, i, p);
    if Holds(first.store, c.dst, p) {
      RecoverFeeds(c, bad, |bad|, chunk, maxret, first.store);
      FedKeeps(c, first.store, Recover(c, bad, |bad|, chunk, maxret, first.store).store, p);
    } else {
      var k :| 0 <= k < |bad| && bad[k] == first.reports[i];
      RecoveryPlanIs(c, plan, i, chunk, maxret, s);
      RecoverAccounts(c, bad, |bad|, chunk, maxret, first.store, k, p);
    }
  }

  lemma RecoveryPlanIs(c: Copy, plan: Plan, i: nat, chunk: int, maxret: int, s: Db)
    requires chunk >= 10 && maxret >= 0 && i < plan.count
    ensures var rs := RunPass(c, 0, plan, plan.count, s).reports;
            && |rs| == plan.count && rs[i].timeStart <= rs[i].timeEnd
            && RecoveryPlan(rs[i], chunk, maxret) == SubPlan(plan, i, chunk, maxret)
  {
    PassReports(c, 0, plan, plan.count, s);
    SubPlanIs(plan, i, chunk, maxret);
  }
}
