/** When a replication loses a point in silence because a later copy of the same run writes over it:
    exactly when the two disagree and the later copy may read its point. */
module Overwriting {
  import opened Wrappers
  import opened GoTime
  import opened Store
  import opened Faults
  import opened Retry
  import opened Client
  import opened Windows
  import opened WorkerPool
  import opened SyncEngine
  import opened CopyTheorems
  import opened CopyExact
  import opened Schema
  import opened Replication

  // ------------------------------------------------------------- copies that do not fail

  /** No call fails from pass `from` on. */
  ghost predicate CleanFrom(c: Copy, from: nat) {
    forall pass: nat, i: nat :: pass >= from ==> NoFaults(c, pass, i)
  }

  lemma {:induction false} CleanPass(c: Copy, pass: nat, plan: Plan, n: nat, s: Db)
    requires CleanFrom(c, pass)
    ensures Bad(RunPass(c, pass, plan, n, s).reports) == []
  {
    hide WindowRun, NoFaults;
    if n > 0 {
      hide RunPass, Bad, CleanFrom;
      CleanPass(c, pass, plan, n - 1, s);
      CleanStep(c, pass, plan, n - 1, s);
    }
  }

  lemma CleanStep(c: Copy, pass: nat, plan: Plan, i: nat, s: Db)
    requires CleanFrom(c, pass)
    ensures Bad(RunPass(c, pass, plan, i + 1, s).reports) == Bad(RunPass(c, pass, plan, i, s).reports)
  {
    assert NoFaults(c, pass, i);
    hide WindowRun, HasErrors, NoFaults, CleanFrom, RunPass, Bad;
    var before := RunPass(c, pass, plan, i, s);
    var e := WindowRun(c, pass, plan, i, before.store);
    CleanWindow(c, pass, plan, i, before.store);
    PassStep(c, pass, plan, i, s, before, e);
    AppendReport(0, before.reports, ReportOf(plan, i, e.tally));
    assert Bad(before.reports) + [] == Bad(before.reports);
  }

  lemma {:induction false} CleanRecover(c: Copy, bad: seq<ChunkReport>, n: nat, chunk: int, maxret: int, s: Db)
    requires chunk >= 10 && maxret >= 0 && n <= |bad| && ProperReports(bad) && CleanFrom(c, 1)
    ensures Recover(c, bad, n, chunk, maxret, s).bad == []
  {
    hide RunPass, Bad, NoFaults, RecoveryPlan;
    if n > 0 {
      CleanRecover(c, bad, n - 1, chunk, maxret, s);
      RecoverStep(c, bad, n - 1, chunk, maxret, s);
      var sub := RecoveryPlan(bad[n - 1], chunk, maxret);
      CleanPass(c, n, sub, sub.count, Recover(c, bad, n - 1, chunk, maxret, s).store);
    }
  }

  /** A copy without failures stores every eligible point in its windows. */
  lemma CleanCopyStores(c: Copy, plan: Plan, chunk: int, maxret: int, s: Db, i: nat, q: Point)
    requires ValidCopy(c) && Eligible(c, q) && chunk >= 10 && maxret >= 0 && CleanFrom(c, 0)
    requires i < plan.count && InWindow(plan, i, q.time)
    ensures Holds(CopyOutcome(c, plan, chunk, maxret, s).store, c.dst, q)
  {
    hide RunPass, NoFaults, ValidCopy, Eligible, InWindow, Holds;
    CleanPass(c, 0, plan, plan.count, s);
    PassAccounts(c, 0, plan, s, i, q);
  }

  lemma CleanCopyReports(c: Copy, plan: Plan, chunk: int, maxret: int, s: Db)
    requires chunk >= 10 && maxret >= 0 && CleanFrom(c, 0)
    ensures CopyOutcome(c, plan, chunk, maxret, s).bad == []
  {
    hide RunPass, NoFaults;
    CleanPass(c, 0, plan, plan.count, s);
  }

  // ------------------------------------------- a copy whose window i is read in its recovery only

  lemma UnreadFails(c: Copy, pass: nat, plan: Plan, i: nat, s: Db, m: string)
    requires ValidCopy(c) && m in c.meas && !MeasRead(c, pass, i, m)
    ensures HasErrors(ReportOf(plan, i, WindowRun(c, pass, plan, i, s).tally))
  {
    WindowBooks(c, pass, plan, i, s);
    hide WindowRun, MeasRead, Unstored, PointsRead;
    assert c.meas[..|c.meas|] == c.meas;
    assert m in Unread(c, pass, i, |c.meas|);
  }

  /** If window i of the first pass fails and nothing fails after it, the recovery stores what its
      windows hold. */
  lemma RecoveryStores(c: Copy, plan: Plan, chunk: int, maxret: int, s: Db, i: nat, q: Point)
    requires ValidCopy(c) && Eligible(c, q) && chunk >= 10 && maxret >= 0 && CleanFrom(c, 1)
    requires i < plan.count && !MeasRead(c, 0, i, q.meas)
    requires InSomeWindow(SubPlan(plan, i, chunk, maxret), q.time)
    ensures Holds(CopyOutcome(c, plan, chunk, maxret, s).store, c.dst, q)
  {
    var first := RunPass(c, 0, plan, plan.count, s);
    var bad := Bad(first.reports);
    hide RunPass, NoFaults, ValidMaster, Holds, SubPlan, InWindow, MeasRead, RecoveryPlan;
    hide WindowRun, HasErrors, Recover;
    PassIsProper(c, 0, plan, plan.count, s);
    ReportAt(c, 0, plan, plan.count, s, i);
    UnreadFails(c, 0, plan, i, RunPass(c, 0, plan, i, s).store, q.meas);
    BadExact(first.reports, first.reports[i]);
    var k :| 0 <= k < |bad| && bad[k] == first.reports[i];
    RecoveryPlanIs(c, plan, i, chunk, maxret, s);
    RecoverAccounts(c, bad, |bad|, chunk, maxret, first.store, k, q);
    CleanRecover(c, bad, |bad|, chunk, maxret, first.store);
  }

  // ------------------------------------------------------------- copies that read nothing

  ghost predicate Dark(c: Copy, pass: nat, i: nat) {
    forall m :: m in c.meas ==> !MeasRead(c, pass, i, m)
  }

  lemma {:induction false} DarkJobs(c: Copy, pass: nat, plan: Plan, i: nat, n: nat, s: Db)
    requires Dark(c, pass, i) && n <= |c.meas|
    ensures RunInOrder(Env(c.dst, c.faults, c.cfg), JobsFor(c, pass, plan, i)[..n], s).store == s
  {
    hide Complete, JobOf, Rows;
    if n > 0 {
      var env := Env(c.dst, c.faults, c.cfg);
      var jobs := JobsFor(c, pass, plan, i);
      assert jobs[..n][..n - 1] == jobs[..n - 1];
      DarkJobs(c, pass, plan, i, n - 1, s);
      var m := c.meas[n - 1];
      assert !MeasRead(c, pass, i, m);
      JobMeaning(env, Rows(c, plan, i, m), Place(c.id, pass, i, m), s);
    }
  }

  lemma DarkWindow(c: Copy, pass: nat, plan: Plan, i: nat, s: Db)
    requires Dark(c, pass, i)
    ensures WindowRun(c, pass, plan, i, s).store == s
  {
    DarkJobs(c, pass, plan, i, |c.meas|, s);
    var jobs := JobsFor(c, pass, plan, i);
    assert jobs[..|c.meas|] == jobs;
  }

  lemma {:induction false} DarkPass(c: Copy, pass: nat, plan: Plan, n: nat, s: Db)
    requires forall i :: 0 <= i < n ==> Dark(c, pass, i)
    ensures RunPass(c, pass, plan, n, s).store == s
  {
    hide WindowRun, Dark;
    if n > 0 {
      DarkPass(c, pass, plan, n - 1, s);
      DarkWindow(c, pass, plan, n - 1, s);
    }
  }

  ghost predicate DarkRecovery(c: Copy, r: ChunkReport, pass: nat, chunk: int, maxret: int)
    requires chunk >= 10 && maxret >= 0 && r.timeStart <= r.timeEnd
  {
    forall i :: 0 <= i < RecoveryPlan(r, chunk, maxret).count ==> Dark(c, pass, i)
  }

  lemma {:induction false} DarkRecover(c: Copy, bad: seq<ChunkReport>, n: nat, chunk: int, maxret: int, s: Db)
    requires chunk >= 10 && maxret >= 0 && n <= |bad| && ProperReports(bad)
    requires forall k :: 0 <= k < n ==> DarkRecovery(c, bad[k], k + 1, chunk, maxret)
    ensures Recover(c, bad, n, chunk, maxret, s).store == s
  {
    hide RunPass, Dark, RecoveryPlan;
    if n > 0 {
      DarkRecover(c, bad, n - 1, chunk, maxret, s);
      RecoverStep(c, bad, n - 1, chunk, maxret, s);
      var sub := RecoveryPlan(bad[n - 1], chunk, maxret);
      assert DarkRecovery(c, bad[n - 1], n - 1 + 1, chunk, maxret);
      DarkPass(c, n, sub, sub.count, s);
    }
  }

  lemma {:induction false} BadLength(rs: seq<ChunkReport>)
    ensures |Bad(rs)| <= |rs|
  {
    if rs != [] {
      BadLength(rs[..|rs| - 1]);
    }
  }

  /** A copy none of whose queries is answered changes nothing. */
  lemma DarkCopy(c: Copy, plan: Plan, chunk: int, maxret: int, s: Db, bound: nat)
    requires chunk >= 10 && maxret >= 0
    requires plan.count <= bound && SubCount(plan.width, chunk, maxret) <= bound
    requires forall pass: nat, i: nat :: pass <= bound && i <= bound ==> Dark(c, pass, i)
    ensures CopyOutcome(c, plan, chunk, maxret, s).store == s
  {
    hide RunPass, Dark, RecoveryPlan, Recover;
    var first := RunPass(c, 0, plan, plan.count, s);
    var bad := Bad(first.reports);
    PassIsProper(c, 0, plan, plan.count, s);
    DarkPass(c, 0, plan, plan.count, s);
    PassReports(c, 0, plan, plan.count, s);
    BadLength(first.reports);
    forall k | 0 <= k < |bad| ensures DarkRecovery(c, bad[k], k + 1, chunk, maxret) {
      var w := BadWindow(c, plan, s, k, chunk, maxret);
    }
    DarkRecover(c, bad, |bad|, chunk, maxret, s);
  }

  // --------------------------------------------------------- the failures that lose a point

  /** The queries of copies `from` up to `to`, all of them if the bound is large enough. */
  ghost function QuerySites(from: nat, to: nat, bound: nat, meas: set<string>): set<Site> {
    set c: nat, p: nat, w: nat, m, a: nat |
      from <= c < to && p <= bound && w <= bound && m in meas && 1 <= a <= MAX_RETRIES
      :: Site(Place(c, p, w, m), QueryCall(a))
  }

  ghost function WindowSites(id: nat, i: nat, m: string): set<Site> {
    set a: nat | 1 <= a <= MAX_RETRIES :: Site(Place(id, 0, i, m), QueryCall(a))
  }

  ghost function FailingAt(sites: set<Site>): Faults {
    map x | x in sites :: []
  }

  lemma NoAnswer(sites: set<Site>, at: Place, r: int)
    requires forall a :: 1 <= a <= MAX_RETRIES ==> Site(at, QueryCall(a)) in sites
    ensures !ReadSucceeds(FailingAt(sites), at, r)
  {
    var errs := QueryErrors(FailingAt(sites), at);
    forall a | 1 <= a <= Budget(r) ensures errs(a).Some? {
      assert Site(at, QueryCall(a)) in sites;
    }
  }

  ghost function AllMeas(units: seq<Unit>): set<string> {
    set u, m | u in units && m in u.meas :: m
  }

  /** More than the windows of any unit or of any of its recoveries. */
  ghost function Bound(setup: Setup, units: seq<Unit>): nat
    requires GoodUnits(setup, units)
  {
    if units == [] then 0
    else
      var n := |units| - 1;
      var plan := UnitPlan(setup, units[n]);
      Max(Bound(setup, units[..n]), plan.count + SubCount(plan.width, setup.chunk, setup.maxret))
  }

  lemma {:induction false} BoundIs(setup: Setup, units: seq<Unit>, k: nat)
    requires GoodUnits(setup, units) && k < |units|
    ensures var plan := UnitPlan(setup, units[k]);
            plan.count <= Bound(setup, units) && SubCount(plan.width, setup.chunk, setup.maxret) <= Bound(setup, units)
    decreases |units|
  {
    hide UnitPlan, GoodUnit, SubCount;
    var n := |units| - 1;
    if k < n {
      BoundIs(setup, units[..n], k);
    }
  }

  /** Window i of unit j is not read in the first pass if `early`, and the units after j read nothing. */
  ghost function LosingFaults(setup: Setup, units: seq<Unit>, j: nat, early: bool, i: nat, m: string): Faults
    requires GoodUnits(setup, units)
  {
    FailingAt((if early then WindowSites(j, i, m) else {})
              + QuerySites(j + 1, |units|, Bound(setup, units), AllMeas(units)))
  }

  lemma LosingIsDark(setup: Setup, units: seq<Unit>, j: nat, early: bool, i: nat, m: string, n: nat, pass: nat, w: nat)
    requires GoodUnits(setup, units) && j < n < |units|
    requires pass <= Bound(setup, units) && w <= Bound(setup, units)
    ensures Dark(UnitCopy(setup, units[n], n, LosingFaults(setup, units, j, early, i, m)), pass, w)
  {
    hide Bound;
    var bound := Bound(setup, units);
    var sites := (if early then WindowSites(j, i, m) else {}) + QuerySites(j + 1, |units|, bound, AllMeas(units));
    forall x | x in units[n].meas
      ensures !ReadSucceeds(FailingAt(sites), Place(n, pass, w, x), setup.cfg.rwMaxRetries)
    {
      assert units[n] in units;
      NoAnswer(sites, Place(n, pass, w, x), setup.cfg.rwMaxRetries);
    }
  }

  lemma LosingIsClean(setup: Setup, units: seq<Unit>, j: nat, early: bool, i: nat, m: string, k: nat)
    requires GoodUnits(setup, units) && k <= j && k < |units|
    ensures var c := UnitCopy(setup, units[k], k, LosingFaults(setup, units, j, early, i, m));
            CleanFrom(c, if early && k == j then 1 else 0)
  {
    hide Bound;
  }

  lemma LosingIsUnread(setup: Setup, units: seq<Unit>, j: nat, i: nat, m: string)
    requires GoodUnits(setup, units) && j < |units|
    ensures !MeasRead(UnitCopy(setup, units[j], j, LosingFaults(setup, units, j, true, i, m)), 0, i, m)
  {
    hide Bound;
    var sites := WindowSites(j, i, m) + QuerySites(j + 1, |units|, Bound(setup, units), AllMeas(units));
    NoAnswer(sites, Place(j, 0, i, m), setup.cfg.rwMaxRetries);
  }

  // ------------------------------------------------------------------- whole replications

  lemma ReplicateNext(setup: Setup, units: seq<Unit>, faults: Faults, s: Db, n: nat)
    requires GoodUnits(setup, units) && n < |units|
    ensures var before := Replicate(setup, units[..n], faults, s);
            var c := UnitCopy(setup, units[n], n, faults);
            var r := CopyOutcome(c, UnitPlan(setup, units[n]), setup.chunk, setup.maxret, before.store);
            Replicate(setup, units[..n + 1], faults, s) == Replicated(r.store, before.bads + [r.bad])
  {
    hide CopyOutcome, UnitPlan, GoodUnit;
    assert units[..n + 1][..n] == units[..n];
  }

  lemma {:induction false} BadsStay(setup: Setup, units: seq<Unit>, faults: Faults, s: Db, n: nat, k: nat)
    requires GoodUnits(setup, units) && k < n <= |units|
    ensures var r, r' := Replicate(setup, units[..n], faults, s), Replicate(setup, units, faults, s);
            |r.bads| == n && |r'.bads| == |units| && r'.bads[k] == r.bads[k]
    decreases |units|
  {
    hide CopyOutcome, UnitPlan, GoodUnit;
    BadsCount(setup, units[..n], faults, s);
    BadsCount(setup, units, faults, s);
    if n == |units| {
      assert units[..n] == units;
    } else {
      var l := |units| - 1;
      assert units[..l][..n] == units[..n];
      BadsStay(setup, units[..l], faults, s, n, k);
    }
  }

  /** The units after j change nothing. */
  lemma {:induction false} DarkTail(setup: Setup, units: seq<Unit>, faults: Faults, s: Db, j: nat, n: nat)
    requires GoodUnits(setup, units) && j < n <= |units|
    requires var bound := Bound(setup, units);
             forall k, pass: nat, i: nat :: j < k < |units| && pass <= bound && i <= bound ==>
               Dark(UnitCopy(setup, units[k], k, faults), pass, i)
    ensures Replicate(setup, units[..n], faults, s).store == Replicate(setup, units[..j + 1], faults, s).store
    decreases n
  {
    hide CopyOutcome, UnitPlan, Dark, Bound, SubCount, DistinctNames, Fits;
    if n > j + 1 {
      DarkTail(setup, units, faults, s, j, n - 1);
      ReplicateNext(setup, units, faults, s, n - 1);
      BoundIs(setup, units, n - 1);
      var before := Replicate(setup, units[..n - 1], faults, s).store;
      DarkCopy(UnitCopy(setup, units[n - 1], n - 1, faults), UnitPlan(setup, units[n - 1]), setup.chunk, setup.maxret,
               before, Bound(setup, units));
    }
  }

  // ----------------------------------------------------------------------- the theorem

  /** Whatever fails, and whatever the slave held before, the point of unit k is on the slave when all
      the copies are over, or in a bad chunk of its own. */
  ghost predicate NeverLostIn(setup: Setup, units: seq<Unit>, k: nat, p: Point)
    requires GoodUnits(setup, units) && k < |units|
  {
    forall faults: Faults, s: Db :: HeldOrBad(setup, units, faults, s, k, p)
  }

  ghost predicate HeldOrBad(setup: Setup, units: seq<Unit>, faults: Faults, s: Db, k: nat, p: Point)
    requires GoodUnits(setup, units) && k < |units|
  {
    var r := Replicate(setup, units, faults, s);
    k < |r.bads| && (Holds(r.store, units[k].dst, p) || InBad(r.bads[k], p.time))
  }

  /** Two points of a cell that both are held agree. */
  lemma HeldAgree(s: Db, dst: Dest, p: Point, q: Point)
    requires Holds(s, dst, p) && Holds(s, dst, q) && KeyOf(dst, p) == KeyOf(dst, q)
    ensures !Disagree(p, q)
  {
    var c := Cell(s, KeyOf(dst, p)).value;
    forall f | f in p.fields && f in q.fields ensures p.fields[f] == q.fields[f] {
      assert (c + p.fields)[f] == (c + q.fields)[f];
    }
  }

  /** Unit j stores its point q under these failures, and the slave has it at the end. */
  lemma UnitWrites(setup: Setup, units: seq<Unit>, j: nat, early: bool, i: nat, q: Point)
    requires GoodUnits(setup, units) && ValidMaster(setup.master) && j < |units|
    requires Row(units[j].sdb, units[j].srp, q) in setup.master && q.meas in units[j].meas
    requires var plan := UnitPlan(setup, units[j]);
             i < plan.count && if early then InSomeWindow(SubPlan(plan, i, setup.chunk, setup.maxret), q.time)
                               else InWindow(plan, i, q.time)
    ensures var faults := LosingFaults(setup, units, j, early, i, q.meas);
            Holds(Replicate(setup, units, faults, map[]).store, units[j].dst, q)
  {
    hide ValidMaster, Bound, Holds, SubPlan, InWindow, Replicate, LosingFaults, NoFaults, MeasRead;
    hide CopyOutcome, UnitPlan, Dark;
    var faults := LosingFaults(setup, units, j, early, i, q.meas);
    var c, plan := UnitCopy(setup, units[j], j, faults), UnitPlan(setup, units[j]);
    var before := Replicate(setup, units[..j], faults, map[]).store;
    LosingIsClean(setup, units, j, early, i, q.meas, j);
    if early {
      LosingIsUnread(setup, units, j, i, q.meas);
      RecoveryStores(c, plan, setup.chunk, setup.maxret, before, i, q);
    } else {
      CleanCopyStores(c, plan, setup.chunk, setup.maxret, before, i, q);
    }
    ReplicateNext(setup, units, faults, map[], j);
    forall n, pass: nat, w: nat | j < n < |units| && pass <= Bound(setup, units) && w <= Bound(setup, units)
      ensures Dark(UnitCopy(setup, units[n], n, faults), pass, w)
    {
      LosingIsDark(setup, units, j, early, i, q.meas, n, pass, w);
    }
    DarkTail(setup, units, faults, map[], j, |units|);
    assert units[..|units|] == units;
  }

  lemma NothingReported(setup: Setup, units: seq<Unit>, j: nat, early: bool, i: nat, m: string, k: nat)
    requires GoodUnits(setup, units) && k < j < |units|
    ensures var r := Replicate(setup, units, LosingFaults(setup, units, j, early, i, m), map[]);
            k < |r.bads| && r.bads[k] == []
  {
    hide Bound, Replicate, LosingFaults, NoFaults, CopyOutcome, UnitPlan;
    var faults := LosingFaults(setup, units, j, early, i, m);
    LosingIsClean(setup, units, j, early, i, m, k);
    CleanCopyReports(UnitCopy(setup, units[k], k, faults), UnitPlan(setup, units[k]), setup.chunk, setup.maxret,
                     Replicate(setup, units[..k], faults, map[]).store);
    ReplicateNext(setup, units, faults, map[], k);
    BadsCount(setup, units[..k], faults, map[]);
    BadsStay(setup, units, faults, map[], k + 1, k);
  }

  /** A conflicting unit can write over the point, and nobody is told. */
  lemma ConflictLoses(setup: Setup, units: seq<Unit>, k: nat, p: Point, j: nat)
    requires GoodUnits(setup, units) && ValidMaster(setup.master) && k < j < |units|
    requires Conflicts(setup, units[j], units[k].dst, p)
    ensures !NeverLostIn(setup, units, k, p)
  {
    hide ValidMaster, Bound, Holds, SubPlan, InWindow, Replicate, LosingFaults, UnitPlan, Disagree;
    var dst := units[k].dst;
    var q :| Row(units[j].sdb, units[j].srp, q) in setup.master && q.meas in units[j].meas
      && KeyOf(dst, q) == KeyOf(dst, p) && Disagree(p, q);
    var early, i := HowRead(UnitPlan(setup, units[j]), setup.chunk, setup.maxret, p.time);
    UnitWrites(setup, units, j, early, i, q);
    NothingReported(setup, units, j, early, i, q.meas, k);
    var faults := LosingFaults(setup, units, j, early, i, q.meas);
    var r := Replicate(setup, units, faults, map[]);
    if Holds(r.store, dst, p) {
      HeldAgree(r.store, dst, p, q);
    }
    assert !HeldOrBad(setup, units, faults, map[], k, p);
  }

  lemma HowRead(plan: Plan, chunk: int, maxret: int, t: int) returns (early: bool, i: nat)
    requires chunk >= 10 && maxret >= 0 && Readable(plan, chunk, maxret, t)
    ensures i < plan.count
    ensures if early then InSomeWindow(SubPlan(plan, i, chunk, maxret), t) else InWindow(plan, i, t)
  {
    if InSomeWindow(plan, t) {
      early := false;
      i :| 0 <= i < plan.count && InWindow(plan, i, t);
    } else {
      early := true;
      i :| 0 <= i < plan.count && InSomeWindow(SubPlan(plan, i, chunk, maxret), t);
    }
  }

  /** A point of unit k at a covered instant is never lost in silence exactly when no later unit
      conflicts with it: none that may read the instant has, for the same target, series and time,
      another value of one of its fields. */
  lemma ReplicationExact(setup: Setup, units: seq<Unit>, k: nat, p: Point)
    requires GoodUnits(setup, units) && ValidMaster(setup.master) && k < |units|
    requires Row(units[k].sdb, units[k].srp, p) in setup.master && p.meas in units[k].meas
    requires Covered(UnitPlan(setup, units[k]), setup.chunk, setup.maxret, p.time)
    ensures NeverLostIn(setup, units, k, p) <==> NoConflict(setup, units, k, p)
  {
    hide ValidMaster, Holds, Covered, Replicate, UnitPlan, Kept, Conflicts;
    if NoConflict(setup, units, k, p) {
      forall faults: Faults, s: Db ensures HeldOrBad(setup, units, faults, s, k, p) {
        ReplicationAccounts(setup, units, faults, s, k, p);
        var r := Replicate(setup, units, faults, s);
        if Kept(setup, units, k, r.store, p) {
          KeptIsHeld(setup, units, k, r.store, p);
        }
      }
    } else {
      var j :| k < j < |units| && Conflicts(setup, units[j], units[k].dst, p);
      ConflictLoses(setup, units, k, p, j);
    }
  }

  /** When all units copy one range, as those of ReplicateData do, the later unit's having such a
      point is enough. */
  lemma OneRangeExact(setup: Setup, units: seq<Unit>, k: nat, p: Point)
    requires GoodUnits(setup, units) && ValidMaster(setup.master) && k < |units|
    requires forall u :: u in units ==> u.start == units[k].start && u.end == units[k].end
    requires Row(units[k].sdb, units[k].srp, p) in setup.master && p.meas in units[k].meas
    requires Covered(UnitPlan(setup, units[k]), setup.chunk, setup.maxret, p.time)
    ensures NeverLostIn(setup, units, k, p)
       <==> forall j :: k < j < |units| ==> !Rival(setup, units[j], units[k].dst, p)
  {
    hide ValidMaster, Rival, NeverLostIn;
    ReplicationExact(setup, units, k, p);
    forall j | k < j < |units| ensures MayRead(setup, units[j], p.time) {
      assert units[j] in units;
      assert UnitPlan(setup, units[j]) == UnitPlan(setup, units[k]);
    }
  }

  /** The same of a full copy, whose units have ranges of their own. */
  lemma FullCopyExact(setup: Setup, schema: seq<InfluxSchDb>, clock: nat -> int, d: InfluxSchDb, i: nat)
    returns (k: nat)
    requires setup.chunk > 0 && setup.chunk % (10 * SECOND) == 0 && setup.maxret >= setup.chunk
    requires ValidMaster(setup.master) && GoodPolicies(schema) && d in schema && i < |d.rps|
    ensures GoodUnits(setup, FullUnits(schema, setup.maxret, clock))
    ensures k < |FullUnits(schema, setup.maxret, clock)|
    ensures FullUnits(schema, setup.maxret, clock)[k] == FullUnit(d, d.rps[i], setup.maxret, clock(k))
    ensures forall p :: Row(d.name, d.rps[i].name, p) in setup.master && p.meas in d.rps[i].measurements
                        && FullPromised(setup, d.rps[i].settings.duration, clock(k), p.time) ==>
              var units := FullUnits(schema, setup.maxret, clock);
              NeverLostIn(setup, units, k, p) <==> NoConflict(setup, units, k, p)
  {
    hide NeverLostIn, NoConflict, FullPromised, FullUnits, Covered, ValidMaster, GoodUnit, UnitPlan;
    FullUnitsGood(setup, schema, clock);
    k := FullUnitAt(schema, setup.maxret, clock, d, i);
    var units := FullUnits(schema, setup.maxret, clock);
    assert d.rps[i] in d.rps;
    forall p | Row(d.name, d.rps[i].name, p) in setup.master && p.meas in d.rps[i].measurements
               && FullPromised(setup, d.rps[i].settings.duration, clock(k), p.time)
      ensures NeverLostIn(setup, units, k, p) <==> NoConflict(setup, units, k, p)
    {
      FullPromisedCovered(setup, d, d.rps[i], clock(k), p.time);
      ReplicationExact(setup, units, k, p);
    }
  }

  // ------------------------------------------------------ two databases renamed to one

  function Reading(v: int): Point {
    Point("m", map[], 11 * SECOND / 2, map["v" := Integer(v)])
  }

  const KEPT_FOR_EVER := RetPol("r", Settings(0, 1, 0), true, [])

  const TWO_DATABASES := MasterCatalog(["a", "b"], map["a" := [KEPT_FOR_EVER], "b" := [KEPT_FOR_EVER]],
    map[("a", "r") := ["m"], ("b", "r") := ["m"]])

  /** Both have a value of the same series at 5.5 s. */
  const TWO_READINGS := Setup([Row("a", "r", Reading(1)), Row("b", "r", Reading(2))], Config(1, 1, 1),
    10 * SECOND, 10 * SECOND)

  const ALL := Filters(NoFilter, NoFilter, NoFilter)

  function Taken(name: string): InfluxSchDb {
    InfluxSchDb(name, name, "r", "r", [KEPT_FOR_EVER.(measurements := ["m"])])
  }

  lemma TakenIs(name: string)
    requires name in TWO_DATABASES.dbs
    ensures EntryOf(TWO_DATABASES, ALL, name) == Keep(Taken(name))
  {
    hide EntryOf, Selected, DefaultOf;
    OneSelected();
    KeepsEntry(TWO_DATABASES, name, [KEPT_FOR_EVER], "r");
    assert NamesOf(TWO_DATABASES, name, "r") == ["m"];
    assert FilledPolicies(TWO_DATABASES, ALL, name, [KEPT_FOR_EVER]) == Taken(name).rps;
  }

  lemma KeepsEntry(cat: MasterCatalog, db: string, rps: seq<RetPol>, def: string)
    requires db != INTERNAL && db in cat.policies && cat.policies[db] == rps && DefaultOf(rps, NoFilter) == Some(def)
    ensures EntryOf(cat, ALL, db) == Keep(InfluxSchDb(db, db, def, def, FilledPolicies(cat, ALL, db, rps)))
  {
    hide FilledPolicies, DefaultOf;
  }

  lemma OneSelected()
    ensures Selected(["m"], NoFilter) == ["m"] && DefaultOf([KEPT_FOR_EVER], NoFilter) == Some("r")
  {
    assert ["m"][..0] == [] && Selected([], NoFilter) == [];
    assert [] + ["m"] == ["m"];
  }

  lemma TwoTaken()
    ensures FullSchema(TWO_DATABASES, ALL) == Some([Taken("a"), Taken("b")])
  {
    TakenIs("a");
    TakenIs("b");
    KeepOneMore([], "a", Taken("a"), []);
    KeepOneMore([] + ["a"], "b", Taken("b"), [] + [Taken("a")]);
    assert TWO_DATABASES.dbs == [] + ["a"] + ["b"];
    assert [] + [Taken("a")] + [Taken("b")] == [Taken("a"), Taken("b")];
  }

  lemma KeepOneMore(dbs: seq<string>, name: string, d: InfluxSchDb, found: seq<InfluxSchDb>)
    requires SchemaOf(TWO_DATABASES, ALL, dbs) == Some(found) && EntryOf(TWO_DATABASES, ALL, name) == Keep(d)
    ensures SchemaOf(TWO_DATABASES, ALL, dbs + [name]) == Some(found + [d])
  {
    hide EntryOf;
    assert (dbs + [name])[..|dbs|] == dbs;
  }

  function UnitToX(name: string): Unit {
    Unit(name, "r", Dest("x", "r"), ["m"], 0, 10 * SECOND)
  }

  lemma TwoUnits()
    ensures FullSchema(TWO_DATABASES, ALL).Some?
    ensures DataUnits(Renamed(FullSchema(TWO_DATABASES, ALL).value, "x", ""), 0, 10 * SECOND)
         == [UnitToX("a"), UnitToX("b")]
  {
    TwoTaken();
    var a, b := Taken("a").(newName := "x"), Taken("b").(newName := "x");
    assert Renamed([Taken("a"), Taken("b")], "x", "") == [a, b];
    assert PolicyUnits(a, 0, 10 * SECOND) == [UnitToX("a")] && PolicyUnits(b, 0, 10 * SECOND) == [UnitToX("b")];
    assert [a, b][..1] == [a] && [a][..0] == [];
    assert DataUnits([], 0, 10 * SECOND) == [];
    assert DataUnits([a], 0, 10 * SECOND) == [] + [UnitToX("a")];
    assert DataUnits([a, b], 0, 10 * SECOND) == [UnitToX("a")] + [UnitToX("b")];
  }

  lemma ReadingsAreGood()
    ensures ValidMaster(TWO_READINGS.master)
    ensures GoodUnit(TWO_READINGS, UnitToX("a")) && GoodUnit(TWO_READINGS, UnitToX("b"))
    ensures UnitPlan(TWO_READINGS, UnitToX("a")) == UnitPlan(TWO_READINGS, UnitToX("b")) == Plan(10, 10, 2)
  {
    var master := TWO_READINGS.master;
    forall r | r in master ensures Storable(r.point) {
      assert "v" in r.point.fields;
    }
    forall db, rp ensures UniqueKeys(PointsAt(master, db, rp)) {
      assert forall p :: p in PointsAt(master, db, rp) ==> Row(db, rp, p) == master[0] || Row(db, rp, p) == master[1];
    }
  }

  /** Copied with -newdb x, the reading of database "a" is written over by that of "b": it can be lost
      though its instant is covered. */
  lemma RenamedToOne()
    ensures FullSchema(TWO_DATABASES, ALL).Some?
    ensures var units := DataUnits(Renamed(FullSchema(TWO_DATABASES, ALL).value, "x", ""), 0, 10 * SECOND);
            && GoodUnits(TWO_READINGS, units) && |units| == 2
            && Row(units[0].sdb, units[0].srp, Reading(1)) in TWO_READINGS.master && Reading(1).meas in units[0].meas
            && Covered(UnitPlan(TWO_READINGS, units[0]), TWO_READINGS.chunk, TWO_READINGS.maxret, Reading(1).time)
            && !NeverLostIn(TWO_READINGS, units, 0, Reading(1))
  {
    TwoUnits();
    ReadingsAreGood();
    ReadingIsCovered();
    ReadingsDisagree();
    assert TWO_READINGS.master[0] == Row("a", "r", Reading(1));
    assert Reading(1).meas in UnitToX("a").meas;
    hide ValidMaster, Rival, NeverLostIn, Covered, FullSchema, Renamed, DataUnits, UnitPlan, Reading, GoodUnit;
    LaterWins(TWO_READINGS, UnitToX("a"), UnitToX("b"), Reading(1));
  }

  lemma LaterWins(setup: Setup, a: Unit, b: Unit, p: Point)
    requires GoodUnit(setup, a) && GoodUnit(setup, b) && ValidMaster(setup.master)
    requires a.start == b.start && a.end == b.end
    requires Row(a.sdb, a.srp, p) in setup.master && p.meas in a.meas
    requires Covered(UnitPlan(setup, a), setup.chunk, setup.maxret, p.time) && Rival(setup, b, a.dst, p)
    ensures GoodUnits(setup, [a, b]) && !NeverLostIn(setup, [a, b], 0, p)
  {
    hide ValidMaster, Rival, NeverLostIn, Covered, UnitPlan, GoodUnit;
    var units := [a, b];
    assert units[1] == b;
    OneRangeExact(setup, units, 0, p);
  }

  lemma ReadingIsCovered()
    ensures Covered(Plan(10, 10, 2), 10 * SECOND, 10 * SECOND, Reading(1).time)
  {
    CoveredTenths(Plan(10, 10, 2), 10 * SECOND, 10 * SECOND, Reading(1).time);
  }

  lemma ReadingsDisagree()
    ensures Rival(TWO_READINGS, UnitToX("b"), Dest("x", "r"), Reading(1))
  {
    assert Reading(1).fields["v"] != Reading(2).fields["v"];
    assert Disagree(Reading(1), Reading(2));
    assert TWO_READINGS.master[1] == Row("b", "r", Reading(2));
  }
}
