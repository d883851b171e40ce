/** Which instants a copy is safe for, exactly, what it may touch, and what its report adds up. */
module CopyExact {
  import opened Wrappers
  import opened GoTime
  import opened Store
  import opened Faults
  import opened Client
  import opened Windows
  import opened WorkerPool
  import opened SyncEngine
  import opened CopyTheorems

  // --------------------------------------------------------------- soundness and frame

  lemma {:induction false} RecoverFeedsIn(c: Copy, bad: seq<ChunkReport>, n: nat, chunk: int, maxret: int,
        s: Db, lo: int, hi: int)
    requires ValidCopy(c) && chunk >= 10 && maxret >= 0 && n <= |bad| && ProperReports(bad)
    requires forall k :: 0 <= k < n ==>
      var sub := RecoveryPlan(bad[k], chunk, maxret); lo <= Edge(sub, sub.count) && sub.end <= hi
    ensures FedIn(c, s, Recover(c, bad, n, chunk, maxret, s).store, lo, hi)
  {
    hide FedIn, RunPass, ValidCopy, RecoveryPlan;
    if n == 0 {
      FedInReflexive(c, s, lo, hi);
    } else {
      RecoverFeedsIn(c, bad, n - 1, chunk, maxret, s, lo, hi);
      RecoverStep(c, bad, n - 1, chunk, maxret, s);
      var before := Recover(c, bad, n - 1, chunk, maxret, s).store;
      var sub := RecoveryPlan(bad[n - 1], chunk, maxret);
      PassFeedsIn(c, n, sub, sub.count, before, lo, hi);
      FedInTransitive(c, s, before, Recover(c, bad, n, chunk, maxret, s).store, lo, hi);
    }
  }

  lemma FedInReflexive(c: Copy, s: Db, lo: int, hi: int)
    ensures FedIn(c, s, s, lo, hi)
  {
    MergedReflexive(s, c.dst, SourceIn(c, lo, hi));
  }

  /** A failed window of the first pass and its report are the same window. */
  lemma BadWindow(c: Copy, plan: Plan, s: Db, k: nat, chunk: int, maxret: int) returns (i: nat)
    requires chunk >= 10 && maxret >= 0
    requires k < |Bad(RunPass(c, 0, plan, plan.count, s).reports)|
    ensures var rs := RunPass(c, 0, plan, plan.count, s).reports;
            && i < plan.count == |rs| && Bad(rs)[k] == rs[i] && HasErrors(rs[i])
            && rs[i].timeStart <= rs[i].timeEnd
            && RecoveryPlan(Bad(rs)[k], chunk, maxret) == SubPlan(plan, i, chunk, maxret)
  {
    hide WindowRun;
    var rs := RunPass(c, 0, plan, plan.count, s).reports;
    PassReports(c, 0, plan, plan.count, s);
    BadExact(rs, Bad(rs)[k]);
    i :| 0 <= i < |rs| && rs[i] == Bad(rs)[k];
    RecoveryPlanIs(c, plan, i, chunk, maxret, s);
  }

  /** How far back of the oldest edge a recovery may read. */
  function OldestRead(plan: Plan, chunk: int, maxret: int): int
    requires chunk >= 10 && maxret >= 0
  {
    if plan.count == 0 then plan.end
    else
      var sub := SubPlan(plan, plan.count - 1, chunk, maxret);
      Min(Edge(plan, plan.count), Edge(sub, sub.count))
  }

  lemma SubPlansShift(plan: Plan, i: nat, chunk: int, maxret: int)
    requires chunk >= 10 && maxret >= 0 && i < plan.count
    ensures var sub := SubPlan(plan, i, chunk, maxret);
            OldestRead(plan, chunk, maxret) <= Edge(sub, sub.count) && sub.end <= plan.end
  {
    EdgesDescend(plan, 0, i);
    EdgeStep(plan, 0);
    EdgesDescend(plan, i, plan.count - 1);
  }

  /** For every pattern of failures the slave ends as it was with some of the eligible points of
      the time range merged in, none of them changed. */
  lemma CopySound(c: Copy, plan: Plan, chunk: int, maxret: int, s: Db)
    requires ValidCopy(c) && chunk >= 10 && maxret >= 0
    ensures FedIn(c, s, CopyOutcome(c, plan, chunk, maxret, s).store, OldestRead(plan, chunk, maxret), plan.end)
  {
    hide FedIn, RunPass, ValidCopy, OldestRead, Recover, RecoveryPlan;
    var lo, hi := OldestRead(plan, chunk, maxret), plan.end;
    var first := RunPass(c, 0, plan, plan.count, s);
    var bad := Bad(first.reports);
    PassIsProper(c, 0, plan, plan.count, s);
    OldestReadCovers(plan, chunk, maxret);
    PassFeedsIn(c, 0, plan, plan.count, s, lo, hi);
    forall k | 0 <= k < |bad| ensures
      var sub := RecoveryPlan(bad[k], chunk, maxret); lo <= Edge(sub, sub.count) && sub.end <= hi
    {
      var i := BadWindow(c, plan, s, k, chunk, maxret);
      SubPlansShift(plan, i, chunk, maxret);
    }
    RecoverFeedsIn(c, bad, |bad|, chunk, maxret, first.store, lo, hi);
    FedInTransitive(c, s, first.store, CopyOutcome(c, plan, chunk, maxret, s).store, lo, hi);
  }

  lemma OldestReadCovers(plan: Plan, chunk: int, maxret: int)
    requires chunk >= 10 && maxret >= 0
    ensures OldestRead(plan, chunk, maxret) <= Edge(plan, plan.count)
  {
    EdgeStep(plan, 0);
  }

  /** With chunks of whole tens of seconds the oldest read is a tenth of a window further back. */
  lemma OldestReadTenths(plan: Plan, chunk: int, maxret: int)
    requires chunk > 0 && chunk % (10 * SECOND) == 0 && maxret >= chunk
    requires plan.width == chunk / SECOND && plan.count > 0
    ensures OldestRead(plan, chunk, maxret) == Edge(plan, plan.count) - plan.width / 10
  {
    RecoveryRefines(plan, plan.count - 1, chunk, maxret);
  }

  /** Cells of another database, policy or measurement, or outside the time range, stay. */
  lemma CopyFrame(c: Copy, plan: Plan, chunk: int, maxret: int, s: Db, k: Key)
    requires ValidCopy(c) && chunk >= 10 && maxret >= 0
    requires k.db != c.dst.db || k.rp != c.dst.rp || k.meas !in c.meas
             || !InRange(OldestRead(plan, chunk, maxret), plan.end, k.time)
    ensures Cell(CopyOutcome(c, plan, chunk, maxret, s).store, k) == Cell(s, k)
  {
    CopySound(c, plan, chunk, maxret, s);
    hide RunPass, Recover, CopyOutcome, OldestRead;
    var s' := CopyOutcome(c, plan, chunk, maxret, s).store;
    assert CellMerged(s, s', c.dst, SourceIn(c, OldestRead(plan, chunk, maxret), plan.end), k);
  }

  /** Every chunk still bad at the end lies within a failed window of the first pass and the
      sub-windows its recovery adds on the older side. */
  lemma FinalBadSpan(c: Copy, plan: Plan, chunk: int, maxret: int, s: Db, r: ChunkReport)
    requires chunk >= 10 && maxret >= 0 && r in CopyOutcome(c, plan, chunk, maxret, s).bad
    ensures HasErrors(r)
    ensures exists i :: 0 <= i < plan.count && WindowFailed(c, plan, s, i)
              && var sub := SubPlan(plan, i, chunk, maxret);
                 Edge(sub, sub.count) <= r.timeStart <= r.timeEnd <= Edge(plan, i)
  {
    hide RunPass, WindowFailed;
    var first := RunPass(c, 0, plan, plan.count, s);
    var bad := Bad(first.reports);
    PassIsProper(c, 0, plan, plan.count, s);
    var k := RecoverBadFrom(c, bad, |bad|, chunk, maxret, first.store, r);
    var i := BadWindow(c, plan, s, k, chunk, maxret);
    FailedWindow(c, plan, s, i);
  }

  /** Window i of the first pass was reported with errors. */
  ghost predicate WindowFailed(c: Copy, plan: Plan, s: Db, i: nat) {
    var rs := RunPass(c, 0, plan, plan.count, s).reports;
    i < |rs| && HasErrors(rs[i])
  }

  lemma FailedWindow(c: Copy, plan: Plan, s: Db, i: nat)
    requires var rs := RunPass(c, 0, plan, plan.count, s).reports; i < |rs| && HasErrors(rs[i])
    ensures WindowFailed(c, plan, s, i)
  {
  }

  lemma {:induction false} RecoverBadFrom(c: Copy, bad: seq<ChunkReport>, n: nat, chunk: int, maxret: int,
        s: Db, r: ChunkReport)
    returns (k: nat)
    requires chunk >= 10 && maxret >= 0 && n <= |bad| && ProperReports(bad)
    requires r in Recover(c, bad, n, chunk, maxret, s).bad
    ensures k < n && HasErrors(r)
    ensures var sub := RecoveryPlan(bad[k], chunk, maxret);
            Edge(sub, sub.count) <= r.timeStart <= r.timeEnd <= sub.end
  {
    hide RunPass, Bad, RecoveryPlan, Edge, HasErrors;
    RecoverStep(c, bad, n - 1, chunk, maxret, s);
    var before := Recover(c, bad, n - 1, chunk, maxret, s);
    if r in before.bad {
      k := RecoverBadFrom(c, bad, n - 1, chunk, maxret, s, r);
    } else {
      k := n - 1;
      var sub := RecoveryPlan(bad[k], chunk, maxret);
      ReportInPlan(c, n, sub, before.store, r);
    }
  }

  lemma ReportInPlan(c: Copy, pass: nat, plan: Plan, s: Db, r: ChunkReport)
    requires r in Bad(RunPass(c, pass, plan, plan.count, s).reports)
    ensures HasErrors(r) && Edge(plan, plan.count) <= r.timeStart <= r.timeEnd <= plan.end
  {
    hide WindowRun;
    var rs := RunPass(c, pass, plan, plan.count, s).reports;
    PassReports(c, pass, plan, plan.count, s);
    BadExact(rs, r);
    var j :| 0 <= j < |rs| && rs[j] == r;
    EdgesDescend(plan, j + 1, plan.count);
    EdgeStep(plan, j);
    EdgesDescend(plan, 0, j);
    EdgeStep(plan, 0);
  }

  // ------------------------------------------------- exactly the safe instants

  /** Whatever the master holds, whatever fails and whatever the slave held before, a point
      stamped t ends on the slave or in a reported bad chunk. */
  ghost predicate NeverLost(plan: Plan, chunk: int, maxret: int, t: int)
    requires chunk >= 10 && maxret >= 0
  {
    forall c: Copy, s: Db, p: Point :: ValidCopy(c) && Eligible(c, p) && p.time == t ==>
      Accounted(CopyOutcome(c, plan, chunk, maxret, s), c.dst, p)
  }

  /** A pass none of whose calls fails reports no errors. */
  ghost predicate NoFaults(c: Copy, pass: nat, i: nat) {
    forall site :: site in c.faults ==> !(site.place.copy == c.id && site.place.pass == pass && site.place.window == i)
  }

  lemma CleanJob(env: Env, rs: seq<Point>, at: Place, s: Db)
    requires forall site :: site in env.faults ==> site.place != at
    ensures var t := Complete(env, JobOf(rs, env.cfg, at), Queued, s).tally; t.readErrors == t.writeErrors == 0
  {
    JobMeaning(env, rs, at, s);
    assert QueryErrors(env.faults, at)(1).None?;
    assert ReadSucceeds(env.faults, at, env.cfg.rwMaxRetries);
    forall k: nat ensures BatchAccepted(env.faults, at, k, env.cfg.rwMaxRetries) {
      assert WriteErrors(env.faults, at, k)(1).None?;
    }
  }

  lemma {:induction false} CleanJobs(c: Copy, pass: nat, plan: Plan, i: nat, n: nat, s: Db)
    requires NoFaults(c, pass, i) && n <= |c.meas|
    ensures var t := RunInOrder(Env(c.dst, c.faults, c.cfg), JobsFor(c, pass, plan, i)[..n], s).tally;
            t.readErrors == t.writeErrors == 0
  {
    hide Complete, JobOf, Rows;
    if n > 0 {
      var env := Env(c.dst, c.faults, c.cfg);
      var jobs := JobsFor(c, pass, plan, i);
      assert jobs[..n][..n - 1] == jobs[..n - 1];
      CleanJobs(c, pass, plan, i, n - 1, s);
      var m := c.meas[n - 1];
      CleanJob(env, Rows(c, plan, i, m), Place(c.id, pass, i, m), RunInOrder(env, jobs[..n - 1], s).store);
    }
  }

  lemma CleanWindow(c: Copy, pass: nat, plan: Plan, i: nat, s: Db)
    requires NoFaults(c, pass, i)
    ensures !HasErrors(ReportOf(plan, i, WindowRun(c, pass, plan, i, s).tally))
  {
    CleanJobs(c, pass, plan, i, |c.meas|, s);
    var jobs := JobsFor(c, pass, plan, i);
    assert jobs[..|c.meas|] == jobs;
  }

  /** A window that does not hold the instant leaves the cell alone. */
  lemma WindowSkips(c: Copy, pass: nat, plan: Plan, i: nat, s: Db, k: Key)
    requires ValidCopy(c) && !InWindow(plan, i, k.time)
    ensures Cell(WindowRun(c, pass, plan, i, s).store, k) == Cell(s, k)
  {
    WindowSound(c, pass, plan, i, s);
    hide WindowRun;
    var s' := WindowRun(c, pass, plan, i, s).store;
    assert CellMerged(s, s', c.dst, SourceIn(c, Edge(plan, i + 1), Edge(plan, i)), k);
  }

  lemma {:induction false} PassSkips(c: Copy, pass: nat, plan: Plan, n: nat, s: Db, k: Key)
    requires ValidCopy(c) && forall i :: 0 <= i < n ==> !InWindow(plan, i, k.time)
    ensures Cell(RunPass(c, pass, plan, n, s).store, k) == Cell(s, k)
  {
    hide WindowRun, InWindow, ValidCopy;
    if n > 0 {
      PassSkips(c, pass, plan, n - 1, s, k);
      WindowSkips(c, pass, plan, n - 1, RunPass(c, pass, plan, n - 1, s).store, k);
    }
  }

  lemma {:induction false} RecoverSkips(c: Copy, bad: seq<ChunkReport>, n: nat, chunk: int, maxret: int, s: Db, k: Key)
    requires ValidCopy(c) && chunk >= 10 && maxret >= 0 && n <= |bad| && ProperReports(bad)
    requires forall i :: 0 <= i < n ==> !InSomeWindow(RecoveryPlan(bad[i], chunk, maxret), k.time)
    ensures Cell(Recover(c, bad, n, chunk, maxret, s).store, k) == Cell(s, k)
  {
    hide RunPass, ValidCopy, RecoveryPlan, InWindow;
    if n > 0 {
      RecoverSkips(c, bad, n - 1, chunk, maxret, s, k);
      RecoverStep(c, bad, n - 1, chunk, maxret, s);
      var sub := RecoveryPlan(bad[n - 1], chunk, maxret);
      PassSkips(c, n, sub, sub.count, Recover(c, bad, n - 1, chunk, maxret, s).store, k);
    }
  }

  /** A cell at an instant that the copy cannot read stays as it was, whatever fails. */
  lemma CopySkips(c: Copy, plan: Plan, chunk: int, maxret: int, s: Db, k: Key)
    requires ValidCopy(c) && chunk >= 10 && maxret >= 0 && !Readable(plan, chunk, maxret, k.time)
    ensures Cell(CopyOutcome(c, plan, chunk, maxret, s).store, k) == Cell(s, k)
  {
    hide RunPass, ValidCopy, RecoveryPlan, Recover, SubPlan, InWindow;
    var first := RunPass(c, 0, plan, plan.count, s);
    var bad := Bad(first.reports);
    PassIsProper(c, 0, plan, plan.count, s);
    PassSkips(c, 0, plan, plan.count, s, k);
    forall i | 0 <= i < |bad| ensures !InSomeWindow(RecoveryPlan(bad[i], chunk, maxret), k.time) {
      var w := BadWindow(c, plan, s, i, chunk, maxret);
    }
    RecoverSkips(c, bad, |bad|, chunk, maxret, first.store, k);
  }

  /** The window changes nothing at k and reports no errors. */
  ghost predicate Quiet(c: Copy, pass: nat, plan: Plan, i: nat, k: Key) {
    forall s :: var e := WindowRun(c, pass, plan, i, s);
      Cell(e.store, k) == Cell(s, k) && !HasErrors(ReportOf(plan, i, e.tally))
  }

  lemma WindowQuiet(c: Copy, pass: nat, plan: Plan, i: nat, k: Key)
    requires ValidCopy(c) && NoFaults(c, pass, i) && !InWindow(plan, i, k.time)
    ensures Quiet(c, pass, plan, i, k)
  {
    hide WindowRun, NoFaults, ValidCopy, InWindow, HasErrors;
    forall s ensures var e := WindowRun(c, pass, plan, i, s);
      Cell(e.store, k) == Cell(s, k) && !HasErrors(ReportOf(plan, i, e.tally))
    {
      WindowSkips(c, pass, plan, i, s, k);
      CleanWindow(c, pass, plan, i, s);
    }
  }

  lemma QuietStep(c: Copy, pass: nat, plan: Plan, i: nat, s: Db, k: Key)
    requires Quiet(c, pass, plan, i, k)
    ensures var before, after := RunPass(c, pass, plan, i, s), RunPass(c, pass, plan, i + 1, s);
            Cell(after.store, k) == Cell(before.store, k) && Bad(after.reports) == Bad(before.reports)
  {
    hide WindowRun, HasErrors;
    var before := RunPass(c, pass, plan, i, s);
    var e := WindowRun(c, pass, plan, i, before.store);
    PassStep(c, pass, plan, i, s, before, e);
    AppendReport(0, before.reports, ReportOf(plan, i, e.tally));
  }

  /** A clean pass with no window over the instant: the cell stays and nothing is reported. */
  lemma {:induction false} QuietPass(c: Copy, pass: nat, plan: Plan, n: nat, s: Db, k: Key)
    requires forall i :: 0 <= i < n ==> Quiet(c, pass, plan, i, k)
    ensures Cell(RunPass(c, pass, plan, n, s).store, k) == Cell(s, k)
    ensures Bad(RunPass(c, pass, plan, n, s).reports) == []
  {
    hide WindowRun, Quiet;
    if n > 0 {
      hide RunPass, Bad;
      QuietPass(c, pass, plan, n - 1, s, k);
      QuietStep(c, pass, plan, n - 1, s, k);
    }
  }

  /** The copy of one point, stamped t, that fails to read window `window` in the first pass. */
  function Witness(t: int, window: nat): Copy {
    Copy([Row("d", "r", LonePoint(t))], "d", "r", Dest("d", "r"), ["m"], Config(1, 1, 1),
         map[Site(Place(0, 0, window, "m"), QueryCall(1)) := []], 0)
  }

  function LonePoint(t: int): Point {
    Point("m", map[], t, map["v" := Integer(0)])
  }

  lemma WitnessValid(t: int, window: nat)
    requires IsInt64(t)
    ensures ValidCopy(Witness(t, window)) && Eligible(Witness(t, window), LonePoint(t))
  {
    var c := Witness(t, window);
    assert c.master[0] == Row("d", "r", LonePoint(t));
    assert LonePoint(t).fields["v"] == Integer(0);
    forall r | r in c.master ensures r == c.master[0] {
    }
    forall db, rp ensures UniqueKeys(PointsAt(c.master, db, rp)) {
    }
  }

  /** The failing window reports an error and writes nothing. */
  lemma WitnessWindow(t: int, plan: Plan, i: nat, s: Db)
    ensures var e := WindowRun(Witness(t, i), 0, plan, i, s);
            e.store == s && e.tally == Tally(1, 0, 0)
  {
    var c := Witness(t, i);
    var env := Env(c.dst, c.faults, c.cfg);
    var jobs := JobsFor(c, 0, plan, i);
    var at := Place(0, 0, i, "m");
    var rs := Rows(c, plan, i, "m");
    WitnessUnread(c, at);
    JobMeaning(env, rs, at, s);
    OneJob(env, jobs, s);
  }

  lemma WitnessUnread(c: Copy, at: Place)
    requires Site(at, QueryCall(1)) in c.faults && c.cfg.rwMaxRetries == 1
    ensures !ReadSucceeds(c.faults, at, c.cfg.rwMaxRetries)
  {
    var errs := QueryErrors(c.faults, at);
    assert errs(1).Some?;
  }

  lemma OneJob(env: Env, jobs: seq<Job>, s: Db)
    requires |jobs| == 1
    ensures RunInOrder(env, jobs, s) == Complete(env, jobs[0], Queued, s)
  {
    assert jobs[..0] == [];
    assert RunInOrder(env, [], s) == Effect(s, Tally(0, 0, 0));
  }

  function WitnessReport(plan: Plan, i: nat): ChunkReport {
    ReportOf(plan, i, Tally(1, 0, 0))
  }

  /** After n windows of a pass in which window i alone fails, the report has that window alone
      and the point's cell is as it was. */
  ghost predicate WitnessState(t: int, plan: Plan, i: nat, n: nat, s: Db) {
    var c := Witness(t, i);
    var r := RunPass(c, 0, plan, n, s);
    var k := KeyOf(c.dst, LonePoint(t));
    && Cell(r.store, k) == Cell(s, k)
    && Bad(r.reports) == if i < n then [WitnessReport(plan, i)] else []
  }

  lemma WitnessStart(t: int, plan: Plan, i: nat, s: Db)
    ensures WitnessState(t, plan, i, 0, s)
  {
    hide Witness, LonePoint, Cell, KeyOf, WindowRun;
  }

  lemma WitnessOther(t: int, plan: Plan, i: nat, j: nat, s: Db)
    requires IsInt64(t) && j != i && !InWindow(plan, j, t) && WitnessState(t, plan, i, j, s)
    ensures WitnessState(t, plan, i, j + 1, s)
  {
    hide Witness, InWindow, LonePoint, WindowRun, RunPass, Bad, Quiet, ValidCopy, NoFaults, WitnessReport, Cell;
    WitnessValid(t, i);
    WitnessClean(t, i, 0, j);
    LonePointTime(t);
    var c := Witness(t, i);
    var k := KeyOf(c.dst, LonePoint(t));
    WindowQuiet(c, 0, plan, j, k);
    QuietStep(c, 0, plan, j, s, k);
  }

  lemma LonePointTime(t: int)
    ensures LonePoint(t).time == t
  {
  }

  lemma WitnessStep(t: int, plan: Plan, i: nat, s: Db)
    requires WitnessState(t, plan, i, i, s)
    ensures WitnessState(t, plan, i, i + 1, s)
  {
    hide WindowRun, Witness, LonePoint, RunPass, Bad, Cell;
    var c := Witness(t, i);
    var before := RunPass(c, 0, plan, i, s);
    var r := WitnessReport(plan, i);
    WitnessWindow(t, plan, i, before.store);
    PassStep(c, 0, plan, i, s, before, Effect(before.store, Tally(1, 0, 0)));
    AppendReport(0, before.reports, r);
    assert [] + [r] == [r];
  }

  lemma {:induction false} WitnessPass(t: int, plan: Plan, i: nat, n: nat, s: Db)
    requires IsInt64(t) && forall j :: 0 <= j < n && j != i ==> !InWindow(plan, j, t)
    ensures WitnessState(t, plan, i, n, s)
  {
    hide WitnessState, InWindow;
    if n == 0 {
      WitnessStart(t, plan, i, s);
    } else {
      WitnessPass(t, plan, i, n - 1, s);
      if n - 1 == i {
        WitnessStep(t, plan, i, s);
      } else {
        WitnessOther(t, plan, i, n - 1, s);
      }
    }
  }

  lemma WitnessClean(t: int, i: nat, pass: nat, j: nat)
    requires pass != 0 || j != i
    ensures NoFaults(Witness(t, i), pass, j)
  {
  }

  /** The only bad chunk of the witness's first pass is window i. */
  lemma WitnessBad(plan: Plan, chunk: int, maxret: int, t: int, i: nat)
    requires chunk >= 10 && maxret >= 0 && IsInt64(t) && i < plan.count
    requires forall j :: 0 <= j < plan.count && j != i ==> !InWindow(plan, j, t)
    ensures var c := Witness(t, i);
            var first := RunPass(c, 0, plan, plan.count, map[]);
            var bad := Bad(first.reports);
            && Cell(first.store, KeyOf(c.dst, LonePoint(t))) == None
            && |bad| == 1 && ProperReports(bad)
            && RecoveryPlan(bad[0], chunk, maxret) == SubPlan(plan, i, chunk, maxret)
  {
    hide RunPass, Witness, WindowRun;
    var c := Witness(t, i);
    WitnessPass(t, plan, i, plan.count, map[]);
    PassIsProper(c, 0, plan, plan.count, map[]);
    SubPlanIs(plan, i, chunk, maxret);
  }

  /** The instant lies in window i alone and in no window of its recovery: the point is lost. */
  lemma LostInWindow(plan: Plan, chunk: int, maxret: int, t: int, i: nat)
    requires chunk >= 10 && maxret >= 0 && IsInt64(t) && i < plan.count
    requires forall j :: 0 <= j < plan.count && j != i ==> !InWindow(plan, j, t)
    requires !InSomeWindow(SubPlan(plan, i, chunk, maxret), t)
    ensures var c := Witness(t, i);
            !Accounted(CopyOutcome(c, plan, chunk, maxret, map[]), c.dst, LonePoint(t))
  {
    hide RunPass, Witness, ValidCopy, Eligible, WindowRun, NoFaults, Quiet, SubPlan, RecoveryPlan, InWindow;
    var c := Witness(t, i);
    var k := KeyOf(c.dst, LonePoint(t));
    var first := RunPass(c, 0, plan, plan.count, map[]);
    WitnessBad(plan, chunk, maxret, t, i);
    var bad := Bad(first.reports);
    var sub := RecoveryPlan(bad[0], chunk, maxret);
    WitnessValid(t, i);
    forall j | 0 <= j < sub.count ensures Quiet(c, 1, sub, j, k) {
      WitnessClean(t, i, 1, j);
      WindowQuiet(c, 1, sub, j, k);
    }
    QuietPass(c, 1, sub, sub.count, first.store, k);
    RecoverStep(c, bad, 0, chunk, maxret, first.store);
    assert Recover(c, bad, 0, chunk, maxret, first.store) == Recovery(first.store, []);
  }

  /** The instant lies in no window of the plan: the point is lost without any failure. */
  lemma LostOutside(plan: Plan, chunk: int, maxret: int, t: int)
    requires chunk >= 10 && maxret >= 0 && IsInt64(t) && !InSomeWindow(plan, t)
    ensures var c := Witness(t, plan.count);
            !Accounted(CopyOutcome(c, plan, chunk, maxret, map[]), c.dst, LonePoint(t))
  {
    hide RunPass, Witness, ValidCopy, Eligible, WindowRun;
    var c := Witness(t, plan.count);
    WitnessPass(t, plan, plan.count, plan.count, map[]);
    PassIsProper(c, 0, plan, plan.count, map[]);
  }

  /** A copy never loses a point in silence exactly at the covered instants: those in a window
      of the plan and in a window of that window's recovery. */
  lemma SafeInstants(plan: Plan, chunk: int, maxret: int, t: int)
    requires chunk >= 10 && maxret >= 0 && IsInt64(t)
    ensures NeverLost(plan, chunk, maxret, t) <==> Covered(plan, chunk, maxret, t)
  {
    hide CopyOutcome, ValidCopy, Eligible, Witness, Accounted, InWindow, SubPlan;
    if Covered(plan, chunk, maxret, t) {
      forall c: Copy, s: Db, p: Point | ValidCopy(c) && Eligible(c, p) && p.time == t
        ensures Accounted(CopyOutcome(c, plan, chunk, maxret, s), c.dst, p)
      {
        NoSilentLoss(c, plan, chunk, maxret, s, p);
      }
    } else if InSomeWindow(plan, t) {
      var i :| 0 <= i < plan.count && InWindow(plan, i, t);
      CoveredIn(plan, i, chunk, maxret, t);
      forall j | 0 <= j < plan.count && j != i ensures !InWindow(plan, j, t) {
        if InWindow(plan, j, t) {
          WindowsDisjoint(plan, i, j, t);
        }
      }
      LostInWindow(plan, chunk, maxret, t, i);
      WitnessValid(t, i);
    } else {
      LostOutside(plan, chunk, maxret, t);
      WitnessValid(t, plan.count);
    }
  }

  /** With chunks of whole tens of seconds and at least one chunk of retention: of the instants
      of the plan, the safe ones are those whose distance from its end is no multiple of a tenth
      of the chunk. */
  lemma SafeInstantsTenths(plan: Plan, chunk: int, maxret: int, t: int)
    requires chunk > 0 && chunk % (10 * SECOND) == 0 && maxret >= chunk && plan.width == chunk / SECOND
    requires InPlan(plan, t) && IsInt64(t)
    ensures NeverLost(plan, chunk, maxret, t) <==> (plan.end * SECOND - t) % (chunk / 10) != 0
  {
    CoveredTenths(plan, chunk, maxret, t);
    SafeInstants(plan, chunk, maxret, t);
  }

  /** The safe instants of a range as a caller gives it, within the maximum retention: those before
      its last whole second, at no multiple of a tenth of the chunk from it. The fraction of a second
      after it is never read. */
  lemma SafeInstantsOfRange(start: int, end: int, chunk: int, maxret: int, t: int)
    requires chunk > 0 && chunk % (10 * SECOND) == 0 && maxret >= chunk && start <= end && IsInt64(t)
    requires Max(start, UnixSec(end) * SECOND - maxret) <= t <= end
    ensures WindowCount(start, end, chunk, maxret) >= 0
    ensures NeverLost(PlanOf(start, end, chunk, maxret), chunk, maxret, t)
       <==> t < UnixSec(end) * SECOND && (UnixSec(end) * SECOND - t) % (chunk / 10) != 0
  {
    hide NeverLost, InPlan;
    CountNonNegative(start, end, chunk, maxret);
    var plan := PlanOf(start, end, chunk, maxret);
    if t < UnixSec(end) * SECOND {
      RangeInPlan(start, end, chunk, maxret, t);
      SafeInstantsTenths(plan, chunk, maxret, t);
    } else {
      AfterPlan(plan, chunk, maxret, t);
      SafeInstants(plan, chunk, maxret, t);
    }
  }

  lemma AfterPlan(plan: Plan, chunk: int, maxret: int, t: int)
    requires chunk >= 10 && maxret >= 0 && t >= plan.end * SECOND
    ensures !Covered(plan, chunk, maxret, t)
  {
    forall i | 0 <= i < plan.count ensures !InWindow(plan, i, t) {
      EdgesDescend(plan, 0, i);
      EdgeStep(plan, 0);
    }
  }

  /** A range that ends at 10.5 s loses the point stamped at 10.2 s. */
  lemma FractionalEnd()
    ensures !NeverLost(PlanOf(0, 21 * SECOND / 2, 10 * SECOND, 10 * SECOND), 10 * SECOND, 10 * SECOND, 51 * SECOND / 5)
  {
    SafeInstantsOfRange(0, 21 * SECOND / 2, 10 * SECOND, 10 * SECOND, 51 * SECOND / 5);
  }

  /** For any chunk, and a plan whose instants are timestamps: the copy is safe at every instant
      of the plan that is not a whole second exactly when the windows of a recovery, together,
      are as wide as the window they recover. */
  lemma SafeChunks(plan: Plan, chunk: int, maxret: int)
    requires chunk >= 10 && maxret >= 0 && plan.count >= 1
    requires IsInt64(Edge(plan, plan.count) * SECOND) && IsInt64(plan.end * SECOND)
    ensures (forall t :: InPlan(plan, t) && t % SECOND != 0 ==> NeverLost(plan, chunk, maxret, t))
       <==> SubCount(plan.width, chunk, maxret) * (chunk / 10 / SECOND) >= plan.width
  {
    hide NeverLost, Covered;
    RecoveryReaches(plan, chunk, maxret);
    forall t | InPlan(plan, t) ensures NeverLost(plan, chunk, maxret, t) <==> Covered(plan, chunk, maxret, t) {
      SafeInstants(plan, chunk, maxret, t);
    }
  }

  /** For chunks of c whole seconds the condition is c / 10 >= c % 10. */
  lemma SafeWholeSeconds(plan: Plan, c: nat, maxret: int)
    requires c >= 1 && maxret >= c * SECOND && plan.count >= 1 && plan.width == c
    requires IsInt64(Edge(plan, plan.count) * SECOND) && IsInt64(plan.end * SECOND)
    ensures (forall t :: InPlan(plan, t) && t % SECOND != 0 ==> NeverLost(plan, c * SECOND, maxret, t))
       <==> c / 10 >= c % 10
  {
    hide NeverLost;
    SafeChunks(plan, c * SECOND, maxret);
    WholeSecondChunks(c, maxret);
  }

  /** With 15 s chunks points are lost: the eleven 1 s windows of a recovery leave out the older
      four seconds of the window. */
  lemma FifteenSecondChunks()
    ensures !NeverLost(Plan(15, 15, 1), 15 * SECOND, 15 * SECOND, 1)
  {
    NotReached(Plan(15, 15, 1), 15 * SECOND, 15 * SECOND);
    SafeInstants(Plan(15, 15, 1), 15 * SECOND, 15 * SECOND, 1);
  }

  // ------------------------------------------------------------- the report's books

  /** Bad chunks come in the order of the windows, newest first, each once. */
  lemma {:induction false} BadInOrder(rs: seq<ChunkReport>)
    requires forall i :: 0 <= i < |rs| ==> rs[i].num == i + 1
    ensures forall a, b :: 0 <= a < b < |Bad(rs)| ==> Bad(rs)[a].num < Bad(rs)[b].num
    ensures forall r :: r in Bad(rs) <==> r in rs && HasErrors(r)
  {
    if rs != [] {
      BadInOrder(rs[..|rs| - 1]);
      assert forall r :: r in rs[..|rs| - 1] ==> r.num < |rs|;
      assert rs == rs[..|rs| - 1] + [rs[|rs| - 1]];
    }
  }

  /** The errors on the bad chunks are all the errors of the pass. */
  lemma {:induction false} RWErrorsAreAll(rs: seq<ChunkReport>)
    ensures ReadErrorsOf(Bad(rs)) == ReadErrorsOf(rs)
    ensures WriteErrorsOf(Bad(rs)) == WriteErrorsOf(rs)
  {
    if rs != [] {
      var n := |rs| - 1;
      RWErrorsAreAll(rs[..n]);
      if HasErrors(rs[n]) {
        assert Bad(rs)[..|Bad(rs)| - 1] == Bad(rs[..n]);
      } else {
        assert Bad(rs) == Bad(rs[..n]);
      }
    }
  }

  ghost predicate MeasRead(c: Copy, pass: nat, i: nat, m: string) {
    ReadSucceeds(c.faults, Place(c.id, pass, i, m), c.cfg.rwMaxRetries)
  }

  ghost predicate MeasStored(c: Copy, pass: nat, plan: Plan, i: nat, m: string) {
    var bs := Split(RowPoints(Rows(c, plan, i, m)), c.cfg.maxPoints);
    forall k :: 0 <= k < |bs| ==> BatchAccepted(c.faults, Place(c.id, pass, i, m), k, c.cfg.rwMaxRetries)
  }

  /** The measurements among the first n whose read failed, and those read but not stored. */
  ghost function Unread(c: Copy, pass: nat, i: nat, n: nat): set<string>
    requires n <= |c.meas|
  {
    set m | m in c.meas[..n] && !MeasRead(c, pass, i, m)
  }

  ghost function Unstored(c: Copy, pass: nat, plan: Plan, i: nat, n: nat): set<string>
    requires n <= |c.meas|
  {
    set m | m in c.meas[..n] && MeasRead(c, pass, i, m) && !MeasStored(c, pass, plan, i, m)
  }

  ghost function PointsRead(c: Copy, pass: nat, plan: Plan, i: nat, n: nat): nat
    requires n <= |c.meas|
  {
    if n == 0 then 0
    else PointsRead(c, pass, plan, i, n - 1)
         + if MeasRead(c, pass, i, c.meas[n - 1]) then |Rows(c, plan, i, c.meas[n - 1])| else 0
  }

  lemma JobBooks(c: Copy, pass: nat, plan: Plan, i: nat, m: string, s: Db)
    requires ValidCopy(c)
    ensures var t := Complete(Env(c.dst, c.faults, c.cfg), JobOf(Rows(c, plan, i, m), c.cfg, Place(c.id, pass,
          i, m)), Queued, s).tally;
            t == if !MeasRead(c, pass, i, m) then Tally(1, 0, 0)
                 else Tally(0, if MeasStored(c, pass, plan, i, m) then 0 else 1, |Rows(c, plan, i, m)|)
  {
    RowsAre(c, plan, i, m);
    JobMeaning(Env(c.dst, c.faults, c.cfg), Rows(c, plan, i, m), Place(c.id, pass, i, m), s);
  }

  lemma FirstNames(meas: seq<string>, n: nat)
    requires DistinctNames(meas) && 0 < n <= |meas|
    ensures meas[n - 1] !in meas[..n - 1]
    ensures forall x :: x in meas[..n] <==> x == meas[n - 1] || x in meas[..n - 1]
  {
    assert meas[..n] == meas[..n - 1] + [meas[n - 1]];
  }

  lemma UnreadNext(c: Copy, pass: nat, i: nat, n: nat)
    requires DistinctNames(c.meas) && 0 < n <= |c.meas|
    ensures |Unread(c, pass, i, n)|
      == |Unread(c, pass, i, n - 1)| + (if MeasRead(c, pass, i, c.meas[n - 1]) then 0 else 1)
  {
    hide MeasRead, DistinctNames;
    var m := c.meas[n - 1];
    FirstNames(c.meas, n);
    assert Unread(c, pass, i, n) == Unread(c, pass, i, n - 1) + if MeasRead(c, pass, i, m) then {} else {m};
  }

  lemma UnstoredNext(c: Copy, pass: nat, plan: Plan, i: nat, n: nat)
    requires DistinctNames(c.meas) && 0 < n <= |c.meas|
    ensures var m := c.meas[n - 1];
            |Unstored(c, pass, plan, i, n)| == |Unstored(c, pass, plan, i, n - 1)|
              + (if MeasRead(c, pass, i, m) && !MeasStored(c, pass, plan, i, m) then 1 else 0)
  {
    hide MeasRead, MeasStored, DistinctNames;
    var m := c.meas[n - 1];
    FirstNames(c.meas, n);
    var lost := MeasRead(c, pass, i, m) && !MeasStored(c, pass, plan, i, m);
    assert Unstored(c, pass, plan, i, n) == Unstored(c, pass, plan, i, n - 1) + if lost then {m} else {};
  }

  lemma InOrderSnoc(env: Env, jobs: seq<Job>, n: nat, s: Db)
    requires 0 < n <= |jobs|
    ensures var before := RunInOrder(env, jobs[..n - 1], s);
            var last := Complete(env, jobs[n - 1], Queued, before.store);
            Adds(before.tally, last.tally, RunInOrder(env, jobs[..n], s).tally)
  {
    hide Complete;
    assert jobs[..n][..n - 1] == jobs[..n - 1];
  }

  /** The counters after the first n measurements. */
  ghost predicate BooksOf(c: Copy, pass: nat, plan: Plan, i: nat, n: nat, t: Tally)
    requires n <= |c.meas|
  {
    && t.readErrors == |Unread(c, pass, i, n)|
    && t.writeErrors == |Unstored(c, pass, plan, i, n)|
    && t.points == PointsRead(c, pass, plan, i, n)
  }

  lemma BooksNext(c: Copy, pass: nat, plan: Plan, i: nat, n: nat, t: Tally, last: Tally, t': Tally)
    requires DistinctNames(c.meas) && 0 < n <= |c.meas| && BooksOf(c, pass, plan, i, n - 1, t) && Adds(t, last, t')
    requires var m := c.meas[n - 1];
             last == if !MeasRead(c, pass, i, m) then Tally(1, 0, 0)
                     else Tally(0, if MeasStored(c, pass, plan, i, m) then 0 else 1, |Rows(c, plan, i, m)|)
    ensures BooksOf(c, pass, plan, i, n, t')
  {
    hide Unread, Unstored, MeasRead, MeasStored, Rows;
    UnreadNext(c, pass, i, n);
    UnstoredNext(c, pass, plan, i, n);
  }

  lemma {:induction false} WindowBooksPrefix(c: Copy, pass: nat, plan: Plan, i: nat, n: nat, s: Db)
    requires ValidCopy(c) && n <= |c.meas|
    ensures BooksOf(c, pass, plan, i, n, RunInOrder(Env(c.dst, c.faults, c.cfg), JobsFor(c, pass, plan,
          i)[..n], s).tally)
  {
    hide Complete, JobOf, Rows, MeasRead, MeasStored, ValidMaster;
    if n == 0 {
      assert Unread(c, pass, i, 0) == {} && Unstored(c, pass, plan, i, 0) == {};
    } else {
      hide RunInOrder, BooksOf, DistinctNames, Adds;
      var env := Env(c.dst, c.faults, c.cfg);
      var jobs := JobsFor(c, pass, plan, i);
      WindowBooksPrefix(c, pass, plan, i, n - 1, s);
      InOrderSnoc(env, jobs, n, s);
      var before := RunInOrder(env, jobs[..n - 1], s);
      var last := Complete(env, jobs[n - 1], Queued, before.store);
      JobBooks(c, pass, plan, i, c.meas[n - 1], before.store);
      BooksNext(c, pass, plan, i, n, before.tally, last.tally, RunInOrder(env, jobs[..n], s).tally);
    }
  }

  /** The report of a window counts the measurements whose read failed, those read but not stored,
      and the points of all that were read, stored or not. */
  lemma WindowBooks(c: Copy, pass: nat, plan: Plan, i: nat, s: Db)
    requires ValidCopy(c)
    ensures var n := |c.meas|;
            WindowRun(c, pass, plan, i, s).tally
            == Tally(|Unread(c, pass, i, n)|, |Unstored(c, pass, plan, i, n)|, PointsRead(c, pass, plan, i, n))
  {
    WindowBooksPrefix(c, pass, plan, i, |c.meas|, s);
    var jobs := JobsFor(c, pass, plan, i);
    assert jobs[..|c.meas|] == jobs;
  }

  lemma {:induction false} ReportAt(c: Copy, pass: nat, plan: Plan, n: nat, s: Db, i: nat)
    requires i < n
    ensures |RunPass(c, pass, plan, n, s).reports| == n
    ensures RunPass(c, pass, plan, n, s).reports[i]
         == ReportOf(plan, i, WindowRun(c, pass, plan, i, RunPass(c, pass, plan, i, s).store).tally)
  {
    hide WindowRun;
    PassReports(c, pass, plan, n - 1, s);
    if i < n - 1 {
      ReportAt(c, pass, plan, n - 1, s, i);
    }
  }

  /** Report i of a pass, field by field. */
  ghost predicate ReportRight(c: Copy, pass: nat, plan: Plan, i: nat, r: ChunkReport) {
    var n := |c.meas|;
    && r.num == i + 1 && r.total == plan.count
    && r.timeStart == plan.end - (i + 1) * plan.width && r.timeEnd == plan.end - i * plan.width
    && r.readErrors == |Unread(c, pass, i, n)| && r.writeErrors == |Unstored(c, pass, plan, i, n)|
    && r.points == PointsRead(c, pass, plan, i, n)
  }

  lemma ReportBooks(c: Copy, pass: nat, plan: Plan, n: nat, s: Db, i: nat)
    requires ValidCopy(c) && i < n
    ensures |RunPass(c, pass, plan, n, s).reports| == n
    ensures ReportRight(c, pass, plan, i, RunPass(c, pass, plan, n, s).reports[i])
  {
    hide RunPass, WindowRun, Unread, Unstored, PointsRead, ValidCopy;
    ReportAt(c, pass, plan, n, s, i);
    WindowBooks(c, pass, plan, i, RunPass(c, pass, plan, i, s).store);
  }

  /** What the first n windows of a pass read, failed to read and failed to store, in all. */
  ghost function PointsIn(c: Copy, pass: nat, plan: Plan, n: nat): nat {
    if n == 0 then 0 else PointsIn(c, pass, plan, n - 1) + PointsRead(c, pass, plan, n - 1, |c.meas|)
  }

  ghost function UnreadIn(c: Copy, pass: nat, n: nat): nat {
    if n == 0 then 0 else UnreadIn(c, pass, n - 1) + |Unread(c, pass, n - 1, |c.meas|)|
  }

  ghost function UnstoredIn(c: Copy, pass: nat, plan: Plan, n: nat): nat {
    if n == 0 then 0 else UnstoredIn(c, pass, plan, n - 1) + |Unstored(c, pass, plan, n - 1, |c.meas|)|
  }

  ghost predicate TotalsRight(c: Copy, pass: nat, plan: Plan, n: nat, rs: seq<ChunkReport>) {
    && PointsOf(rs) == PointsIn(c, pass, plan, n)
    && ReadErrorsOf(rs) == UnreadIn(c, pass, n)
    && WriteErrorsOf(rs) == UnstoredIn(c, pass, plan, n)
  }

  lemma TotalsNext(c: Copy, pass: nat, plan: Plan, n: nat, rs: seq<ChunkReport>, r: ChunkReport)
    requires TotalsRight(c, pass, plan, n, rs) && ReportRight(c, pass, plan, n, r)
    ensures TotalsRight(c, pass, plan, n + 1, rs + [r])
  {
    SumsNext(rs, r);
    hide PointsOf, ReadErrorsOf, WriteErrorsOf, Unread, Unstored, PointsRead;
  }

  lemma {:induction false} PassTotals(c: Copy, pass: nat, plan: Plan, n: nat, s: Db)
    requires ValidCopy(c)
    ensures TotalsRight(c, pass, plan, n, RunPass(c, pass, plan, n, s).reports)
  {
    hide WindowRun, ValidCopy, ReportRight, Unread, Unstored, PointsRead;
    if n > 0 {
      hide TotalsRight;
      PassTotals(c, pass, plan, n - 1, s);
      ReportBooks(c, pass, plan, n, s, n - 1);
      var before := RunPass(c, pass, plan, n - 1, s);
      var r := ReportOf(plan, n - 1, WindowRun(c, pass, plan, n - 1, before.store).tally);
      PassReports(c, pass, plan, n - 1, s);
      TotalsNext(c, pass, plan, n - 1, before.reports, r);
    }
  }

  lemma SumsNext(rs: seq<ChunkReport>, r: ChunkReport)
    ensures PointsOf(rs + [r]) == PointsOf(rs) + r.points
    ensures ReadErrorsOf(rs + [r]) == ReadErrorsOf(rs) + r.readErrors
    ensures WriteErrorsOf(rs + [r]) == WriteErrorsOf(rs) + r.writeErrors
  {
    assert (rs + [r])[..|rs|] == rs;
  }

  /** The report of a pass, field by field: the names and the range as given, every point read counted
      once, one nil a window before the reports of the windows, newest first, and those with errors
      among the bad ones. The errors RWErrors adds up on these are the measurements that were not read,
      and those read but not stored. */
  lemma ReportMeans(c: Copy, pass: nat, start: int, end: int, plan: Plan, s: Db)
    requires ValidCopy(c)
    ensures var rs := RunPass(c, pass, plan, plan.count, s).reports;
            var report := ReportOfPass(c, start, end, plan, rs);
            && NamedFor(c, start, end, report)
            && report.totalPoints == PointsIn(c, pass, plan, plan.count)
            && ReadErrorsOf(report.bad) == UnreadIn(c, pass, plan.count)
            && WriteErrorsOf(report.bad) == UnstoredIn(c, pass, plan, plan.count)
            && ChunksRight(c, pass, plan, report.chunks)
            && forall r :: r in report.bad <==>
                 Some(r) in report.chunks && r.readErrors + r.writeErrors > 0
  {
    var rs := RunPass(c, pass, plan, plan.count, s).reports;
    PassTotals(c, pass, plan, plan.count, s);
    RWErrorsAreAll(rs);
    ListedRight(c, pass, plan, s);
    hide RunPass, Bad, ReadErrorsOf, WriteErrorsOf, PointsOf, ChunksRight, HasErrors, Listed;
    forall r ensures r in Bad(rs) <==> Some(r) in Listed(plan.count, rs) && r.readErrors + r.writeErrors > 0 {
      BadExact(rs, r);
      ListedHas(plan.count, rs, r);
      ErrorsAre(r);
    }
  }

  lemma ErrorsAre(r: ChunkReport)
    ensures HasErrors(r) <==> r.readErrors + r.writeErrors > 0
  {
  }

  lemma ListedHas(n: nat, rs: seq<ChunkReport>, r: ChunkReport)
    ensures Some(r) in Listed(n, rs) <==> r in rs
  {
    if r in rs {
      var i :| 0 <= i < |rs| && rs[i] == r;
      assert Listed(n, rs)[n + i] == Some(r);
    }
  }

  /** One nil a window, and then the reports of the windows. */
  ghost predicate ChunksRight(c: Copy, pass: nat, plan: Plan, chunks: seq<Option<ChunkReport>>) {
    && |chunks| == plan.count + plan.count
    && var nils, listed := chunks[..plan.count], chunks[plan.count..];
       && (forall i :: 0 <= i < |nils| ==> nils[i] == None)
       && (forall i :: 0 <= i < |listed| ==> listed[i].Some? && ReportRight(c, pass, plan, i, listed[i].value))
  }

  lemma ListedRight(c: Copy, pass: nat, plan: Plan, s: Db)
    requires ValidCopy(c)
    ensures ChunksRight(c, pass, plan, Listed(plan.count, RunPass(c, pass, plan, plan.count, s).reports))
  {
    var rs := RunPass(c, pass, plan, plan.count, s).reports;
    PassReports(c, pass, plan, plan.count, s);
    hide RunPass, ReportRight;
    forall i | 0 <= i < plan.count ensures ReportRight(c, pass, plan, i, rs[i]) {
      ReportBooks(c, pass, plan, plan.count, s, i);
    }
  }

  // ----------------------------------------------------------------- how far back, at most

  /** Whatever the range, a copy changes no cell stamped further back than the maximum retention, a
      chunk, and the tenth of a chunk that a recovery may add; nor further back than the range, a
      chunk and that tenth. */
  lemma CapFrame(c: Copy, start: int, end: int, chunk: int, maxret: int, s: Db, k: Key)
    requires ValidCopy(c) && chunk >= 10 && maxret >= 0 && WindowCount(start, end, chunk, maxret) >= 0
    requires || k.time <= UnixSec(end) * SECOND - maxret - chunk - chunk / 10
             || (start <= end && k.time <= UnixSec(end) * SECOND - (end - start) - chunk - chunk / 10)
    ensures Cell(CopyOutcome(c, PlanOf(start, end, chunk, maxret), chunk, maxret, s).store, k) == Cell(s, k)
  {
    var plan := PlanOf(start, end, chunk, maxret);
    hide ValidCopy, CopyOutcome;
    PlanStops(start, end, chunk, maxret);
    if plan.count > 0 {
      RecoveryStops(plan, plan.count - 1, chunk, maxret);
    }
    hide PlanOf, Edge, SubPlan, WindowCount;
    assert OldestRead(plan, chunk, maxret) * SECOND >= k.time;
    CopyFrame(c, plan, chunk, maxret, s, k);
  }

  // --------------------------------------------------------- the order of the final bad chunks

  ghost predicate NewestFirst(rs: seq<ChunkReport>) {
    forall a, b :: 0 <= a < b < |rs| ==> rs[a].timeEnd >= rs[b].timeEnd
  }

  /** The chunks are windows of the plan, their numbers rising. */
  ghost predicate WindowsOf(plan: Plan, bad: seq<ChunkReport>) {
    && (forall a :: 0 <= a < |bad| ==> InPlanAt(plan, bad[a]))
    && (forall a, b :: 0 <= a < b < |bad| ==> bad[a].num < bad[b].num)
  }

  ghost predicate InPlanAt(plan: Plan, r: ChunkReport) {
    1 <= r.num <= plan.count && r.timeStart == Edge(plan, r.num) && r.timeEnd == Edge(plan, r.num - 1)
  }

  lemma BadAreWindows(c: Copy, pass: nat, plan: Plan, s: Db)
    ensures WindowsOf(plan, Bad(RunPass(c, pass, plan, plan.count, s).reports))
  {
    var rs := RunPass(c, pass, plan, plan.count, s).reports;
    var bad := Bad(rs);
    PassReports(c, pass, plan, plan.count, s);
    BadInOrder(rs);
    hide RunPass, Bad, HasErrors, Edge, InPlanAt;
    forall a | 0 <= a < |bad| ensures InPlanAt(plan, bad[a]) {
      assert bad[a] in bad;
      var i :| 0 <= i < |rs| && rs[i] == bad[a];
      ReportInPlanAt(plan, rs[i], i);
    }
  }

  lemma ReportInPlanAt(plan: Plan, r: ChunkReport, i: nat)
    requires i < plan.count && r.num == i + 1 && r.timeStart == Edge(plan, i + 1) && r.timeEnd == Edge(plan, i)
    ensures InPlanAt(plan, r)
  {
  }

  lemma WindowsNewestFirst(plan: Plan, bad: seq<ChunkReport>)
    requires WindowsOf(plan, bad)
    ensures NewestFirst(bad)
    ensures forall r :: r in bad ==> r.timeEnd <= plan.end && plan.count > 0 && r.timeEnd >= Edge(plan, plan.count - 1)
  {
    hide Edge;
    forall a, b | 0 <= a < b < |bad| ensures bad[a].timeEnd >= bad[b].timeEnd {
      assert InPlanAt(plan, bad[a]) && InPlanAt(plan, bad[b]);
      EdgesDescend(plan, bad[a].num - 1, bad[b].num - 1);
    }
    forall r | r in bad ensures r.timeEnd <= plan.end && plan.count > 0 && r.timeEnd >= Edge(plan, plan.count - 1) {
      assert InPlanAt(plan, r);
      EdgesDescend(plan, 0, r.num - 1);
      EdgeStep(plan, 0);
      EdgesDescend(plan, r.num - 1, plan.count - 1);
    }
  }

  lemma WindowsApartIn(plan: Plan, bad: seq<ChunkReport>)
    requires WindowsOf(plan, bad)
    ensures forall a, b :: 0 <= a < b < |bad| ==> bad[b].timeEnd <= bad[a].timeStart
  {
    hide Edge;
    forall a, b | 0 <= a < b < |bad| ensures bad[b].timeEnd <= bad[a].timeStart {
      assert InPlanAt(plan, bad[a]) && InPlanAt(plan, bad[b]);
      EdgesDescend(plan, bad[a].num, bad[b].num - 1);
    }
  }

  /** The recovery's last window begins no further back than the chunk. */
  ghost predicate EndsWithin(r: ChunkReport, chunk: int, maxret: int)
    requires chunk >= 10 && maxret >= 0 && r.timeStart <= r.timeEnd
  {
    var sub := RecoveryPlan(r, chunk, maxret);
    sub.count > 0 && sub.end == r.timeEnd && Edge(sub, sub.count - 1) >= r.timeStart
  }

  lemma {:induction false} RecoverNewestFirst(c: Copy, bad: seq<ChunkReport>, n: nat, chunk: int, maxret: int, s: Db)
    requires chunk >= 10 && maxret >= 0 && n <= |bad| && ProperReports(bad)
    requires forall k :: 0 <= k < n ==> EndsWithin(bad[k], chunk, maxret)
    requires forall a, b :: 0 <= a < b < n ==> bad[b].timeEnd <= bad[a].timeStart
    ensures var rs := Recover(c, bad, n, chunk, maxret, s).bad;
            NewestFirst(rs) && forall r :: r in rs ==> n > 0 && r.timeEnd >= bad[n - 1].timeStart
  {
    hide RunPass, RecoveryPlan, Edge;
    if n > 0 {
      RecoverNewestFirst(c, bad, n - 1, chunk, maxret, s);
      RecoverStep(c, bad, n - 1, chunk, maxret, s);
      var before := Recover(c, bad, n - 1, chunk, maxret, s);
      var sub := RecoveryPlan(bad[n - 1], chunk, maxret);
      var more := Bad(RunPass(c, n, sub, sub.count, before.store).reports);
      BadAreWindows(c, n, sub, before.store);
      WindowsNewestFirst(sub, more);
      assert EndsWithin(bad[n - 1], chunk, maxret);
      hide Recover, Bad;
      JoinNewestFirst(before.bad, more, sub.end);
    }
  }

  lemma JoinNewestFirst(a: seq<ChunkReport>, b: seq<ChunkReport>, edge: int)
    requires NewestFirst(a) && NewestFirst(b)
    requires (forall r :: r in a ==> r.timeEnd >= edge) && (forall r :: r in b ==> r.timeEnd <= edge)
    ensures NewestFirst(a + b)
  {
  }

  /** With chunks of whole tens of seconds the chunks still bad at the end come newest first. */
  lemma FinalBadOrder(c: Copy, plan: Plan, chunk: int, maxret: int, s: Db)
    requires chunk > 0 && chunk % (10 * SECOND) == 0 && maxret >= chunk && plan.width == chunk / SECOND
    ensures NewestFirst(CopyOutcome(c, plan, chunk, maxret, s).bad)
  {
    hide RunPass, Bad, HasErrors, Edge, Recover, WindowsOf, EndsWithin;
    var first := RunPass(c, 0, plan, plan.count, s);
    var bad := Bad(first.reports);
    PassIsProper(c, 0, plan, plan.count, s);
    BadAreWindows(c, 0, plan, s);
    WindowsApartIn(plan, bad);
    forall k | 0 <= k < |bad| ensures EndsWithin(bad[k], chunk, maxret) {
      RecoveryEndsWithin(c, plan, chunk, maxret, s, k);
    }
    RecoverNewestFirst(c, bad, |bad|, chunk, maxret, first.store);
  }

  lemma RecoveryEndsWithin(c: Copy, plan: Plan, chunk: int, maxret: int, s: Db, k: nat)
    requires chunk > 0 && chunk % (10 * SECOND) == 0 && maxret >= chunk && plan.width == chunk / SECOND
    requires k < |Bad(RunPass(c, 0, plan, plan.count, s).reports)|
    ensures var r := Bad(RunPass(c, 0, plan, plan.count, s).reports)[k];
            r.timeStart <= r.timeEnd && EndsWithin(r, chunk, maxret)
  {
    hide RunPass, Bad, HasErrors, Edge, RecoveryPlan;
    PassReports(c, 0, plan, plan.count, s);
    var i := BadWindow(c, plan, s, k, chunk, maxret);
    RecoveryRefines(plan, i, chunk, maxret);
  }
}
