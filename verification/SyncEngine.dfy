/** Copying one database and retention policy over a time range: windows newest first, one
    worker pool a window, and one recovery of each failed window at a tenth of the chunk. */
module SyncEngine {
  import opened Wrappers
  import opened GoTime
  import opened Store
  import opened Faults
  import opened Client
  import opened Windows
  import opened WorkerPool

  datatype ChunkReport = ChunkReport(
    num: nat, total: nat, timeStart: int, timeEnd: int,
    readErrors: nat, writeErrors: nat, points: nat)

  /** chunks starts with one nil a window: the source makes the slice that long and then appends
      the reports behind. */
  datatype SyncReport = SyncReport(
    srcDB: string, dstDB: string, srcRP: string, dstRP: string, start: int, end: int,
    totalPoints: nat, chunks: seq<Option<ChunkReport>>, bad: seq<ChunkReport>)

  /** What a copy reads, where it writes, what fails on the way, and its place among the copies
      of a replication. meas lists the keys of srp.Measurements. */
  datatype Copy = Copy(
    master: seq<Row>, sdb: string, srp: string, dst: Dest, meas: seq<string>,
    cfg: Config, faults: Faults, id: nat)

  // ------------------------------------------------------------------ one window

  function Rows(c: Copy, plan: Plan, i: nat, m: string): seq<Point> {
    Select(c.master, c.sdb, c.srp, m, Edge(plan, i + 1), Edge(plan, i))
  }

  function JobsFor(c: Copy, pass: nat, plan: Plan, i: nat): seq<Job> {
    seq(|c.meas|, j requires 0 <= j < |c.meas| =>
      JobOf(Rows(c, plan, i, c.meas[j]), c.cfg, Place(c.id, pass, i, c.meas[j])))
  }

  function WindowRun(c: Copy, pass: nat, plan: Plan, i: nat, s: Db): Effect {
    RunInOrder(Env(c.dst, c.faults, c.cfg), JobsFor(c, pass, plan, i), s)
  }

  function ReportOf(plan: Plan, i: nat, t: Tally): ChunkReport {
    ChunkReport(i + 1, plan.count, Edge(plan, i + 1), Edge(plan, i), t.readErrors, t.writeErrors, t.points)
  }

  predicate HasErrors(r: ChunkReport) {
    r.readErrors + r.writeErrors > 0
  }

  // -------------------------------------------------------------------- one pass

  datatype Pass = Pass(store: Db, reports: seq<ChunkReport>)

  /** The first n windows of a pass. */
  function RunPass(c: Copy, pass: nat, plan: Plan, n: nat, s: Db): Pass {
    if n == 0 then Pass(s, [])
    else
      var before := RunPass(c, pass, plan, n - 1, s);
      var e := WindowRun(c, pass, plan, n - 1, before.store);
      Pass(e.store, before.reports + [ReportOf(plan, n - 1, e.tally)])
  }

  function Bad(rs: seq<ChunkReport>): seq<ChunkReport> {
    if rs == [] then []
    else Bad(rs[..|rs| - 1]) + if HasErrors(rs[|rs| - 1]) then [rs[|rs| - 1]] else []
  }

  function PointsOf(rs: seq<ChunkReport>): nat {
    if rs == [] then 0 else PointsOf(rs[..|rs| - 1]) + rs[|rs| - 1].points
  }

  function ReadErrorsOf(rs: seq<ChunkReport>): nat {
    if rs == [] then 0 else ReadErrorsOf(rs[..|rs| - 1]) + rs[|rs| - 1].readErrors
  }

  function WriteErrorsOf(rs: seq<ChunkReport>): nat {
    if rs == [] then 0 else WriteErrorsOf(rs[..|rs| - 1]) + rs[|rs| - 1].writeErrors
  }

  /** SyncReport.RWErrors on a list of bad chunks. */
  method RWErrors(bad: seq<ChunkReport>) returns (r: nat, w: nat, t: nat)
    ensures r == ReadErrorsOf(bad) && w == WriteErrorsOf(bad) && t == r + w
  {
    r, w := 0, 0;
    var k := 0;
    while k < |bad|
      invariant 0 <= k <= |bad|
      invariant r == ReadErrorsOf(bad[..k]) && w == WriteErrorsOf(bad[..k])
    {
      assert bad[..k + 1][..k] == bad[..k];
      r, w := r + bad[k].readErrors, w + bad[k].writeErrors;
      k := k + 1;
    }
    assert bad[..|bad|] == bad;
    t := r + w;
  }

  /** make([]*ChunkReport, n). */
  function NilSlots(n: nat): seq<Option<ChunkReport>> {
    seq(n, _ => None)
  }

  function Listed(n: nat, rs: seq<ChunkReport>): seq<Option<ChunkReport>> {
    NilSlots(n) + seq(|rs|, i requires 0 <= i < |rs| => Some(rs[i]))
  }

  function ReportOfPass(c: Copy, start: int, end: int, plan: Plan, rs: seq<ChunkReport>): SyncReport {
    SyncReport(c.sdb, c.dst.db, c.srp, c.dst.rp, start, end, PointsOf(rs), Listed(plan.count, rs), Bad(rs))
  }

  /** The report is of this copy and this range. */
  predicate NamedFor(c: Copy, start: int, end: int, report: SyncReport) {
    && report.srcDB == c.sdb && report.srcRP == c.srp && report.dstDB == c.dst.db && report.dstRP == c.dst.rp
    && report.start == start && report.end == end
  }

  lemma {:induction false} SelectMeas(master: seq<Row>, db: string, rp: string, m: string, lo: int, hi: int)
    ensures forall p :: p in Select(master, db, rp, m, lo, hi) ==> p.meas == m
  {
    if master != [] {
      SelectMeas(master[1..], db, rp, m, lo, hi);
    }
  }

  lemma {:induction false} RowPointsMeas(rows: seq<Point>, m: string)
    requires forall p :: p in rows ==> p.meas == m
    ensures forall p :: p in RowPoints(rows) ==> p.meas == m
  {
    if rows != [] {
      RowPointsMeas(rows[..|rows| - 1], m);
    }
  }

  lemma SplitMembers(points: seq<Point>, n: int, b: Batch, p: Point)
    requires n > 0 && b in Split(points, n) && Some(p) in b
    ensures p in points
  {
  }

  lemma JobsAreSeparate(c: Copy, pass: nat, plan: Plan, i: nat)
    requires DistinctNames(c.meas)
    ensures OneJobEach(JobsFor(c, pass, plan, i))
  {
    var jobs := JobsFor(c, pass, plan, i);
    forall j | 0 <= j < |jobs| ensures OwnPoints(jobs[j]) {
      var m := c.meas[j];
      var rows := Rows(c, plan, i, m);
      SelectMeas(c.master, c.sdb, c.srp, m, Edge(plan, i + 1), Edge(plan, i));
      RowPointsMeas(rows, m);
      forall b, p: Point | b in jobs[j].batches && Some(p) in b ensures p.meas == m {
        SplitMembers(RowPoints(rows), c.cfg.maxPoints, b, p);
      }
    }
  }

  /** The jobs of one window, submitted and waited for. */
  method SyncWindow(srv: Server, c: Copy, pass: nat, ghost plan: Plan, i: nat, startsec: int, endsec: int)
    returns (t: Tally)
    requires DistinctNames(c.meas)
    requires startsec == Edge(plan, i + 1) && endsec == Edge(plan, i)
    modifies srv
    ensures Effect(srv.data, t) == WindowRun(c, pass, plan, i, old(srv.data))
  {
    var jobs := seq(|c.meas|, j requires 0 <= j < |c.meas| =>
      JobOf(Select(c.master, c.sdb, c.srp, c.meas[j], startsec, endsec), c.cfg, Place(c.id, pass, i, c.meas[j])));
    assert jobs == JobsFor(c, pass, plan, i);
    JobsAreSeparate(c, pass, plan, i);
    t := StopWait(srv, Env(c.dst, c.faults, c.cfg), jobs);
  }

  lemma PassStep(c: Copy, pass: nat, plan: Plan, i: nat, s: Db, before: Pass, e: Effect)
    requires RunPass(c, pass, plan, i, s) == before && WindowRun(c, pass, plan, i, before.store) == e
    ensures RunPass(c, pass, plan, i + 1, s) == Pass(e.store, before.reports + [ReportOf(plan, i, e.tally)])
  {
  }

  lemma AppendReport(n: nat, rs: seq<ChunkReport>, r: ChunkReport)
    ensures Listed(n, rs + [r]) == Listed(n, rs) + [Some(r)]
    ensures Bad(rs + [r]) == Bad(rs) + if HasErrors(r) then [r] else []
    ensures PointsOf(rs + [r]) == PointsOf(rs) + r.points
  {
    assert (rs + [r])[..|rs|] == rs;
  }

  /** After i windows the slave and the report slices are those of the first i windows. */
  ghost predicate BooksRight(c: Copy, pass: nat, plan: Plan, i: nat, s0: Db, s: Db,
                             chunkReport: seq<Option<ChunkReport>>, badChunkReport: seq<ChunkReport>, dbpoints: nat)
  {
    var r := RunPass(c, pass, plan, i, s0);
    && s == r.store
    && chunkReport == Listed(plan.count, r.reports)
    && badChunkReport == Bad(r.reports)
    && dbpoints == PointsOf(r.reports)
  }

  lemma BooksStart(c: Copy, pass: nat, plan: Plan, s0: Db)
    ensures BooksRight(c, pass, plan, 0, s0, s0, NilSlots(plan.count), [], 0)
  {
    assert Listed(plan.count, []) == NilSlots(plan.count);
  }

  lemma BooksStep(c: Copy, pass: nat, plan: Plan, i: nat, s0: Db, s: Db,
                  chunkReport: seq<Option<ChunkReport>>, badChunkReport: seq<ChunkReport>, dbpoints: nat,
                  s': Db, t: Tally, r: ChunkReport,
                  chunkReport': seq<Option<ChunkReport>>, badChunkReport': seq<ChunkReport>, dbpoints': nat)
    requires BooksRight(c, pass, plan, i, s0, s, chunkReport, badChunkReport, dbpoints)
    requires Effect(s', t) == WindowRun(c, pass, plan, i, s)
    requires r == ChunkReport(i + 1, plan.count, Edge(plan, i + 1), Edge(plan, i), t.readErrors, t.writeErrors,
          t.points)
    requires chunkReport' == chunkReport + [Some(r)] && dbpoints' == dbpoints + t.points
    requires badChunkReport' == if t.readErrors + t.writeErrors > 0 then badChunkReport + [r] else badChunkReport
    ensures BooksRight(c, pass, plan, i + 1, s0, s', chunkReport', badChunkReport', dbpoints')
  {
    hide WindowRun;
    var before := RunPass(c, pass, plan, i, s0);
    PassStep(c, pass, plan, i, s0, before, Effect(s', t));
    AppendReport(plan.count, before.reports, r);
  }

  /** The loop over the windows, newest first, with the report slices it fills. */
  method SyncChunks(srv: Server, c: Copy, pass: nat, plan: Plan)
    returns (chunkReport: seq<Option<ChunkReport>>, badChunkReport: seq<ChunkReport>, dbpoints: nat)
    requires DistinctNames(c.meas)
    modifies srv
    ensures BooksRight(c, pass, plan, plan.count, old(srv.data), srv.data, chunkReport, badChunkReport, dbpoints)
  {
    BooksStart(c, pass, plan, srv.data);
    hide *;
    chunkReport := NilSlots(plan.count);
    badChunkReport, dbpoints := [], 0;
    var i := 0;
    while i < plan.count
      invariant 0 <= i <= plan.count
      invariant BooksRight(c, pass, plan, i, old(srv.data), srv.data, chunkReport, badChunkReport, dbpoints)
    {
      var endsec := Edge(plan, i);
      var startsec := Edge(plan, i + 1);
      ghost var before := srv.data;
      var t := SyncWindow(srv, c, pass, plan, i, startsec, endsec);
      var chrep := ChunkReport(i + 1, plan.count, startsec, endsec, t.readErrors, t.writeErrors, t.points);
      ghost var reports, bad, points := chunkReport, badChunkReport, dbpoints;
      dbpoints := dbpoints + t.points;
      chunkReport := chunkReport + [Some(chrep)];
      if t.readErrors + t.writeErrors > 0 {
        badChunkReport := badChunkReport + [chrep];
      }
      BooksStep(c, pass, plan, i, old(srv.data), before, reports, bad, points, srv.data, t, chrep,
                chunkReport, badChunkReport, dbpoints);
      i := i + 1;
    }
  }

  /** One pass over a time range. Without a schema there is no report. A range so far backwards
      that the count is negative panics in the source. */
  method Sync(srv: Server, c: Copy, pass: nat, start: int, end: int, schemaGiven: bool, chunk: int, maxret: int)
    returns (report: Option<SyncReport>)
    requires DistinctNames(c.meas)
    requires chunk > 0 && WindowCount(start, end, chunk, maxret) >= 0
    modifies srv
    ensures !schemaGiven ==> report == None && srv.data == old(srv.data)
    ensures schemaGiven ==>
      var plan := PlanOf(start, end, chunk, maxret);
      var r := RunPass(c, pass, plan, plan.count, old(srv.data));
      srv.data == r.store && report == Some(ReportOfPass(c, start, end, plan, r.reports))
    ensures schemaGiven ==> report.Some? && NamedFor(c, start, end, report.value)
  {
    if !schemaGiven {
      return None;
    }
    var duration := end - start;
    var hLength := TruncDiv(duration, chunk) + 1;
    var maxLength := TruncDiv(maxret, chunk) + 1;
    if hLength > maxLength {
      hLength := maxLength;
    }
    var chunkSecond := chunk / SECOND;
    var plan := Plan(UnixSec(end), chunkSecond, hLength);
    assert plan == PlanOf(start, end, chunk, maxret);
    var chunkReport, badChunkReport, dbpoints := SyncChunks(srv, c, pass, plan);
    report := Some(SyncReport(c.sdb, c.dst.db, c.srp, c.dst.rp, start, end, dbpoints, chunkReport, badChunkReport));
  }

  // ------------------------------------------------------------------ the recovery

  datatype Recovery = Recovery(store: Db, bad: seq<ChunkReport>)

  predicate ProperReports(bad: seq<ChunkReport>) {
    forall k :: 0 <= k < |bad| ==> bad[k].timeStart <= bad[k].timeEnd
  }

  function RecoveryPlan(r: ChunkReport, chunk: int, maxret: int): Plan
    requires chunk >= 10 && maxret >= 0 && r.timeStart <= r.timeEnd
  {
    CountNonNegative(r.timeStart * SECOND, r.timeEnd * SECOND, chunk / 10, maxret);
    PlanOf(r.timeStart * SECOND, r.timeEnd * SECOND, chunk / 10, maxret)
  }

  /** The recoveries of the first n bad chunks. */
  function Recover(c: Copy, bad: seq<ChunkReport>, n: nat, chunk: int, maxret: int, s: Db): Recovery
    requires chunk >= 10 && maxret >= 0 && n <= |bad| && ProperReports(bad)
  {
    if n == 0 then Recovery(s, [])
    else
      var before := Recover(c, bad, n - 1, chunk, maxret, s);
      var sub := RecoveryPlan(bad[n - 1], chunk, maxret);
      var p := RunPass(c, n, sub, sub.count, before.store);
      Recovery(p.store, before.bad + Bad(p.reports))
  }

  lemma {:induction false} PassReports(c: Copy, pass: nat, plan: Plan, n: nat, s: Db)
    ensures var rs := RunPass(c, pass, plan, n, s).reports;
            && |rs| == n
            && forall i :: 0 <= i < n ==>
                 rs[i].num == i + 1 && rs[i].timeStart == Edge(plan, i + 1) && rs[i].timeEnd == Edge(plan, i)
  {
    hide WindowRun, Edge;
    if n > 0 {
      PassReports(c, pass, plan, n - 1, s);
      var before := RunPass(c, pass, plan, n - 1, s);
      PassStep(c, pass, plan, n - 1, s, before, WindowRun(c, pass, plan, n - 1, before.store));
    }
  }

  lemma {:induction false} BadExact(rs: seq<ChunkReport>, r: ChunkReport)
    ensures r in Bad(rs) <==> r in rs && HasErrors(r)
  {
    if rs != [] {
      BadExact(rs[..|rs| - 1], r);
      assert rs == rs[..|rs| - 1] + [rs[|rs| - 1]];
    }
  }

  lemma PassIsProper(c: Copy, pass: nat, plan: Plan, n: nat, s: Db)
    ensures ProperReports(RunPass(c, pass, plan, n, s).reports)
    ensures ProperReports(Bad(RunPass(c, pass, plan, n, s).reports))
  {
    var rs := RunPass(c, pass, plan, n, s).reports;
    PassReports(c, pass, plan, n, s);
    forall k | 0 <= k < |rs| ensures rs[k].timeStart <= rs[k].timeEnd {
      EdgeStep(plan, k);
    }
    var bad := Bad(rs);
    forall k | 0 <= k < |bad| ensures bad[k].timeStart <= bad[k].timeEnd {
      BadExact(rs, bad[k]);
    }
  }

  /** The first pass and the recoveries of its bad chunks. */
  function CopyOutcome(c: Copy, plan: Plan, chunk: int, maxret: int, s: Db): Recovery
    requires chunk >= 10 && maxret >= 0
  {
    var first := RunPass(c, 0, plan, plan.count, s);
    var bad := Bad(first.reports);
    PassIsProper(c, 0, plan, plan.count, s);
    Recover(c, bad, |bad|, chunk, maxret, first.store)
  }

  /** The final report: its bad chunks are those of the recoveries, everything else is still
      that of the first pass. */
  method SyncDBRP(srv: Server, c: Copy, start: int, end: int, chunk: int, maxret: int)
    returns (report: SyncReport)
    requires DistinctNames(c.meas)
    requires chunk >= 10 && maxret >= 0 && WindowCount(start, end, chunk, maxret) >= 0
    modifies srv
    ensures var plan := PlanOf(start, end, chunk, maxret);
            var first := RunPass(c, 0, plan, plan.count, old(srv.data));
            var end_ := CopyOutcome(c, plan, chunk, maxret, old(srv.data));
            srv.data == end_.store
            && report == ReportOfPass(c, start, end, plan, first.reports).(bad := end_.bad)
    ensures NamedFor(c, start, end, report)
  {
    var sync := Sync(srv, c, 0, start, end, true, chunk, maxret);
    report := sync.value;
    ghost var plan := PlanOf(start, end, chunk, maxret);
    ghost var first := RunPass(c, 0, plan, plan.count, old(srv.data));
    PassIsProper(c, 0, plan, plan.count, old(srv.data));
    var bad := report.bad;
    if |bad| > 0 {
      var newBadChunks: seq<ChunkReport> := [];
      var k := 0;
      while k < |bad|
        invariant 0 <= k <= |bad|
        invariant Recover(c, bad, k, chunk, maxret, first.store) == Recovery(srv.data, newBadChunks)
      {
        newBadChunks := RecoverChunk(srv, c, bad, k, chunk, maxret, first.store, newBadChunks);
        k := k + 1;
      }
      report := report.(bad := newBadChunks);
    }
  }

  lemma RecoverStep(c: Copy, bad: seq<ChunkReport>, k: nat, chunk: int, maxret: int, s: Db)
    requires chunk >= 10 && maxret >= 0 && ProperReports(bad) && k < |bad|
    ensures var before := Recover(c, bad, k, chunk, maxret, s);
            var sub := RecoveryPlan(bad[k], chunk, maxret);
            var p := RunPass(c, k + 1, sub, sub.count, before.store);
            Recover(c, bad, k + 1, chunk, maxret, s) == Recovery(p.store, before.bad + Bad(p.reports))
  {
  }

  /** The body of the recovery loop: bad chunk k again, at a tenth of the chunk. */
  method RecoverChunk(srv: Server, c: Copy, bad: seq<ChunkReport>, k: nat, chunk: int, maxret: int,
        ghost s: Db, soFar: seq<ChunkReport>)
    returns (newBad: seq<ChunkReport>)
    requires DistinctNames(c.meas) && chunk >= 10 && maxret >= 0 && ProperReports(bad) && k < |bad|
    requires Recover(c, bad, k, chunk, maxret, s) == Recovery(srv.data, soFar)
    modifies srv
    ensures Recover(c, bad, k + 1, chunk, maxret, s) == Recovery(srv.data, newBad)
  {
    var from, to := bad[k].timeStart * SECOND, bad[k].timeEnd * SECOND;
    CountNonNegative(from, to, chunk / 10, maxret);
    var recoveryrep := Sync(srv, c, k + 1, from, to, true, chunk / 10, maxret);
    RecoverStep(c, bad, k, chunk, maxret, s);
    newBad := soFar + recoveryrep.value.bad;
  }
}
