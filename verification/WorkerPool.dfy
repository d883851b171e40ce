/** One window's measurement jobs on a worker pool, step by step, and the proof that the order
    of the steps does not matter. */
module WorkerPool {
  import opened Wrappers
  import opened GoTime
  import opened Store
  import opened Faults
  import opened Retry
  import opened Client

  /** A submitted closure: the sub-batches that the rows of its query split into, their number
      of points, and where it stands in the run. */
  datatype Job = Job(meas: string, batches: seq<Batch>, points: nat, at: Place)

  function JobOf(rows: seq<Point>, cfg: Config, at: Place): Job {
    Job(at.meas, Split(RowPoints(rows), cfg.maxPoints), |RowPoints(rows)|, at)
  }

  /** What all jobs of a window share. */
  datatype Env = Env(dst: Dest, faults: Faults, cfg: Config)

  /** Where a job is: each phase but the first and the last is one atomic step away from the
      next (a query attempt, an atomic add, a write attempt). */
  datatype Phase =
    | Queued
    | Reading(attempt: nat)
    | ReadFailed
    | Counting
    | Writing(batch: nat, attempt: nat)
    | WriteFailed
    | Finished

  /** The shared counters of a window. */
  datatype Tally = Tally(readErrors: nat, writeErrors: nat, points: nat)

  datatype Effect = Effect(store: Db, tally: Tally)
  datatype Micro = Micro(phase: Phase, store: Db, tally: Tally)

  ghost predicate Adds(a: Tally, b: Tally, c: Tally) {
    && c.readErrors == a.readErrors + b.readErrors
    && c.writeErrors == a.writeErrors + b.writeErrors
    && c.points == a.points + b.points
  }

  /** Whether a failed attempt n is followed by another. */
  predicate More(cfg: Config, n: nat) {
    n < cfg.rwMaxRetries && n < MAX_RETRIES
  }

  /** One atomic step of a job. */
  function Next(env: Env, job: Job, ph: Phase, s: Db): Micro {
    match ph
    case Queued => Micro(Reading(1), s, Tally(0, 0, 0))
    case Reading(n) =>
      if Site(job.at, QueryCall(n)) !in env.faults then Micro(Counting, s, Tally(0, 0, 0))
      else Micro(if More(env.cfg, n) then Reading(n + 1) else ReadFailed, s, Tally(0, 0, 0))
    case ReadFailed => Micro(Finished, s, Tally(1, 0, 0))
    case Counting => Micro(Writing(0, 1), s, Tally(0, 0, job.points))
    case Writing(k, n) =>
      var bs := job.batches;
      if k >= |bs| then Micro(Finished, s, Tally(0, 0, 0))
      else
        var site := Site(job.at, WriteCall(k, n));
        var s' := AttemptWrite(s, env.dst, bs[k], env.faults, site);
        if site !in env.faults then Micro(Writing(k + 1, 1), s', Tally(0, 0, 0))
        else Micro(if More(env.cfg, n) then Writing(k, n + 1) else WriteFailed, s', Tally(0, 0, 0))
    case WriteFailed => Micro(Finished, s, Tally(0, 1, 0))
    case Finished => Micro(Finished, s, Tally(0, 0, 0))
  }

  function Left(n: nat): nat {
    if n < MAX_RETRIES then MAX_RETRIES - n else 0
  }

  /** A bound on the steps a job still takes. */
  function Fuel(env: Env, job: Job, ph: Phase): nat {
    var b := |job.batches|;
    match ph
    case Finished => 0
    case ReadFailed => 1
    case WriteFailed => 1
    case Writing(k, n) => 2 + Left(n) + (if k < b then 11 * (b - k) else 0)
    case Counting => 12 + 11 * b
    case Reading(n) => 13 + 11 * b + Left(n)
    case Queued => 30 + 11 * b
  }

  lemma FuelDrops(env: Env, job: Job, ph: Phase, s: Db)
    requires ph != Finished
    ensures Fuel(env, job, Next(env, job, ph, s).phase) < Fuel(env, job, ph)
  {
  }

  // ---------------------------------- what is left of a job's own code at each phase

  predicate Answers(env: Env, at: Place, n: nat)
    decreases MAX_RETRIES - n
  {
    Site(at, QueryCall(n)) !in env.faults || (More(env.cfg, n) && Answers(env, at, n + 1))
  }

  /** The write loop from sub-batch k on. */
  function WriteRest(env: Env, job: Job, k: nat, s: Db): Effect {
    var w := WriteBatches(s, env.dst, job.batches, env.faults, job.at, env.cfg.rwMaxRetries, k);
    Effect(w.store, Tally(0, if w.ok then 0 else 1, 0))
  }

  function CountRest(env: Env, job: Job, s: Db): Effect {
    var e := WriteRest(env, job, 0, s);
    Effect(e.store, Tally(0, e.tally.writeErrors, job.points))
  }

  function ReadRest(env: Env, job: Job, n: nat, s: Db): Effect {
    if Answers(env, job.at, n) then CountRest(env, job, s) else Effect(s, Tally(1, 0, 0))
  }

  /** The closure's code run to its end from phase ph with nobody else running. */
  function Complete(env: Env, job: Job, ph: Phase, s: Db): Effect {
    match ph
    case Queued => ReadRest(env, job, 1, s)
    case Reading(n) => ReadRest(env, job, n, s)
    case ReadFailed => Effect(s, Tally(1, 0, 0))
    case Counting => CountRest(env, job, s)
    case Writing(k, n) =>
      if k >= |job.batches| then Effect(s, Tally(0, 0, 0))
      else
        var w := WriteFrom(s, env.dst, job.batches[k], env.faults, job.at, k, env.cfg.rwMaxRetries, n);
        if w.ok then WriteRest(env, job, k + 1, w.store) else Effect(w.store, Tally(0, 1, 0))
    case WriteFailed => Effect(s, Tally(0, 1, 0))
    case Finished => Effect(s, Tally(0, 0, 0))
  }

  ghost predicate StepShares(env: Env, job: Job, ph: Phase, s: Db) {
    var m := Next(env, job, ph, s);
    var e := Complete(env, job, m.phase, m.store);
    Complete(env, job, ph, s).store == e.store && Adds(m.tally, e.tally, Complete(env, job, ph, s).tally)
  }

  lemma WritingShares(env: Env, job: Job, k: nat, n: nat, s: Db)
    requires k < |job.batches|
    ensures StepShares(env, job, Writing(k, n), s)
  {
    hide AttemptWrite, WriteFrom, WriteBatches, WriteRest;
    var b := job.batches[k];
    var site := Site(job.at, WriteCall(k, n));
    AttemptThenRest(env, job, k, n, s);
    if site !in env.faults {
      WritingNext(env, job, k + 1, AttemptWrite(s, env.dst, b, env.faults, site));
    }
  }

  /** The write loop takes one attempt and goes on from there. */
  lemma AttemptThenRest(env: Env, job: Job, k: nat, n: nat, s: Db)
    requires k < |job.batches|
    ensures var b, r := job.batches[k], env.cfg.rwMaxRetries;
            var site := Site(job.at, WriteCall(k, n));
            var s' := AttemptWrite(s, env.dst, b, env.faults, site);
            WriteFrom(s, env.dst, b, env.faults, job.at, k, r, n)
            == if site !in env.faults then Written(s', true)
               else if More(env.cfg, n) then WriteFrom(s', env.dst, b, env.faults, job.at, k, r, n + 1)
               else Written(s', false)
  {
    hide AttemptWrite;
  }

  lemma WritingNext(env: Env, job: Job, k: nat, s: Db)
    ensures Complete(env, job, Writing(k, 1), s) == WriteRest(env, job, k, s)
  {
  }

  /** A step takes its share of what was left and leaves the rest. */
  lemma NextCompletes(env: Env, job: Job, ph: Phase, s: Db)
    requires ph != Finished
    ensures StepShares(env, job, ph, s)
  {
    if ph.Writing? && ph.batch < |job.batches| {
      WritingShares(env, job, ph.batch, ph.attempt, s);
    } else if ph.Counting? {
      assert Complete(env, job, Writing(0, 1), s) == WriteRest(env, job, 0, s);
    }
  }

  lemma {:induction false} AnswersMeans(env: Env, at: Place, n: nat)
    requires 1 <= n <= Budget(env.cfg.rwMaxRetries)
    ensures Answers(env, at, n) <==>
      exists i :: n <= i <= Budget(env.cfg.rwMaxRetries) && QueryErrors(env.faults, at)(i).None?
    decreases MAX_RETRIES - n
  {
    var errs := QueryErrors(env.faults, at);
    assert errs(n).None? <==> Site(at, QueryCall(n)) !in env.faults;
    if errs(n).Some? && More(env.cfg, n) {
      AnswersMeans(env, at, n + 1);
    }
  }

  /** A job that gets no answer within the retry budget counts one read error and writes nothing;
      one that does counts its points, written or not, and one write error exactly when one of
      its sub-batches is never accepted. */
  lemma JobMeaning(env: Env, rows: seq<Point>, at: Place, s: Db)
    ensures var e := Complete(env, JobOf(rows, env.cfg, at), Queued, s);
            var bs := Split(RowPoints(rows), env.cfg.maxPoints);
            var r := env.cfg.rwMaxRetries;
            var stored := forall k :: 0 <= k < |bs| ==> BatchAccepted(env.faults, at, k, r);
            && (!ReadSucceeds(env.faults, at, r) ==> e == Effect(s, Tally(1, 0, 0)))
            && (ReadSucceeds(env.faults, at, r) ==>
                  && e.tally == Tally(0, if stored then 0 else 1, |RowPoints(rows)|)
                  && (stored ==> e.store == Write(s, env.dst, Slots(RowPoints(rows)))))
            && e.tally.readErrors + e.tally.writeErrors <= 1
  {
    AnswersMeans(env, at, 1);
    WriteOnce(s, env.dst, RowPoints(rows), env.faults, at, env.cfg);
  }

  /** The submitted closure itself, with the pool to itself. */
  method RunJob(srv: Server, env: Env, rows: seq<Point>, at: Place) returns (t: Tally)
    modifies srv
    ensures Effect(srv.data, t) == Complete(env, JobOf(rows, env.cfg, at), Queued, old(srv.data))
  {
    AnswersMeans(env, at, 1);
    var batchpoints, np, rerr := ReadDB(rows, env.faults, at, env.cfg.rwMaxRetries);
    if rerr {
      return Tally(1, 0, 0);
    }
    var werr := WriteDB(srv, env.dst, batchpoints, env.faults, at, env.cfg);
    t := Tally(0, if werr then 1 else 0, np);
  }

  // ------------------------------------------------------------------- the pool

  datatype Pool = Pool(store: Db, phases: seq<Phase>, tally: Tally)

  predicate Active(ph: Phase) {
    ph != Queued && ph != Finished
  }

  function Running(phases: seq<Phase>): set<nat> {
    set j: nat | j < |phases| && Active(phases[j])
  }

  /** workerpool.New gives a pool at least one worker. */
  function Workers(cfg: Config): nat {
    Max(1, cfg.numWorkers)
  }

  predicate CanStep(env: Env, pool: Pool, j: int) {
    && 0 <= j < |pool.phases|
    && pool.phases[j] != Finished
    && (pool.phases[j] == Queued ==> |Running(pool.phases)| < Workers(env.cfg))
  }

  predicate AllFinished(pool: Pool) {
    forall j :: 0 <= j < |pool.phases| ==> pool.phases[j] == Finished
  }

  function Submitted(s: Db, n: nat): Pool {
    Pool(s, seq(n, _ => Queued), Tally(0, 0, 0))
  }

  function StepPool(env: Env, jobs: seq<Job>, pool: Pool, j: nat): Pool
    requires j < |jobs| == |pool.phases|
  {
    var m := Next(env, jobs[j], pool.phases[j], pool.store);
    Pool(m.store, pool.phases[j := m.phase],
         Tally(pool.tally.readErrors + m.tally.readErrors,
               pool.tally.writeErrors + m.tally.writeErrors,
               pool.tally.points + m.tally.points))
  }

  /** The pool after the workers took the given steps, if each was allowed in its turn. */
  function RunSchedule(env: Env, jobs: seq<Job>, pool: Pool, schedule: seq<nat>): Option<Pool>
    requires |jobs| == |pool.phases|
    decreases |schedule|
  {
    if schedule == [] then Some(pool)
    else if !CanStep(env, pool, schedule[0]) then None
    else RunSchedule(env, jobs, StepPool(env, jobs, pool, schedule[0]), schedule[1..])
  }

  /** The jobs one after the other. */
  function RunInOrder(env: Env, jobs: seq<Job>, s: Db): Effect {
    if jobs == [] then Effect(s, Tally(0, 0, 0))
    else
      var n := |jobs| - 1;
      var e := RunInOrder(env, jobs[..n], s);
      var l := Complete(env, jobs[n], Queued, e.store);
      Effect(l.store, Tally(e.tally.readErrors + l.tally.readErrors,
                            e.tally.writeErrors + l.tally.writeErrors,
                            e.tally.points + l.tally.points))
  }

  ghost predicate OwnPoints(job: Job) {
    forall b, p: Point :: b in job.batches && Some(p) in b ==> p.meas == job.meas
  }

  /** Each job reads its own measurement, and no two jobs the same one: they come from the keys
      of a map. */
  ghost predicate OneJobEach(jobs: seq<Job>) {
    && (forall i, j :: 0 <= i < j < |jobs| ==> jobs[i].meas != jobs[j].meas)
    && (forall j :: 0 <= j < |jobs| ==> OwnPoints(jobs[j]))
  }

  // -------------------------------------------------- each job owns its cells

  predicate InRegion(dst: Dest, m: string, k: Key) {
    k.db == dst.db && k.rp == dst.rp && k.meas == m
  }

  ghost predicate SameFor(s: Db, t: Db, dst: Dest, m: string) {
    forall k :: InRegion(dst, m, k) ==> Cell(s, k) == Cell(t, k)
  }

  ghost predicate SameOutside(s: Db, t: Db, dst: Dest, m: string) {
    forall k :: !InRegion(dst, m, k) ==> Cell(s, k) == Cell(t, k)
  }

  lemma {:induction false} OverlayElsewhere(dst: Dest, b: Batch, k: Key)
    requires forall p :: Some(p) in b ==> KeyOf(dst, p) != k
    ensures Overlay(dst, b, k) == None
  {
    if b != [] {
      assert b[0].Some? ==> Some(b[0].value) in b;
      OverlayElsewhere(dst, b[1..], k);
    }
  }

  lemma NextOutside(env: Env, job: Job, ph: Phase, s: Db)
    requires OwnPoints(job)
    ensures SameOutside(Next(env, job, ph, s).store, s, env.dst, job.meas)
  {
    var bs := job.batches;
    if ph.Writing? && ph.batch < |bs| {
      var b := bs[ph.batch];
      var site := Site(job.at, WriteCall(ph.batch, ph.attempt));
      var part := if site in env.faults then Landed(env.faults[site], b) else b;
      if site in env.faults {
        LandedInBatch(env.faults[site], b);
      }
      forall k | !InRegion(env.dst, job.meas, k) ensures Cell(Write(s, env.dst, part), k) == Cell(s, k) {
        forall p | Some(p) in part ensures KeyOf(env.dst, p) != k {
          assert b in bs;
        }
        OverlayElsewhere(env.dst, part, k);
        WriteCell(s, env.dst, part, k);
      }
    }
  }

  /** What a job from phase ph on stores: it does not depend on the store. */
  function RestStored(env: Env, job: Job, ph: Phase): Batch {
    var r := env.cfg.rwMaxRetries;
    var all := (k: nat) => StoredAll(job.batches, env.faults, job.at, r, k);
    match ph
    case Queued => if Answers(env, job.at, 1) then all(0) else []
    case Reading(n) => if Answers(env, job.at, n) then all(0) else []
    case Counting => all(0)
    case Writing(k, n) =>
      if k >= |job.batches| then []
      else
        Stored(job.batches[k], env.faults, job.at, k, r, n)
        + if Accepts(env.faults, job.at, k, r, n) then all(k + 1) else []
    case _ => []
  }

  lemma CompleteStores(env: Env, job: Job, ph: Phase, s: Db)
    ensures Complete(env, job, ph, s).store == Write(s, env.dst, RestStored(env, job, ph))
  {
    if ph.Writing? && ph.batch < |job.batches| {
      WritingStores(env, job, ph.batch, ph.attempt, s);
    } else {
      BatchesStore(s, env.dst, job.batches, env.faults, job.at, env.cfg.rwMaxRetries, 0);
    }
  }

  lemma WritingStores(env: Env, job: Job, k: nat, n: nat, s: Db)
    requires k < |job.batches|
    ensures Complete(env, job, Writing(k, n), s).store == Write(s, env.dst, RestStored(env, job, Writing(k, n)))
  {
    var r := env.cfg.rwMaxRetries;
    var part := Stored(job.batches[k], env.faults, job.at, k, r, n);
    FromStores(s, env.dst, job.batches[k], env.faults, job.at, k, r, n);
    if Accepts(env.faults, job.at, k, r, n) {
      BatchesStore(Write(s, env.dst, part), env.dst, job.batches, env.faults, job.at, r, k + 1);
      WriteConcat(s, env.dst, part, StoredAll(job.batches, env.faults, job.at, r, k + 1));
    } else {
      assert part + [] == part;
    }
  }

  lemma StoredOwn(env: Env, job: Job, ph: Phase, p: Point)
    requires OwnPoints(job) && Some(p) in RestStored(env, job, ph)
    ensures p.meas == job.meas
  {
    var r := env.cfg.rwMaxRetries;
    if ph.Writing? {
      FromStores(map[], env.dst, job.batches[ph.batch], env.faults, job.at, ph.batch, r, ph.attempt);
      if Some(p) in Stored(job.batches[ph.batch], env.faults, job.at, ph.batch, r, ph.attempt) {
        assert job.batches[ph.batch] in job.batches;
      } else {
        StoredAllFrom(job.batches, env.faults, job.at, r, ph.batch + 1, Some(p));
      }
    } else {
      StoredAllFrom(job.batches, env.faults, job.at, r, 0, Some(p));
    }
  }

  lemma CompleteOutside(env: Env, job: Job, ph: Phase, s: Db)
    requires OwnPoints(job)
    ensures SameOutside(Complete(env, job, ph, s).store, s, env.dst, job.meas)
  {
    CompleteStores(env, job, ph, s);
    var b := RestStored(env, job, ph);
    forall k | !InRegion(env.dst, job.meas, k) ensures Cell(Write(s, env.dst, b), k) == Cell(s, k) {
      forall p | Some(p) in b ensures KeyOf(env.dst, p) != k {
        StoredOwn(env, job, ph, p);
      }
      OverlayElsewhere(env.dst, b, k);
      WriteCell(s, env.dst, b, k);
    }
  }

  lemma CompleteLocal(env: Env, job: Job, ph: Phase, s: Db, t: Db, m: string)
    requires SameFor(s, t, env.dst, m)
    ensures SameFor(Complete(env, job, ph, s).store, Complete(env, job, ph, t).store, env.dst, m)
  {
    CompleteStores(env, job, ph, s);
    CompleteStores(env, job, ph, t);
    var b := RestStored(env, job, ph);
    forall k | InRegion(env.dst, m, k) ensures Cell(Write(s, env.dst, b), k) == Cell(Write(t, env.dst, b), k) {
      WriteCell(s, env.dst, b, k);
      WriteCell(t, env.dst, b, k);
    }
  }

  /** The counters of a job do not depend on the store. */
  lemma TallyFixed(env: Env, job: Job, ph: Phase, s: Db, t: Db)
    ensures Complete(env, job, ph, s).tally == Complete(env, job, ph, t).tally
  {
    hide WriteBatches, WriteFrom, StoredAll, AcceptsAll, Stored, Accepts, Write;
    var r := env.cfg.rwMaxRetries;
    if ph.Writing? && ph.batch < |job.batches| {
      WritingTally(env, job, ph.batch, ph.attempt, s, t);
    } else {
      BatchesStore(s, env.dst, job.batches, env.faults, job.at, r, 0);
      BatchesStore(t, env.dst, job.batches, env.faults, job.at, r, 0);
    }
  }

  lemma WritingTally(env: Env, job: Job, k: nat, n: nat, s: Db, t: Db)
    requires k < |job.batches|
    ensures Complete(env, job, Writing(k, n), s).tally == Complete(env, job, Writing(k, n), t).tally
  {
    hide WriteBatches, WriteFrom, StoredAll, AcceptsAll, Stored, Accepts, Write;
    var r := env.cfg.rwMaxRetries;
    var b := job.batches[k];
    var part := Stored(b, env.faults, job.at, k, r, n);
    FromStores(s, env.dst, b, env.faults, job.at, k, r, n);
    FromStores(t, env.dst, b, env.faults, job.at, k, r, n);
    BatchesStore(Write(s, env.dst, part), env.dst, job.batches, env.faults, job.at, r, k + 1);
    BatchesStore(Write(t, env.dst, part), env.dst, job.batches, env.faults, job.at, r, k + 1);
  }

  // ---------------------------------------------------- sums over the jobs

  function Total(ts: seq<Tally>): Tally {
    if ts == [] then Tally(0, 0, 0)
    else
      var r, t := Total(ts[..|ts| - 1]), ts[|ts| - 1];
      Tally(r.readErrors + t.readErrors, r.writeErrors + t.writeErrors, r.points + t.points)
  }

  lemma {:induction false} TotalUpdate(ts: seq<Tally>, j: nat, t: Tally, c: Tally)
    requires j < |ts| && Adds(Total(ts[j := t]), ts[j], c)
    ensures Adds(Total(ts), t, c)
  {
    var n := |ts| - 1;
    var us := ts[j := t];
    if j == n {
      assert us[..n] == ts[..n];
    } else {
      assert us[..n] == ts[..n][j := t];
      var r, v := Total(us[..n]), ts[j];
      TotalUpdate(ts[..n], j, t, Tally(r.readErrors + v.readErrors, r.writeErrors + v.writeErrors,
            r.points + v.points));
    }
  }

  function Sum(xs: seq<nat>): nat {
    if xs == [] then 0 else Sum(xs[..|xs| - 1]) + xs[|xs| - 1]
  }

  lemma {:induction false} SumUpdate(xs: seq<nat>, j: nat, x: nat)
    requires j < |xs|
    ensures Sum(xs[j := x]) + xs[j] == Sum(xs) + x
  {
    var n := |xs| - 1;
    var ys := xs[j := x];
    if j == n {
      assert ys[..n] == xs[..n];
    } else {
      assert ys[..n] == xs[..n][j := x];
      SumUpdate(xs[..n], j, x);
    }
  }

  /** What each job will still add to the counters. */
  function Owed(env: Env, jobs: seq<Job>, phases: seq<Phase>): seq<Tally>
    requires |jobs| == |phases|
  {
    seq(|jobs|, j requires 0 <= j < |jobs| => Complete(env, jobs[j], phases[j], map[]).tally)
  }

  function StepsLeft(env: Env, jobs: seq<Job>, phases: seq<Phase>): nat
    requires |jobs| == |phases|
  {
    Sum(seq(|jobs|, j requires 0 <= j < |jobs| => Fuel(env, jobs[j], phases[j])))
  }

  // ------------------------------------------------- the invariant of the pool

  ghost predicate JobOnTrack(env: Env, job: Job, ph: Phase, s: Db, s0: Db) {
    SameFor(Complete(env, job, ph, s).store, Complete(env, job, Queued, s0).store, env.dst, job.meas)
  }

  ghost predicate Foreign(env: Env, jobs: seq<Job>, k: Key) {
    forall j :: 0 <= j < |jobs| ==> !InRegion(env.dst, jobs[j].meas, k)
  }

  /** Every job, finished from where it stands, would leave its cells as a lone run does; the
      other cells are untouched; counted and owed make the full count; the workers suffice. */
  ghost predicate PoolInv(env: Env, jobs: seq<Job>, s0: Db, pool: Pool) {
    && |pool.phases| == |jobs|
    && (forall j :: 0 <= j < |jobs| ==> JobOnTrack(env, jobs[j], pool.phases[j], pool.store, s0))
    && (forall k :: Foreign(env, jobs, k) ==> Cell(pool.store, k) == Cell(s0, k))
    && Adds(pool.tally, Total(Owed(env, jobs, pool.phases)),
            Total(Owed(env, jobs, Submitted(s0, |jobs|).phases)))
    && |Running(pool.phases)| <= Workers(env.cfg)
  }

  lemma PoolInvInit(env: Env, jobs: seq<Job>, s0: Db)
    ensures PoolInv(env, jobs, s0, Submitted(s0, |jobs|))
  {
    assert Running(Submitted(s0, |jobs|).phases) == {};
  }

  lemma StepTracks(env: Env, jobs: seq<Job>, s0: Db, pool: Pool, j: nat, i: nat)
    requires OneJobEach(jobs) && PoolInv(env, jobs, s0, pool) && CanStep(env, pool, j) && i < |jobs|
    ensures var pool' := StepPool(env, jobs, pool, j);
            JobOnTrack(env, jobs[i], pool'.phases[i], pool'.store, s0)
  {
    var pool' := StepPool(env, jobs, pool, j);
    assert JobOnTrack(env, jobs[i], pool.phases[i], pool.store, s0);
    NextCompletes(env, jobs[j], pool.phases[j], pool.store);
    if i != j {
      assert jobs[i].meas != jobs[j].meas;
      NextOutside(env, jobs[j], pool.phases[j], pool.store);
      assert SameFor(pool'.store, pool.store, env.dst, jobs[i].meas);
      CompleteLocal(env, jobs[i], pool.phases[i], pool'.store, pool.store, jobs[i].meas);
    }
  }

  /** What a step does to a job's phase and to the counters does not depend on the store. */
  lemma NextSame(env: Env, job: Job, ph: Phase, s: Db, t: Db)
    ensures var a, b := Next(env, job, ph, s), Next(env, job, ph, t); a.phase == b.phase && a.tally == b.tally
  {
  }

  lemma StepOwes(env: Env, jobs: seq<Job>, pool: Pool, j: nat, all: Tally)
    requires |jobs| == |pool.phases| && CanStep(env, pool, j)
    requires Adds(pool.tally, Total(Owed(env, jobs, pool.phases)), all)
    ensures var pool' := StepPool(env, jobs, pool, j);
            Adds(pool'.tally, Total(Owed(env, jobs, pool'.phases)), all)
  {
    var pool' := StepPool(env, jobs, pool, j);
    var before, after := Owed(env, jobs, pool.phases), Owed(env, jobs, pool'.phases);
    var m := Next(env, jobs[j], pool.phases[j], pool.store);
    var m0 := Next(env, jobs[j], pool.phases[j], map[]);
    NextSame(env, jobs[j], pool.phases[j], pool.store, map[]);
    hide Next, Complete, Total, CanStep;
    var t := Complete(env, jobs[j], m.phase, map[]).tally;
    TallyFixed(env, jobs[j], m.phase, m0.store, map[]);
    NextCompletes(env, jobs[j], pool.phases[j], map[]);
    assert after == before[j := t];
    assert Adds(m.tally, t, before[j]);
    var a, v := Total(after), before[j];
    TotalUpdate(before, j, t, Tally(a.readErrors + v.readErrors, a.writeErrors + v.writeErrors, a.points + v.points));
  }

  lemma StepWorkers(env: Env, jobs: seq<Job>, pool: Pool, j: nat)
    requires |jobs| == |pool.phases| && CanStep(env, pool, j)
    requires |Running(pool.phases)| <= Workers(env.cfg)
    ensures |Running(StepPool(env, jobs, pool, j).phases)| <= Workers(env.cfg)
  {
    var before, after := Running(pool.phases), Running(StepPool(env, jobs, pool, j).phases);
    if pool.phases[j] == Queued {
      assert after == before + {j};
    } else {
      assert after <= before;
      SubsetSize(after, before);
    }
  }

  lemma {:induction false} SubsetSize(a: set<nat>, b: set<nat>)
    requires a <= b
    ensures |a| <= |b|
  {
    assert b == a + (b - a);
  }

  lemma StepFuel(env: Env, jobs: seq<Job>, pool: Pool, j: nat)
    requires |jobs| == |pool.phases| && CanStep(env, pool, j)
    ensures StepsLeft(env, jobs, StepPool(env, jobs, pool, j).phases) < StepsLeft(env, jobs, pool.phases)
  {
    var fuel := (phases: seq<Phase>) requires |phases| == |jobs| =>
      seq(|jobs|, i requires 0 <= i < |jobs| => Fuel(env, jobs[i], phases[i]));
    var phases' := StepPool(env, jobs, pool, j).phases;
    FuelDrops(env, jobs[j], pool.phases[j], pool.store);
    assert fuel(phases') == fuel(pool.phases)[j := Fuel(env, jobs[j], phases'[j])];
    SumUpdate(fuel(pool.phases), j, Fuel(env, jobs[j], phases'[j]));
  }

  /** Every step of every worker keeps the invariant, and brings the end of the window nearer. */
  lemma PoolInvStep(env: Env, jobs: seq<Job>, s0: Db, pool: Pool, j: nat)
    requires OneJobEach(jobs) && PoolInv(env, jobs, s0, pool) && CanStep(env, pool, j)
    ensures PoolInv(env, jobs, s0, StepPool(env, jobs, pool, j))
    ensures StepsLeft(env, jobs, StepPool(env, jobs, pool, j).phases) < StepsLeft(env, jobs, pool.phases)
  {
    var pool' := StepPool(env, jobs, pool, j);
    forall i | 0 <= i < |jobs| ensures JobOnTrack(env, jobs[i], pool'.phases[i], pool'.store, s0) {
      StepTracks(env, jobs, s0, pool, j, i);
    }
    NextOutside(env, jobs[j], pool.phases[j], pool.store);
    StepOwes(env, jobs, pool, j, Total(Owed(env, jobs, Submitted(s0, |jobs|).phases)));
    StepWorkers(env, jobs, pool, j);
    StepFuel(env, jobs, pool, j);
  }

  /** As long as a job is unfinished, some worker can take a step. */
  lemma NoDeadlock(env: Env, pool: Pool)
    requires !AllFinished(pool)
    ensures exists j :: 0 <= j < |pool.phases| && CanStep(env, pool, j)
  {
    var i :| 0 <= i < |pool.phases| && pool.phases[i] != Finished;
    if Running(pool.phases) == {} {
      assert CanStep(env, pool, i);
    } else {
      var j :| j in Running(pool.phases);
      assert CanStep(env, pool, j);
    }
  }

  // ------------------------------------------------------ how many run at a time

  /** Never more jobs run at a time than there are workers, and there is always one. */
  lemma AtMostWorkers(env: Env, jobs: seq<Job>, s: Db, schedule: seq<nat>)
    requires OneJobEach(jobs) && RunSchedule(env, jobs, Submitted(s, |jobs|), schedule).Some?
    ensures var phases := RunSchedule(env, jobs, Submitted(s, |jobs|), schedule).value.phases;
            |set j: nat | j < |phases| && phases[j] != Queued && phases[j] != Finished|
            <= if env.cfg.numWorkers < 1 then 1 else env.cfg.numWorkers
  {
    PoolInvInit(env, jobs, s);
    ScheduleKeepsInv(env, jobs, s, Submitted(s, |jobs|), schedule);
    var phases := RunSchedule(env, jobs, Submitted(s, |jobs|), schedule).value.phases;
    assert Running(phases) == set j: nat | j < |phases| && phases[j] != Queued && phases[j] != Finished;
  }

  function FirstJobs(n: nat): seq<nat> {
    seq(n, i => i)
  }

  lemma {:induction false} ScheduleConcat(env: Env, jobs: seq<Job>, pool: Pool, a: seq<nat>, b: seq<nat>)
    requires |jobs| == |pool.phases| && RunSchedule(env, jobs, pool, a).Some?
    ensures |RunSchedule(env, jobs, pool, a).value.phases| == |jobs|
    ensures RunSchedule(env, jobs, pool, a + b) == RunSchedule(env, jobs, RunSchedule(env, jobs, pool, a).value, b)
    decreases |a|
  {
    hide Next;
    if a == [] {
      assert a + b == b;
    } else {
      assert (a + b)[1..] == a[1..] + b;
      ScheduleConcat(env, jobs, StepPool(env, jobs, pool, a[0]), a[1..], b);
    }
  }

  lemma {:induction false} FirstRunning(phases: seq<Phase>, n: nat)
    requires n <= |phases|
    requires forall j :: 0 <= j < |phases| ==> phases[j] == if j < n then Reading(1) else Queued
    ensures |Running(phases)| == n
    decreases n
  {
    if n == 0 {
      assert Running(phases) == {};
    } else {
      var before := phases[n - 1 := Queued];
      FirstRunning(before, n - 1);
      assert Running(phases) == Running(before) + {n - 1};
    }
  }

  /** As many jobs as there are workers, or all of them, can be reading at once. */
  lemma {:induction false} WorkersAllBusy(env: Env, jobs: seq<Job>, s: Db, n: nat)
    requires n <= |jobs| && n <= if env.cfg.numWorkers < 1 then 1 else env.cfg.numWorkers
    ensures var end := RunSchedule(env, jobs, Submitted(s, |jobs|), FirstJobs(n));
            && end.Some? && |end.value.phases| == |jobs|
            && forall j :: 0 <= j < |jobs| ==> end.value.phases[j] == if j < n then Reading(1) else Queued
  {
    var start := Submitted(s, |jobs|);
    if n > 0 {
      WorkersAllBusy(env, jobs, s, n - 1);
      var before := RunSchedule(env, jobs, start, FirstJobs(n - 1)).value;
      assert FirstJobs(n) == FirstJobs(n - 1) + [n - 1];
      ScheduleConcat(env, jobs, start, FirstJobs(n - 1), [n - 1]);
      FirstRunning(before.phases, n - 1);
      assert CanStep(env, before, n - 1);
      var after := StepPool(env, jobs, before, n - 1);
      assert RunSchedule(env, jobs, before, [n - 1]) == Some(after) by {
        assert [n - 1][1..] == [];
      }
    }
  }

  // ---------------------------------------------- the end does not depend on the way

  lemma {:induction false} InOrderCells(env: Env, jobs: seq<Job>, s: Db)
    requires OneJobEach(jobs)
    ensures forall j :: 0 <= j < |jobs| ==>
      SameFor(RunInOrder(env, jobs, s).store, Complete(env, jobs[j], Queued, s).store, env.dst, jobs[j].meas)
    ensures forall k :: Foreign(env, jobs, k) ==> Cell(RunInOrder(env, jobs, s).store, k) == Cell(s, k)
  {
    if jobs != [] {
      var n := |jobs| - 1;
      var s' := RunInOrder(env, jobs[..n], s).store;
      InOrderCells(env, jobs[..n], s);
      CompleteOutside(env, jobs[n], Queued, s');
      forall j | 0 <= j < |jobs|
        ensures SameFor(RunInOrder(env, jobs, s).store, Complete(env, jobs[j], Queued, s).store, env.dst, jobs[j].meas)
      {
        if j < n {
          assert jobs[..n][j] == jobs[j];
        } else {
          forall k | InRegion(env.dst, jobs[n].meas, k) ensures Cell(s', k) == Cell(s, k) {
            assert Foreign(env, jobs[..n], k);
          }
          CompleteLocal(env, jobs[n], Queued, s', s, jobs[n].meas);
        }
      }
      forall k | Foreign(env, jobs, k) ensures Cell(RunInOrder(env, jobs, s).store, k) == Cell(s, k) {
        assert Foreign(env, jobs[..n], k);
      }
    }
  }

  lemma {:induction false} InOrderTally(env: Env, jobs: seq<Job>, s: Db)
    ensures RunInOrder(env, jobs, s).tally == Total(Owed(env, jobs, Submitted(s, |jobs|).phases))
  {
    hide Complete;
    if jobs != [] {
      var n := |jobs| - 1;
      InOrderTally(env, jobs[..n], s);
      var e := RunInOrder(env, jobs[..n], s);
      TallyFixed(env, jobs[n], Queued, e.store, map[]);
      assert Owed(env, jobs, Submitted(s, |jobs|).phases)[..n] == Owed(env, jobs[..n], Submitted(s, n).phases);
    }
  }

  lemma {:induction false} NothingOwed(ts: seq<Tally>)
    requires forall i :: 0 <= i < |ts| ==> ts[i] == Tally(0, 0, 0)
    ensures Total(ts) == Tally(0, 0, 0)
  {
    if ts != [] {
      NothingOwed(ts[..|ts| - 1]);
    }
  }

  lemma FinishedTally(env: Env, jobs: seq<Job>, s0: Db, pool: Pool)
    requires PoolInv(env, jobs, s0, pool) && AllFinished(pool)
    ensures pool.tally == RunInOrder(env, jobs, s0).tally
  {
    InOrderTally(env, jobs, s0);
    NothingOwed(Owed(env, jobs, pool.phases));
  }

  lemma FinishedCell(env: Env, jobs: seq<Job>, s0: Db, pool: Pool, k: Key)
    requires OneJobEach(jobs) && PoolInv(env, jobs, s0, pool) && AllFinished(pool)
    ensures Cell(pool.store, k) == Cell(RunInOrder(env, jobs, s0).store, k)
  {
    InOrderCells(env, jobs, s0);
    hide Complete, RunInOrder, OneJobEach, Adds, Owed, Total;
    if !Foreign(env, jobs, k) {
      var j :| 0 <= j < |jobs| && InRegion(env.dst, jobs[j].meas, k);
      assert JobOnTrack(env, jobs[j], Finished, pool.store, s0);
      NothingLeft(env, jobs[j], pool.store);
    }
  }

  lemma NothingLeft(env: Env, job: Job, s: Db)
    ensures Complete(env, job, Finished, s) == Effect(s, Tally(0, 0, 0))
  {
  }

  lemma FinishedPool(env: Env, jobs: seq<Job>, s0: Db, pool: Pool)
    requires OneJobEach(jobs) && PoolInv(env, jobs, s0, pool) && AllFinished(pool)
    ensures Effect(pool.store, pool.tally) == RunInOrder(env, jobs, s0)
  {
    FinishedTally(env, jobs, s0, pool);
    forall k ensures Cell(pool.store, k) == Cell(RunInOrder(env, jobs, s0).store, k) {
      FinishedCell(env, jobs, s0, pool, k);
    }
    CellsDecide(pool.store, RunInOrder(env, jobs, s0).store);
  }

  /** Every schedule that reaches the end of the window, with at most the configured number of
      workers at a time, leaves the slave and the counters as running the jobs one by one. */
  lemma ScheduleIndependence(env: Env, jobs: seq<Job>, s: Db, schedule: seq<nat>)
    requires OneJobEach(jobs)
    requires var end := RunSchedule(env, jobs, Submitted(s, |jobs|), schedule);
             end.Some? && AllFinished(end.value)
    ensures var end := RunSchedule(env, jobs, Submitted(s, |jobs|), schedule).value;
            Effect(end.store, end.tally) == RunInOrder(env, jobs, s)
  {
    PoolInvInit(env, jobs, s);
    ScheduleKeepsInv(env, jobs, s, Submitted(s, |jobs|), schedule);
    FinishedPool(env, jobs, s, RunSchedule(env, jobs, Submitted(s, |jobs|), schedule).value);
  }

  lemma {:induction false} ScheduleKeepsInv(env: Env, jobs: seq<Job>, s0: Db, pool: Pool, schedule: seq<nat>)
    requires OneJobEach(jobs) && PoolInv(env, jobs, s0, pool)
    ensures var end := RunSchedule(env, jobs, pool, schedule);
            end.Some? ==>
              PoolInv(env, jobs, s0, end.value)
              && |schedule| + StepsLeft(env, jobs, end.value.phases) <= StepsLeft(env, jobs, pool.phases)
    decreases |schedule|
  {
    if schedule != [] && CanStep(env, pool, schedule[0]) {
      PoolInvStep(env, jobs, s0, pool, schedule[0]);
      ScheduleKeepsInv(env, jobs, s0, StepPool(env, jobs, pool, schedule[0]), schedule[1..]);
    }
  }

  /** Submitting the jobs and waiting for them: any worker that can step may be next. */
  method StopWait(srv: Server, env: Env, jobs: seq<Job>) returns (t: Tally)
    requires OneJobEach(jobs)
    modifies srv
    ensures Effect(srv.data, t) == RunInOrder(env, jobs, old(srv.data))
  {
    var pool := Submitted(srv.data, |jobs|);
    PoolInvInit(env, jobs, srv.data);
    while !AllFinished(pool)
      invariant PoolInv(env, jobs, old(srv.data), pool)
      invariant srv.data == pool.store
      decreases StepsLeft(env, jobs, pool.phases)
    {
      NoDeadlock(env, pool);
      var j :| 0 <= j < |pool.phases| && CanStep(env, pool, j);
      PoolInvStep(env, jobs, old(srv.data), pool, j);
      pool := StepPool(env, jobs, pool, j);
      srv.data := pool.store;
    }
    FinishedPool(env, jobs, old(srv.data), pool);
    t := pool.tally;
  }
}
