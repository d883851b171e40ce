/** The whole run: monitor, supervisor, recoveries and the slave's data. Whatever fails on the way,
    an outage that ends is answered, and what the master held of it is on the slave or reported. */
module EndToEnd {
  import opened GoTime
  import opened Store
  import opened Faults
  import opened Client
  import opened Windows
  import opened CopyTheorems
  import opened Schema
  import opened Supervisor
  import opened Outages
  import opened Replication
  import opened Cluster

  /** What a recovery meets: the master's points and catalog at the time, and the calls that fail. */
  datatype Occasion = Occasion(master: seq<Row>, cat: MasterCatalog, faults: Faults)

  function SetupAt(setup: Setup, o: Occasion): Setup {
    setup.(master := o.master)
  }

  /** The recoveries of a run, each with its occasion. */
  ghost predicate GoodRounds(setup: Setup, os: seq<Occasion>, rounds: seq<Round>) {
    && GoodSetup(setup) && |os| == |rounds|
    && forall k :: 0 <= k < |rounds| ==> Fits(setup, rounds[k].window.start, rounds[k].window.end)
  }

  /** The recovery of one round, as a check runs it on slave data s. */
  function RecoveryOf(setup: Setup, o: Occasion, w: Supervisor.Window, s: Db): Replicated
    requires GoodSetup(setup) && Fits(setup, w.start, w.end)
  {
    RecoveryUnitsGood(SetupAt(setup, o), o.cat, w);
    Replicate(SetupAt(setup, o), RecoveryUnits(o.cat, w), o.faults, s)
  }

  /** The slave's data when the first n recoveries are over. */
  function SlaveAfter(setup: Setup, os: seq<Occasion>, rounds: seq<Round>, n: nat, s: Db): Db
    requires GoodRounds(setup, os, rounds) && n <= |rounds|
  {
    if n == 0 then s
    else RecoveryOf(setup, os[n - 1], rounds[n - 1].window, SlaveAfter(setup, os, rounds, n - 1, s)).store
  }

  ghost predicate GoodOccasions(os: seq<Occasion>) {
    forall o :: o in os ==> ValidMaster(o.master) && WellNamed(o.cat)
  }

  /** The range reaches back to the instant, or the outage was noticed within the check interval
      and had a failed sample at the instant or before. */
  ghost predicate SinceOutage(outage: seq<Entry>, ci: int, w: Supervisor.Window, t: int) {
    w.start <= t || (NoticedInTime(outage, ci) && exists failed :: failed in Missed(outage) && failed <= t)
  }

  /** Since the outage, within the maximum retention and before the last whole second of the range,
      and at no multiple of a tenth of the chunk from it. */
  ghost predicate Stamped(setup: Setup, outage: seq<Entry>, ci: int, w: Supervisor.Window, t: int) {
    && SinceOutage(outage, ci, w, t)
    && UnixSec(w.end) * SECOND - setup.maxret <= t < UnixSec(w.end) * SECOND
    && setup.chunk >= 10 && (UnixSec(w.end) * SECOND - t) % (setup.chunk / 10) != 0
  }

  /** The refreshed catalog of recovery m knows the row, and the master holds it then and at every
      later recovery up to the n-th. */
  ghost predicate OnMaster(os: seq<Occasion>, m: nat, n: nat, row: Row)
    requires m < n <= |os|
  {
    Known(os[m].cat, row) && forall j :: m <= j < n ==> row in os[j].master
  }

  /** After n recoveries the point is on the slave, or recovery m reported a bad chunk that holds it. */
  ghost predicate Safe(setup: Setup, os: seq<Occasion>, rounds: seq<Round>, m: nat, n: nat, s: Db, row: Row)
    requires GoodRounds(setup, os, rounds) && m < n <= |rounds|
  {
    || Holds(SlaveAfter(setup, os, rounds, n, s), Dest(row.db, row.rp), row.point)
    || var w := rounds[m].window;
       InOwnBad(RecoveryUnits(os[m].cat, w), RecoveryOf(setup, os[m], w, SlaveAfter(setup, os, rounds, m, s)), row)
  }

  /** Later recoveries keep what the slave holds of the master. */
  lemma RecoveryKeeps(setup: Setup, o: Occasion, w: Supervisor.Window, s: Db, row: Row)
    requires GoodSetup(setup) && Fits(setup, w.start, w.end) && ValidMaster(o.master) && WellNamed(o.cat)
    requires row in o.master && Holds(s, Dest(row.db, row.rp), row.point)
    ensures Holds(RecoveryOf(setup, o, w, s).store, Dest(row.db, row.rp), row.point)
  {
    hide Holds, ValidMaster, WellNamed, Replicate, RecoveryUnits;
    RecoveryUnitsGood(SetupAt(setup, o), o.cat, w);
    TargetsDistinct(o.cat, w);
    assert row == Row(row.db, row.rp, row.point);
    ReplicationKeeps(SetupAt(setup, o), RecoveryUnits(o.cat, w), o.faults, s, Dest(row.db, row.rp), row.point);
  }

  lemma RecoverySafe(setup: Setup, os: seq<Occasion>, rounds: seq<Round>, m: nat, s: Db, row: Row)
    requires GoodRounds(setup, os, rounds) && m < |rounds| && GoodOccasions(os)
    requires OnMaster(os, m, m + 1, row) && InRecovery(setup, rounds[m].window, row.point.time)
    ensures Safe(setup, os, rounds, m, m + 1, s, row)
  {
    hide Holds, ValidMaster, WellNamed, Known, Replicate, RecoveryUnits, InOwnBad, Covered;
    var o, w := os[m], rounds[m].window;
    assert o in os;
    RecoveryAccounts(SetupAt(setup, o), o.cat, w, o.faults, SlaveAfter(setup, os, rounds, m, s), row);
  }

  lemma {:induction false} StaysSafe(setup: Setup, os: seq<Occasion>, rounds: seq<Round>, m: nat, n: nat,
        s: Db, row: Row)
    requires GoodRounds(setup, os, rounds) && m < n <= |rounds| && GoodOccasions(os)
    requires OnMaster(os, m, n, row) && InRecovery(setup, rounds[m].window, row.point.time)
    ensures Safe(setup, os, rounds, m, n, s, row)
    decreases n
  {
    hide Holds, ValidMaster, WellNamed, Known, RecoveryOf, Fits, RecoveryUnits, InOwnBad, InRecovery;
    if n == m + 1 {
      RecoverySafe(setup, os, rounds, m, s, row);
    } else {
      StaysSafe(setup, os, rounds, m, n - 1, s, row);
      var before := SlaveAfter(setup, os, rounds, n - 1, s);
      if Holds(before, Dest(row.db, row.rp), row.point) {
        assert os[n - 1] in os;
        RecoveryKeeps(setup, os[n - 1], rounds[n - 1].window, before, row);
      }
    }
  }

  /** The ranges of a run's recoveries never lie backwards. */
  lemma RoundsAreGood(begin: Sys, ci: int, events: seq<Event>, setup: Setup, os: seq<Occasion>)
    requires Initial(begin) && Run(begin, ci, events).Some? && ci >= 0 && GoodSetup(setup)
    requires |os| == |Run(begin, ci, events).value.rounds|
    ensures GoodRounds(setup, os, Run(begin, ci, events).value.rounds)
  {
    hide Run;
    var rounds := Run(begin, ci, events).value.rounds;
    forall k | 0 <= k < |rounds| ensures Fits(setup, rounds[k].window.start, rounds[k].window.end) {
      OutageCovered(begin, ci, events, rounds[k]);
      CountNonNegative(rounds[k].window.start, rounds[k].window.end, setup.chunk, setup.maxret);
    }
  }

  /** With chunks of whole tens of seconds and room for one in the retention, the instants stamped
      since the outage are among those the recovery accounts for. */
  lemma StampedInRecovery(begin: Sys, ci: int, events: seq<Event>, r: Round, setup: Setup, t: int)
    requires Initial(begin) && Run(begin, ci, events).Some? && ci >= 0
    requires r in Run(begin, ci, events).value.rounds
    requires setup.chunk > 0 && setup.chunk % (10 * SECOND) == 0 && setup.maxret >= setup.chunk
    ensures var log := Run(begin, ci, events).value.log;
            r.read < |log| && (Stamped(setup, log[..r.read], ci, r.window, t) ==> InRecovery(setup, r.window, t))
  {
    hide Run, InRecovery;
    OutageCovered(begin, ci, events, r);
    if Stamped(setup, Run(begin, ci, events).value.log[..r.read], ci, r.window, t) {
      RangeInRecovery(setup, r.window, t);
    }
  }

  /** End to end. Take any run of monitor, supervisor and readers, and any reading of it, acted on,
      that finds the slave up again after an outage. Exactly one recovery answers it; it is over
      whenever no recovery is running. Then, whatever calls failed in this recovery and in all the
      others, every point the master holds at an instant the recovery accounts for is on the slave,
      and stays there through every later recovery, or lies in a bad chunk that this recovery
      reported. With chunks of whole tens of seconds and room for one in the retention, it accounts
      for all instants since the outage that are within the retention and before the last whole
      second of its range, but for the multiples of a tenth of the chunk from there. */
  lemma EndToEnd(begin: Sys, ci: int, events: seq<Event>, i: nat, setup: Setup, os: seq<Occasion>, s: Db)
    returns (m: nat)
    requires Initial(begin) && Run(begin, ci, events).Some? && ci >= 0
    requires EndsOutage(ActedOn(Run(begin, ci, events).value), i)
    requires GoodSetup(setup) && |os| == |Run(begin, ci, events).value.rounds| && GoodOccasions(os)
    ensures var sys := Run(begin, ci, events).value;
            && (forall k :: AnsweredBy(sys.rounds, i, k) <==> k == m)
            && (sys.ha.state != Recovering ==> m < sys.ha.recovers == |sys.rounds|)
            && m < |sys.rounds| && i < |sys.log|
    ensures GoodRounds(setup, os, Run(begin, ci, events).value.rounds)
    ensures var sys := Run(begin, ci, events).value;
            forall n, row ::
              (m < n <= |sys.rounds| && OnMaster(os, m, n, row)
               && InRecovery(setup, sys.rounds[m].window, row.point.time)) ==>
                Safe(setup, os, sys.rounds, m, n, s, row)
    ensures var sys := Run(begin, ci, events).value;
            var w := sys.rounds[m].window;
            setup.chunk % (10 * SECOND) == 0 && setup.maxret >= setup.chunk ==>
              forall t :: Stamped(setup, sys.log[..i], ci, w, t) ==> InRecovery(setup, w, t)
  {
    hide Run, Safe, OnMaster, Stamped, GoodOccasions, GoodRounds, EndsOutage, InRecovery;
    var sys := Run(begin, ci, events).value;
    OutagesAnswered(begin, ci, events, i);
    m :| AnsweredBy(sys.rounds, i, m);
    RunCounts(begin, ci, events);
    RoundsAreGood(begin, ci, events, setup, os);
    OutageCovered(begin, ci, events, sys.rounds[m]);
    forall n, row | m < n <= |sys.rounds| && OnMaster(os, m, n, row)
                    && InRecovery(setup, sys.rounds[m].window, row.point.time)
      ensures Safe(setup, os, sys.rounds, m, n, s, row)
    {
      StaysSafe(setup, os, sys.rounds, m, n, s, row);
    }
    if setup.chunk % (10 * SECOND) == 0 && setup.maxret >= setup.chunk {
      forall t | Stamped(setup, sys.log[..i], ci, sys.rounds[m].window, t)
        ensures InRecovery(setup, sys.rounds[m].window, t)
      {
        StampedInRecovery(begin, ci, events, sys.rounds[m], setup, t);
      }
    }
  }

  lemma RunCounts(begin: Sys, ci: int, events: seq<Event>)
    requires Initial(begin) && Run(begin, ci, events).Some?
    ensures var sys := Run(begin, ci, events).value;
            sys.ha.state != Recovering ==> sys.ha.recovers == |sys.rounds|
  {
    hide Run;
    SupervisorSound(begin, ci, events);
  }
}
