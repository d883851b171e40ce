/** The cluster: a recovery's schema and copies, what it accounts for, and the supervisor's check with
    the recovery it starts. */
module Cluster {
  import opened Wrappers
  import opened GoTime
  import opened Store
  import opened Faults
  import opened Client
  import opened Windows
  import opened SyncEngine
  import opened CopyTheorems
  import opened Schema
  import opened Supervisor
  import opened Replication

  // --------------------------------------------------- the schema of a recovery

  const UNFILTERED := Filters(NoFilter, NoFilter, NoFilter)

  /** Database names are distinct, and so are the policies of a database; at most one of them is
      its default. */
  ghost predicate WellNamed(cat: MasterCatalog) {
    && DistinctNames(cat.dbs)
    && forall db :: db in cat.policies ==> OneDefault(cat.policies[db])
  }

  ghost predicate OneDefault(rps: seq<RetPol>) {
    forall i, j :: 0 <= i < j < |rps| ==> rps[i].name != rps[j].name && !(rps[i].def && rps[j].def)
  }

  /** The catalog knows where the row is: its database answers with its policies, one of which is
      the default, and lists its measurement. */
  ghost predicate Known(cat: MasterCatalog, row: Row) {
    && row.db in cat.dbs && row.db != INTERNAL && row.db in cat.policies
    && HasDefault(cat.policies[row.db], NoFilter)
    && (exists r :: r in cat.policies[row.db] && r.name == row.rp)
    && row.point.meas in NamesOf(cat, row.db, row.rp)
  }

  lemma UnfilteredSucceeds(cat: MasterCatalog)
    ensures FullSchema(cat, UNFILTERED).Some?
  {
    SchemaFails(cat, UNFILTERED);
  }

  /** An unfiltered schema copies each policy to the same name. */
  lemma OwnTarget(cat: MasterCatalog, db: string, i: nat)
    requires WellNamed(cat) && EntryOf(cat, UNFILTERED, db).Keep? && db in cat.policies && i < |cat.policies[db]|
    ensures var d := EntryOf(cat, UNFILTERED, db).db;
            d.name == d.newName == db && |d.rps| == |cat.policies[db]|
            && d.rps[i].name == cat.policies[db][i].name && TargetRp(d, d.rps[i]) == d.rps[i].name
            && DistinctNames(d.rps[i].measurements)
  {
    var rps := cat.policies[db];
    DefaultExact(rps, NoFilter);
    SelectedExact(NamesOf(cat, db, rps[i].name), NoFilter);
    var r :| r in rps && r.name == DefaultOf(rps, NoFilter).value && r.def;
    var j :| 0 <= j < |rps| && rps[j] == r;
    assert OneDefault(rps);
  }

  ghost predicate DistinctTargets(units: seq<Unit>) {
    forall i, j :: 0 <= i < j < |units| ==> units[i].dst != units[j].dst
  }

  /** Units of databases `dbs` over one range whose targets are their own, named as their sources. */
  ghost predicate OwnTargets(units: seq<Unit>, dbs: seq<string>, start: int, end: int) {
    && DistinctTargets(units)
    && forall k :: 0 <= k < |units| ==>
         units[k].dst == Dest(units[k].sdb, units[k].srp) && units[k].sdb in dbs
         && units[k].start == start && units[k].end == end && DistinctNames(units[k].meas)
  }

  /** An unfiltered schema has such units. */
  lemma {:induction false} SchemaUnits(cat: MasterCatalog, dbs: seq<string>, start: int, end: int)
    requires WellNamed(cat) && DistinctNames(dbs) && SchemaOf(cat, UNFILTERED, dbs).Some?
    ensures OwnTargets(DataUnits(SchemaOf(cat, UNFILTERED, dbs).value, start, end), dbs, start, end)
  {
    hide EntryOf, WellNamed;
    if dbs != [] {
      hide DataUnits, PolicyUnits, OwnTargets, DistinctNames;
      var n := |dbs| - 1;
      FirstDistinct(dbs, n);
      SchemaUnits(cat, dbs[..n], start, end);
      var before := SchemaOf(cat, UNFILTERED, dbs[..n]).value;
      if EntryOf(cat, UNFILTERED, dbs[n]).Keep? {
        var d := EntryOf(cat, UNFILTERED, dbs[n]).db;
        EntryUnits(cat, dbs[n], start, end);
        JoinTargets(DataUnits(before, start, end), PolicyUnits(d, start, end), dbs, start, end);
        DataUnitsSnoc(before, d, start, end);
      } else {
        JoinTargets(DataUnits(before, start, end), [], dbs, start, end);
        assert DataUnits(before, start, end) + [] == DataUnits(before, start, end);
      }
    }
  }

  lemma FirstDistinct(dbs: seq<string>, n: nat)
    requires DistinctNames(dbs) && n <= |dbs|
    ensures DistinctNames(dbs[..n])
  {
  }

  lemma DataUnitsSnoc(schema: seq<InfluxSchDb>, d: InfluxSchDb, start: int, end: int)
    ensures DataUnits(schema + [d], start, end) == DataUnits(schema, start, end) + PolicyUnits(d, start, end)
  {
    assert (schema + [d])[..|schema|] == schema;
  }

  lemma EntryUnits(cat: MasterCatalog, db: string, start: int, end: int)
    requires WellNamed(cat) && EntryOf(cat, UNFILTERED, db).Keep?
    ensures OwnTargets(PolicyUnits(EntryOf(cat, UNFILTERED, db).db, start, end), [db], start, end)
  {
    var rps := cat.policies[db];
    assert OneDefault(rps);
    forall i | 0 <= i < |rps| ensures
      var d := EntryOf(cat, UNFILTERED, db).db;
      d.name == d.newName == db && |d.rps| == |rps|
      && d.rps[i].name == rps[i].name && TargetRp(d, d.rps[i]) == d.rps[i].name && DistinctNames(d.rps[i].measurements)
    {
      OwnTarget(cat, db, i);
    }
  }

  lemma JoinTargets(a: seq<Unit>, b: seq<Unit>, dbs: seq<string>, start: int, end: int)
    requires dbs != [] && DistinctNames(dbs)
    requires OwnTargets(a, dbs[..|dbs| - 1], start, end)
    requires b == [] || OwnTargets(b, [dbs[|dbs| - 1]], start, end)
    ensures OwnTargets(a + b, dbs, start, end)
  {
    assert dbs[|dbs| - 1] !in dbs[..|dbs| - 1];
  }

  lemma {:induction false} UnitIn(schema: seq<InfluxSchDb>, start: int, end: int, d: InfluxSchDb, i: nat)
    requires d in schema && i < |d.rps|
    ensures DataUnit(d, d.rps[i], start, end) in DataUnits(schema, start, end)
  {
    var n := |schema| - 1;
    if schema[n] == d {
      assert PolicyUnits(d, start, end)[i] in PolicyUnits(d, start, end);
    } else {
      UnitIn(schema[..n], start, end, d, i);
    }
  }

  /** Every row the catalog knows of is in some unit of a recovery, whose target is its own. */
  lemma RowHasUnit(cat: MasterCatalog, start: int, end: int, row: Row) returns (k: nat)
    requires WellNamed(cat) && Known(cat, row)
    ensures FullSchema(cat, UNFILTERED).Some?
    ensures var units := DataUnits(FullSchema(cat, UNFILTERED).value, start, end);
            && k < |units| && units[k].sdb == row.db && units[k].srp == row.rp && row.point.meas in units[k].meas
            && units[k].dst == Dest(row.db, row.rp)
  {
    UnfilteredSucceeds(cat);
    var schema := FullSchema(cat, UNFILTERED).value;
    assert Chosen(cat, UNFILTERED, row.db, row.rp, row.point.meas);
    SelectionExact(cat, UNFILTERED, row.db, row.rp, row.point.meas);
    var d, r :| d in schema && r in d.rps && d.name == row.db && r.name == row.rp && row.point.meas in r.measurements;
    var i :| 0 <= i < |d.rps| && d.rps[i] == r;
    UnitIn(schema, start, end, d, i);
    var units := DataUnits(schema, start, end);
    k :| 0 <= k < |units| && units[k] == DataUnit(d, d.rps[i], start, end);
    SchemaUnits(cat, cat.dbs, start, end);
  }

  // --------------------------------------------------------------- the recovery

  /** A recovery of the given range: refresh the schema, replicate the data. */
  function RecoveryUnits(cat: MasterCatalog, w: Supervisor.Window): seq<Unit> {
    UnfilteredSucceeds(cat);
    DataUnits(FullSchema(cat, UNFILTERED).value, w.start, w.end)
  }

  lemma {:induction false} UnitsOver(schema: seq<InfluxSchDb>, start: int, end: int)
    requires forall d, r :: d in schema && r in d.rps ==> DistinctNames(r.measurements)
    ensures forall u :: u in DataUnits(schema, start, end) ==> DistinctNames(u.meas) && u.start == start && u.end == end
  {
    hide DistinctNames;
    if schema != [] {
      var n := |schema| - 1;
      UnitsOver(schema[..n], start, end);
      forall u | u in PolicyUnits(schema[n], start, end)
        ensures DistinctNames(u.meas) && u.start == start && u.end == end
      {
        var i :| 0 <= i < |schema[n].rps| && u == DataUnit(schema[n], schema[n].rps[i], start, end);
        assert schema[n] in schema && schema[n].rps[i] in schema[n].rps;
      }
    }
  }

  lemma RecoveryUnitsGood(setup: Setup, cat: MasterCatalog, w: Supervisor.Window)
    requires GoodSetup(setup) && Fits(setup, w.start, w.end)
    ensures GoodUnits(setup, RecoveryUnits(cat, w))
  {
    hide Fits;
    UnfilteredSucceeds(cat);
    SelectedNames(cat, UNFILTERED);
    UnitsOver(FullSchema(cat, UNFILTERED).value, w.start, w.end);
    var units := RecoveryUnits(cat, w);
    assert forall k :: 0 <= k < |units| ==> units[k] in units;
  }

  /** The instant lies in a window of the recovery's copies, and in a window of that window's own
      recovery. */
  ghost predicate InRecovery(setup: Setup, w: Supervisor.Window, t: int) {
    && GoodSetup(setup) && Fits(setup, w.start, w.end)
    && Covered(PlanOf(w.start, w.end, setup.chunk, setup.maxret), setup.chunk, setup.maxret, t)
  }

  /** With chunks of whole tens of seconds and room for one in the retention, those are all instants
      within the range and the maximum retention, up to the last whole second, but for the multiples
      of a tenth of the chunk from it. */
  lemma RangeInRecovery(setup: Setup, w: Supervisor.Window, t: int)
    requires setup.chunk > 0 && setup.chunk % (10 * SECOND) == 0 && setup.maxret >= setup.chunk
    requires w.start <= w.end
    requires Max(w.start, UnixSec(w.end) * SECOND - setup.maxret) <= t < UnixSec(w.end) * SECOND
    ensures InRecovery(setup, w, t) <==> (UnixSec(w.end) * SECOND - t) % (setup.chunk / 10) != 0
  {
    hide InPlan, Covered;
    TensAreWhole(setup.chunk);
    RangeInPlan(w.start, w.end, setup.chunk, setup.maxret, t);
    CoveredTenths(PlanOf(w.start, w.end, setup.chunk, setup.maxret), setup.chunk, setup.maxret, t);
  }

  /** The row's point is on the slave, or in a bad chunk of the copy of its database and policy. */
  ghost predicate RowAccounted(units: seq<Unit>, r: Replicated, row: Row) {
    Holds(r.store, Dest(row.db, row.rp), row.point) || InOwnBad(units, r, row)
  }

  ghost predicate InOwnBad(units: seq<Unit>, r: Replicated, row: Row) {
    exists k :: 0 <= k < |units| && k < |r.bads|
      && units[k].sdb == row.db && units[k].srp == row.rp && InBad(r.bads[k], row.point.time)
  }

  /** A point stamped at such an instant whose row the catalog knows of is on the slave when the
      recovery is over, under its own database and policy, or in a bad chunk of its copy. */
  lemma RecoveryAccounts(setup: Setup, cat: MasterCatalog, w: Supervisor.Window, faults: Faults, s: Db, row: Row)
    requires ValidMaster(setup.master) && WellNamed(cat)
    requires row in setup.master && Known(cat, row) && InRecovery(setup, w, row.point.time)
    ensures GoodUnits(setup, RecoveryUnits(cat, w))
    ensures RowAccounted(RecoveryUnits(cat, w), Replicate(setup, RecoveryUnits(cat, w), faults, s), row)
  {
    hide WellNamed, Known, Replicate, Covered, Kept, Holds, ValidMaster;
    RecoveryUnitsGood(setup, cat, w);
    var k := RowHasUnit(cat, w.start, w.end, row);
    var units := RecoveryUnits(cat, w);
    TargetsDistinct(cat, w);
    assert UnitPlan(setup, units[k]) == PlanOf(w.start, w.end, setup.chunk, setup.maxret);
    assert row == Row(row.db, row.rp, row.point);
    ReplicationAccounts(setup, units, faults, s, k, row.point);
    var r := Replicate(setup, units, faults, s);
    if Kept(setup, units, k, r.store, row.point) {
      assert forall j :: k < j < |units| ==> units[j].dst != units[k].dst;
      KeptIsHeld(setup, units, k, r.store, row.point);
    }
  }

  /** Nothing of the master that is stamped at such an instant is lost in silence. */
  ghost predicate NothingLost(setup: Setup, cat: MasterCatalog, w: Supervisor.Window, r: Replicated) {
    forall row :: row in setup.master && Known(cat, row) && InRecovery(setup, w, row.point.time) ==>
      RowAccounted(RecoveryUnits(cat, w), r, row)
  }

  lemma RecoveryLosesNothing(setup: Setup, cat: MasterCatalog, w: Supervisor.Window, faults: Faults, s: Db)
    requires ValidMaster(setup.master) && WellNamed(cat) && GoodUnits(setup, RecoveryUnits(cat, w))
    ensures NothingLost(setup, cat, w, Replicate(setup, RecoveryUnits(cat, w), faults, s))
  {
    hide ValidMaster, WellNamed, Known, InRecovery, Replicate, RowAccounted, GoodUnits, RecoveryUnits;
    forall row | row in setup.master && Known(cat, row) && InRecovery(setup, w, row.point.time)
      ensures RowAccounted(RecoveryUnits(cat, w), Replicate(setup, RecoveryUnits(cat, w), faults, s), row)
    {
      RecoveryAccounts(setup, cat, w, faults, s, row);
    }
  }

  lemma TargetsDistinct(cat: MasterCatalog, w: Supervisor.Window)
    requires WellNamed(cat)
    ensures DistinctTargets(RecoveryUnits(cat, w))
    ensures forall u :: u in RecoveryUnits(cat, w) ==>
              u.start == w.start && u.end == w.end && u.dst == Dest(u.sdb, u.srp)
  {
    UnfilteredSucceeds(cat);
    SchemaUnits(cat, cat.dbs, w.start, w.end);
  }

  // ------------------------------------------------------------------- the class

  class HACluster {
    const master: InfluxMonitor
    const slave: InfluxMonitor
    const checkInterval: int
    const setup: Setup
    var clusterState: ClusterState
    var slaveStateOK: bool
    var slaveLastOK: int
    var slaveCheckDuration: int
    var masterStateOK: bool
    var masterLastOK: int
    var masterCheckDuration: int
    var clusterNumRecovers: nat
    var clusterLastRecoverDuration: int
    var schema: seq<InfluxSchDb>

    constructor (master: InfluxMonitor, slave: InfluxMonitor, checkInterval: int, setup: Setup, now: int)
      ensures this.master == master && this.slave == slave
      ensures this.checkInterval == checkInterval && this.setup == setup && schema == []
      ensures View() == ClusterFields(OK, true, now, 0, true, now, 0, 0, 0)
      ensures clusterState == OK && clusterNumRecovers == 0 && clusterLastRecoverDuration == 0
      ensures slaveStateOK && slaveLastOK == now && masterStateOK && masterLastOK == now
    {
      this.master, this.slave := master, slave;
      this.checkInterval, this.setup := checkInterval, setup;
      clusterState, schema := OK, [];
      slaveStateOK, slaveLastOK, slaveCheckDuration := true, now, 0;
      masterStateOK, masterLastOK, masterCheckDuration := true, now, 0;
      clusterNumRecovers, clusterLastRecoverDuration := 0, 0;
    }

    function View(): ClusterFields
      reads this
    {
      ClusterFields(clusterState, slaveStateOK, slaveLastOK, slaveCheckDuration,
                         masterStateOK, masterLastOK, masterCheckDuration,
                         clusterNumRecovers, clusterLastRecoverDuration)
    }

    method GetStatus() returns (status: Status)
      ensures status == Supervisor.GetStatus(View(), master.name, slave.name)
      ensures status.state == clusterState && status.mid == master.name && status.sid == slave.name
      ensures status.recovers == clusterNumRecovers && status.lastRecover == clusterLastRecoverDuration
      ensures status.masterOK == masterStateOK && status.masterLastOK == masterLastOK
      ensures status.slaveOK == slaveStateOK && status.slaveLastOK == slaveLastOK
    {
      status := Status(clusterState, master.name, slave.name, clusterNumRecovers, clusterLastRecoverDuration,
                       masterStateOK, masterLastOK, slaveStateOK, slaveLastOK);
    }

    /** The first reading of both states, before the first check. */
    method StartSupervisor(now: int)
      modifies this
      ensures View() == old(View()).(masterOK := master.statusOK, masterLastOK := master.lastOK,
                                     slaveOK := slave.statusOK, slaveLastOK := slave.lastOK)
      ensures masterStateOK == master.statusOK && masterLastOK == master.lastOK
      ensures slaveStateOK == slave.statusOK && slaveLastOK == slave.lastOK
      ensures clusterState == old(clusterState) && clusterNumRecovers == old(clusterNumRecovers)
      ensures schema == old(schema)
    {
      var mOK, mLast, _ := master.GetState(now);
      masterStateOK, masterLastOK := mOK, mLast;
      var sOK, sLast, _ := slave.GetState(now);
      slaveStateOK, slaveLastOK := sOK, sLast;
    }

    /** The switch of a check and the locked section of its case; in the case that found the slave
        up again, the range to recover. The master's reading is recorded unless a slave that was
        never up is still down; the slave's when it is up, when it was, or while recovering. */
    method BeginCheck(lastMaster: bool, lastmaOK: int, durationM: int, lastSlave: bool, lastslOK: int, durationS: int)
      returns (w: Option<Supervisor.Window>)
      modifies this
      ensures schema == old(schema)
      ensures Decision(View(), w) == Decide(old(View()), checkInterval,
                Probe(lastMaster, lastmaOK, durationM), Probe(lastSlave, lastslOK, durationS))
      ensures (masterStateOK, masterLastOK, masterCheckDuration)
           == if lastSlave || old(slaveStateOK) || old(clusterState) != OK then (lastMaster, lastmaOK, durationM)
              else (old(masterStateOK), old(masterLastOK), old(masterCheckDuration))
      ensures (slaveStateOK, slaveLastOK, slaveCheckDuration)
           == if lastSlave || old(slaveStateOK) || old(clusterState) == Recovering
              then (lastSlave, lastslOK, durationS)
              else (old(slaveStateOK), old(slaveLastOK), old(slaveCheckDuration))
      ensures clusterState == if old(slaveStateOK) && !lastSlave then CheckSlaveDown
                              else if old(clusterState) == CheckSlaveDown && lastSlave then Recovering
                              else old(clusterState)
      ensures w == if old(clusterState) == CheckSlaveDown && lastSlave
                   then Some(Supervisor.Window(old(slaveLastOK) - checkInterval, lastslOK)) else None
      ensures clusterNumRecovers == old(clusterNumRecovers)
      ensures clusterLastRecoverDuration == old(clusterLastRecoverDuration)
    {
      w := None;
      if slaveStateOK && !lastSlave {
        clusterState := CheckSlaveDown;
        masterStateOK, masterLastOK, masterCheckDuration := lastMaster, lastmaOK, durationM;
        slaveLastOK, slaveStateOK, slaveCheckDuration := lastslOK, lastSlave, durationS;
      } else if clusterState == CheckSlaveDown && !lastSlave {
        masterStateOK, masterLastOK, masterCheckDuration := lastMaster, lastmaOK, durationM;
      } else if clusterState == CheckSlaveDown && lastSlave {
        var startTime := slaveLastOK - checkInterval;
        clusterState := Recovering;
        masterStateOK, masterLastOK, masterCheckDuration := lastMaster, lastmaOK, durationM;
        slaveLastOK, slaveStateOK, slaveCheckDuration := lastslOK, lastSlave, durationS;
        var endTime := lastslOK;
        w := Some(Supervisor.Window(startTime, endTime));
      } else if clusterState == Recovering {
        masterStateOK, masterLastOK, masterCheckDuration := lastMaster, lastmaOK, durationM;
        slaveLastOK, slaveStateOK, slaveCheckDuration := lastslOK, lastSlave, durationS;
      } else if clusterState == OK && lastSlave {
        masterStateOK, masterLastOK, masterCheckDuration := lastMaster, lastmaOK, durationM;
        slaveLastOK, slaveStateOK, slaveCheckDuration := lastslOK, lastSlave, durationS;
      }
    }

    /** The locked section after a recovery. */
    method EndRecovery(elapsed: int)
      modifies this
      ensures schema == old(schema) && View() == Recovered(old(View()), elapsed)
      ensures clusterState == OK && clusterNumRecovers == old(clusterNumRecovers) + 1
      ensures clusterLastRecoverDuration == elapsed
      ensures masterStateOK == old(masterStateOK) && masterLastOK == old(masterLastOK)
      ensures slaveStateOK == old(slaveStateOK) && slaveLastOK == old(slaveLastOK)
    {
      clusterState := OK;
      clusterNumRecovers := clusterNumRecovers + 1;
      clusterLastRecoverDuration := elapsed;
    }

    /** One check, with the recovery it starts. The result is the bad chunks of the recovery's
        copies, if there was one. */
    method CheckCluster(srv: Server, cat: MasterCatalog, faults: Faults, now: int, recoverStart: int, recoverEnd: int)
      returns (bads: Option<seq<seq<ChunkReport>>>)
      requires GoodSetup(setup)
      requires var w := Decide(View(), checkInterval, Probed(master.View(), now), Probed(slave.View(), now)).recover;
               w.Some? ==> Fits(setup, w.value.start, w.value.end)
      modifies this, srv
      ensures (slave.statusOK || old(slaveStateOK) || old(clusterState) != OK) ==>
                masterStateOK == master.statusOK && masterLastOK == master.lastOK
                && masterCheckDuration == now - master.lastOK
      ensures (slave.statusOK || old(slaveStateOK)) ==>
                slaveStateOK == slave.statusOK && slaveLastOK == slave.lastOK
                && slaveCheckDuration == now - slave.lastOK
      ensures clusterNumRecovers == old(clusterNumRecovers)
                + (if old(clusterState) == CheckSlaveDown && slave.statusOK then 1 else 0)
      ensures old(clusterState) == CheckSlaveDown && slave.statusOK ==>
                clusterState == OK && clusterLastRecoverDuration == recoverEnd - recoverStart
      ensures var d := Decide(old(View()), checkInterval, Probed(old(master.View()), now),
            Probed(old(slave.View()), now));
              match d.recover
              case None => View() == d.cluster && srv.data == old(srv.data) && schema == old(schema) && bads == None
              case Some(w) =>
                && View() == Recovered(d.cluster, recoverEnd - recoverStart)
                && FullSchema(cat, UNFILTERED) == Some(schema)
                && GoodUnits(setup, RecoveryUnits(cat, w))
                && bads.Some?
                && Replicate(setup, RecoveryUnits(cat, w), faults, old(srv.data)) == Replicated(srv.data, bads.value)
                && (WellNamed(cat) && ValidMaster(setup.master) ==>
                      NothingLost(setup, cat, w, Replicated(srv.data, bads.value)))
    {
      hide Replicate, RecoveryUnits, GoodUnits, FullSchema, WellNamed, Fits, Decide, ValidMaster, NothingLost;
      ghost var before := srv.data;
      var lastMaster, lastmaOK, durationM := master.GetState(now);
      var lastSlave, lastslOK, durationS := slave.GetState(now);
      var w := BeginCheck(lastMaster, lastmaOK, durationM, lastSlave, lastslOK, durationS);
      bads := None;
      if w.Some? {
        var b := RunRecovery(srv, cat, w.value, faults);
        if WellNamed(cat) && ValidMaster(setup.master) {
          RecoveryLosesNothing(setup, cat, w.value, faults, before);
        }
        bads := Some(b);
        EndRecovery(recoverEnd - recoverStart);
      }
    }

    /** Refresh the schema and replicate the range. */
    method RunRecovery(srv: Server, cat: MasterCatalog, w: Supervisor.Window, faults: Faults)
      returns (bads: seq<seq<ChunkReport>>)
      requires GoodSetup(setup) && Fits(setup, w.start, w.end)
      modifies this`schema, srv
      ensures FullSchema(cat, UNFILTERED) == Some(schema) && View() == old(View())
      ensures GoodUnits(setup, RecoveryUnits(cat, w))
      ensures Replicate(setup, RecoveryUnits(cat, w), faults, old(srv.data)) == Replicated(srv.data, bads)
    {
      UnfilteredSucceeds(cat);
      RecoveryUnitsGood(setup, cat, w);
      var found := Schema.GetSchema(cat, UNFILTERED);
      schema := found.value;
      bads := ReplicateData(srv, setup, schema, w.start, w.end, faults);
    }
  }
}
