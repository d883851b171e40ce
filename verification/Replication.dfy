/** Replicating a schema's data: the copies that the replication loops make, one after the other, and
    what becomes of the points of each. */
module Replication {
  import opened Wrappers
  import opened GoTime
  import opened Store
  import opened Faults
  import opened Client
  import opened Windows
  import opened SyncEngine
  import opened CopyTheorems
  import opened CopyExact
  import opened Schema

  /** What one call of SyncDBRP is given by the replication loops. */
  datatype Unit = Unit(sdb: string, srp: string, dst: Dest, meas: seq<string>, start: int, end: int)

  /** The settings, and the master that is read. */
  datatype Setup = Setup(master: seq<Row>, cfg: Config, chunk: int, maxret: int)

  ghost predicate GoodSetup(setup: Setup) {
    setup.chunk >= 10 && setup.maxret >= 0
  }

  predicate Fits(setup: Setup, start: int, end: int)
    requires GoodSetup(setup)
  {
    WindowCount(start, end, setup.chunk, setup.maxret) >= 0
  }

  ghost predicate GoodUnit(setup: Setup, u: Unit) {
    GoodSetup(setup) && DistinctNames(u.meas) && Fits(setup, u.start, u.end)
  }

  function UnitPlan(setup: Setup, u: Unit): Plan
    requires GoodUnit(setup, u)
  {
    PlanOf(u.start, u.end, setup.chunk, setup.maxret)
  }

  function UnitCopy(setup: Setup, u: Unit, id: nat, faults: Faults): Copy {
    Copy(setup.master, u.sdb, u.srp, u.dst, u.meas, setup.cfg, faults, id)
  }

  /** The slave and, for each copy, the chunks still bad. */
  datatype Replicated = Replicated(store: Db, bads: seq<seq<ChunkReport>>)

  ghost predicate GoodUnits(setup: Setup, units: seq<Unit>) {
    forall k :: 0 <= k < |units| ==> GoodUnit(setup, units[k])
  }

  /** The copies one after the other. */
  function Replicate(setup: Setup, units: seq<Unit>, faults: Faults, s: Db): Replicated
    requires GoodUnits(setup, units)
  {
    if units == [] then Replicated(s, [])
    else
      var n := |units| - 1;
      var before := Replicate(setup, units[..n], faults, s);
      var c := UnitCopy(setup, units[n], n, faults);
      var r := CopyOutcome(c, UnitPlan(setup, units[n]), setup.chunk, setup.maxret, before.store);
      Replicated(r.store, before.bads + [r.bad])
  }

  // ------------------------------------------------------- the replication loops

  function DataUnit(d: InfluxSchDb, rp: RetPol, start: int, end: int): Unit {
    Unit(d.name, rp.name, Dest(d.newName, TargetRp(d, rp)), rp.measurements, start, end)
  }

  function PolicyUnits(d: InfluxSchDb, start: int, end: int): seq<Unit> {
    seq(|d.rps|, i requires 0 <= i < |d.rps| => DataUnit(d, d.rps[i], start, end))
  }

  function DataUnits(schema: seq<InfluxSchDb>, start: int, end: int): seq<Unit> {
    if schema == [] then []
    else DataUnits(schema[..|schema| - 1], start, end) + PolicyUnits(schema[|schema| - 1], start, end)
  }

  /** A full copy takes each policy's own range at the moment it is reached. */
  function FullUnit(d: InfluxSchDb, rp: RetPol, maxret: int, now: int): Unit {
    var (first, last) := FirstLastTime(rp.settings.duration, maxret, now);
    DataUnit(d, rp, first, last)
  }

  function FullPolicyUnits(d: InfluxSchDb, maxret: int, clock: nat -> int, from: nat): seq<Unit> {
    seq(|d.rps|, i requires 0 <= i < |d.rps| => FullUnit(d, d.rps[i], maxret, clock(from + i)))
  }

  function FullUnits(schema: seq<InfluxSchDb>, maxret: int, clock: nat -> int): seq<Unit> {
    if schema == [] then []
    else
      var before := FullUnits(schema[..|schema| - 1], maxret, clock);
      before + FullPolicyUnits(schema[|schema| - 1], maxret, clock, |before|)
  }

  /** One step of either loop: copy number |done|. */
  method CopyUnit(srv: Server, setup: Setup, ghost s0: Db, ghost done: seq<Unit>, id: nat, u: Unit,
        faults: Faults, bads: seq<seq<ChunkReport>>)
    returns (bads': seq<seq<ChunkReport>>)
    requires GoodUnits(setup, done) && GoodUnit(setup, u) && id == |done|
    requires Replicate(setup, done, faults, s0) == Replicated(srv.data, bads)
    modifies srv
    ensures GoodUnits(setup, done + [u])
    ensures Replicate(setup, done + [u], faults, s0) == Replicated(srv.data, bads')
    ensures |bads'| == |bads| + 1
  {
    hide CopyOutcome, RunPass;
    var report := SyncDBRP(srv, UnitCopy(setup, u, id, faults), u.start, u.end, setup.chunk, setup.maxret);
    assert (done + [u])[..|done|] == done;
    bads' := bads + [report.bad];
  }

  method ReplicateData(srv: Server, setup: Setup, schema: seq<InfluxSchDb>, start: int, end: int, faults: Faults)
    returns (bads: seq<seq<ChunkReport>>)
    requires GoodUnits(setup, DataUnits(schema, start, end))
    modifies srv
    ensures Replicate(setup, DataUnits(schema, start, end), faults, old(srv.data)) == Replicated(srv.data, bads)
  {
    hide Replicate, GoodUnit, Fits, GoodSetup, DataUnits;
    ReplicateNone(setup, faults, srv.data);
    assert schema[..0] == [];
    NoUnits(start, end, setup.maxret, _ => 0);
    bads := [];
    ghost var done: seq<Unit> := [];
    var id := 0;
    var k := 0;
    while k < |schema|
      invariant 0 <= k <= |schema|
      invariant done == DataUnits(schema[..k], start, end) && id == |done|
      invariant GoodUnits(setup, done)
      invariant Replicate(setup, done, faults, old(srv.data)) == Replicated(srv.data, bads)
    {
      var d := schema[k];
      ghost var before := done;
      DataUnitsNext(schema, start, end, k);
      var i := 0;
      while i < |d.rps|
        invariant 0 <= i <= |d.rps|
        invariant done == before + PolicyUnits(d, start, end)[..i] && id == |done|
        invariant GoodUnits(setup, done)
        invariant Replicate(setup, done, faults, old(srv.data)) == Replicated(srv.data, bads)
      {
        var rp := d.rps[i];
        var rn := if rp.def then d.newDefRp else rp.name;
        var u := Unit(d.name, rp.name, Dest(d.newName, rn), rp.measurements, start, end);
        assert u == PolicyUnits(d, start, end)[i] == DataUnits(schema, start, end)[|before| + i];
        bads := CopyUnit(srv, setup, old(srv.data), done, id, u, faults, bads);
        done := done + [u];
        id := id + 1;
        i := i + 1;
      }
      k := k + 1;
    }
    assert schema[..|schema|] == schema;
  }

  method ReplicateDataFull(srv: Server, setup: Setup, schema: seq<InfluxSchDb>, clock: nat -> int, faults: Faults)
    returns (bads: seq<seq<ChunkReport>>)
    requires GoodUnits(setup, FullUnits(schema, setup.maxret, clock))
    modifies srv
    ensures Replicate(setup, FullUnits(schema, setup.maxret, clock), faults, old(srv.data))
         == Replicated(srv.data, bads)
  {
    hide Replicate, GoodUnit, Fits, GoodSetup, FullUnits;
    ReplicateNone(setup, faults, srv.data);
    assert schema[..0] == [];
    NoUnits(0, 0, setup.maxret, clock);
    bads := [];
    ghost var done: seq<Unit> := [];
    var id := 0;
    var k := 0;
    while k < |schema|
      invariant 0 <= k <= |schema|
      invariant done == FullUnits(schema[..k], setup.maxret, clock) && id == |done|
      invariant GoodUnits(setup, done)
      invariant Replicate(setup, done, faults, old(srv.data)) == Replicated(srv.data, bads)
    {
      var d := schema[k];
      ghost var before := done;
      FullUnitsNext(schema, setup.maxret, clock, k);
      var i := 0;
      while i < |d.rps|
        invariant 0 <= i <= |d.rps|
        invariant done == before + FullPolicyUnits(d, setup.maxret, clock, |before|)[..i] && id == |done|
        invariant GoodUnits(setup, done)
        invariant Replicate(setup, done, faults, old(srv.data)) == Replicated(srv.data, bads)
      {
        var rp := d.rps[i];
        var (start, end) := FirstLastTime(rp.settings.duration, setup.maxret, clock(id));
        var rn := if rp.def then d.newDefRp else rp.name;
        var u := Unit(d.name, rp.name, Dest(d.newName, rn), rp.measurements, start, end);
        assert u == FullPolicyUnits(d, setup.maxret, clock, |before|)[i]
                 == FullUnits(schema, setup.maxret, clock)[|before| + i];
        bads := CopyUnit(srv, setup, old(srv.data), done, id, u, faults, bads);
        done := done + [u];
        id := id + 1;
        i := i + 1;
      }
      k := k + 1;
    }
    assert schema[..|schema|] == schema;
  }

  lemma ReplicateNone(setup: Setup, faults: Faults, s: Db)
    ensures Replicate(setup, [], faults, s) == Replicated(s, [])
  {
  }

  lemma NoUnits(start: int, end: int, maxret: int, clock: nat -> int)
    ensures DataUnits([], start, end) == FullUnits([], maxret, clock) == []
  {
  }

  lemma DataUnitsNext(schema: seq<InfluxSchDb>, start: int, end: int, k: nat)
    requires k < |schema|
    ensures DataUnits(schema[..k + 1], start, end)
         == DataUnits(schema[..k], start, end) + PolicyUnits(schema[k], start, end)
    ensures DataUnits(schema[..k + 1], start, end) <= DataUnits(schema, start, end)
  {
    assert schema[..k + 1][..k] == schema[..k];
    DataUnitsPrefix(schema, start, end, k + 1);
  }

  lemma FullUnitsNext(schema: seq<InfluxSchDb>, maxret: int, clock: nat -> int, k: nat)
    requires k < |schema|
    ensures var before := FullUnits(schema[..k], maxret, clock);
            FullUnits(schema[..k + 1], maxret, clock)
            == before + FullPolicyUnits(schema[k], maxret, clock, |before|)
    ensures FullUnits(schema[..k + 1], maxret, clock) <= FullUnits(schema, maxret, clock)
  {
    assert schema[..k + 1][..k] == schema[..k];
    FullUnitsPrefix(schema, maxret, clock, k + 1);
  }

  lemma {:induction false} DataUnitsPrefix(schema: seq<InfluxSchDb>, start: int, end: int, k: nat)
    requires k <= |schema|
    ensures DataUnits(schema[..k], start, end) <= DataUnits(schema, start, end)
    decreases |schema|
  {
    if k < |schema| {
      assert schema[..|schema| - 1][..k] == schema[..k];
      DataUnitsPrefix(schema[..|schema| - 1], start, end, k);
    } else {
      assert schema[..k] == schema;
    }
  }

  lemma {:induction false} FullUnitsPrefix(schema: seq<InfluxSchDb>, maxret: int, clock: nat -> int, k: nat)
    requires k <= |schema|
    ensures FullUnits(schema[..k], maxret, clock) <= FullUnits(schema, maxret, clock)
    decreases |schema|
  {
    if k < |schema| {
      assert schema[..|schema| - 1][..k] == schema[..k];
      FullUnitsPrefix(schema[..|schema| - 1], maxret, clock, k);
    } else {
      assert schema[..k] == schema;
    }
  }

  /** The units of the databases before the k-th. */
  function Before(schema: seq<InfluxSchDb>, k: nat): nat
    requires k <= |schema|
  {
    if k == 0 then 0 else Before(schema, k - 1) + |schema[k - 1].rps|
  }

  lemma {:induction false} BeforePrefix(schema: seq<InfluxSchDb>, n: nat, k: nat)
    requires k <= n <= |schema|
    ensures Before(schema[..n], k) == Before(schema, k)
  {
    if k > 0 {
      BeforePrefix(schema, n, k - 1);
    }
  }

  /** Policy i of database k has the unit at its place. */
  ghost predicate InPlace(schema: seq<InfluxSchDb>, units: seq<Unit>, full: seq<Unit>, start: int, end: int,
        maxret: int, clock: nat -> int, k: nat, i: nat)
    requires k < |schema| && i < |schema[k].rps|
  {
    var n := Before(schema, k) + i;
    && n < |units| == |full|
    && units[n] == DataUnit(schema[k], schema[k].rps[i], start, end)
    && full[n] == FullUnit(schema[k], schema[k].rps[i], maxret, clock(n))
  }

  /** Both data phases go through the databases, and the policies of each, in order. */
  lemma {:induction false} UnitsInOrder(schema: seq<InfluxSchDb>, start: int, end: int, maxret: int, clock: nat -> int)
    ensures |DataUnits(schema, start, end)| == |FullUnits(schema, maxret, clock)| == Before(schema, |schema|)
    ensures forall k, i :: 0 <= k < |schema| && 0 <= i < |schema[k].rps| ==>
              InPlace(schema, DataUnits(schema, start, end), FullUnits(schema, maxret, clock),
                      start, end, maxret, clock, k, i)
  {
    if schema != [] {
      hide FullUnit, DataUnit;
      var m := |schema| - 1;
      UnitsInOrder(schema[..m], start, end, maxret, clock);
      BeforePrefix(schema, m, m);
      hide InPlace;
      forall k, i | 0 <= k < |schema| && 0 <= i < |schema[k].rps|
        ensures InPlace(schema, DataUnits(schema, start, end), FullUnits(schema, maxret, clock),
                        start, end, maxret, clock, k, i)
      {
        if k < m {
          assert schema[..m][k].rps[i] == schema[k].rps[i];
          StaysInPlace(schema, start, end, maxret, clock, k, i);
        } else {
          LastInPlace(schema, start, end, maxret, clock, i);
        }
      }
    }
  }

  lemma StaysInPlace(schema: seq<InfluxSchDb>, start: int, end: int, maxret: int, clock: nat -> int, k: nat, i: nat)
    requires schema != [] && k < |schema| - 1 && i < |schema[k].rps|
    requires var l := schema[..|schema| - 1];
             InPlace(l, DataUnits(l, start, end), FullUnits(l, maxret, clock), start, end, maxret, clock, k, i)
    ensures InPlace(schema, DataUnits(schema, start, end), FullUnits(schema, maxret, clock),
                    start, end, maxret, clock, k, i)
  {
    hide FullUnit, DataUnit, PolicyUnits, FullPolicyUnits;
    BeforePrefix(schema, |schema| - 1, k);
    var l := schema[..|schema| - 1];
    PolicyCounts(schema[|schema| - 1], start, end, maxret, clock, |FullUnits(l, maxret, clock)|);
  }

  lemma PolicyCounts(d: InfluxSchDb, start: int, end: int, maxret: int, clock: nat -> int, from: nat)
    ensures |PolicyUnits(d, start, end)| == |FullPolicyUnits(d, maxret, clock, from)| == |d.rps|
  {
  }

  lemma LastInPlace(schema: seq<InfluxSchDb>, start: int, end: int, maxret: int, clock: nat -> int, i: nat)
    requires schema != [] && i < |schema[|schema| - 1].rps|
    requires var l := schema[..|schema| - 1];
             |DataUnits(l, start, end)| == |FullUnits(l, maxret, clock)| == Before(schema, |schema| - 1)
    ensures InPlace(schema, DataUnits(schema, start, end), FullUnits(schema, maxret, clock), start, end, maxret, clock,
                    |schema| - 1, i)
  {
    hide FullUnit, DataUnit;
  }

  /** A unit of either data phase, field by field, for what GetSchema selects under new names. A full
      copy's range ends at the moment the unit is reached and starts the policy's duration before it,
      or the maximum retention for a policy that keeps data for ever. */
  lemma UnitMeans(cat: MasterCatalog, fs: Filters, newdb: string, newrp: string, k: nat, i: nat,
        start: int, end: int, maxret: int, now: int)
    requires FullSchema(cat, fs).Some? && k < |FullSchema(cat, fs).value|
    requires i < |FullSchema(cat, fs).value[k].rps|
    ensures var found := FullSchema(cat, fs).value[k];
            var d := Renamed(FullSchema(cat, fs).value, newdb, newrp)[k];
            && found.name in cat.policies && i < |cat.policies[found.name]| == |d.rps|
            && var p := cat.policies[found.name][i];
               var dst := Dest(if newdb != "" then newdb else found.name,
                               if !p.def then p.name else if newrp != "" then newrp else found.defRp);
               && DataUnit(d, d.rps[i], start, end)
                  == Unit(found.name, p.name, dst, found.rps[i].measurements, start, end)
               && FullUnit(d, d.rps[i], maxret, now)
                  == Unit(found.name, p.name, dst, found.rps[i].measurements,
                          now - (if p.settings.duration == 0 then maxret else p.settings.duration), now)
  {
    var found := FullSchema(cat, fs).value;
    assert found[k] in found;
    FilteredPoliciesStay(cat, fs, found[k], i);
    RenamedTo(cat, fs, newdb, newrp, k, i);
    FullRange(found[k].rps[i].settings.duration, maxret, now);
    hide FullSchema, Renamed, FirstLastTime;
  }

  // ------------------------------------------ the schema phase feeds the data phase

  ghost predicate TargetsExist(s: Slave, units: seq<Unit>) {
    forall k :: 0 <= k < |units| ==> Exists(s, units[k].dst.db, units[k].dst.rp)
  }

  ghost predicate PoliciesReady(s: Slave, d: InfluxSchDb) {
    forall i :: 0 <= i < |d.rps| ==> Exists(s, d.newName, TargetRp(d, d.rps[i]))
  }

  lemma ReadySnoc(s: Slave, schema: seq<InfluxSchDb>)
    requires schema != []
    ensures Ready(s, schema) <==> Ready(s, schema[..|schema| - 1]) && PoliciesReady(s, schema[|schema| - 1])
  {
    hide Exists, TargetRp;
    var n := |schema| - 1;
    assert forall k :: 0 <= k < n ==> schema[..n][k] == schema[k];
    if Ready(s, schema[..n]) && PoliciesReady(s, schema[n]) {
      forall k, i | 0 <= k < |schema| && 0 <= i < |schema[k].rps|
        ensures Exists(s, schema[k].newName, TargetRp(schema[k], schema[k].rps[i]))
      {
      }
    }
  }

  lemma TargetsJoin(s: Slave, a: seq<Unit>, b: seq<Unit>)
    ensures TargetsExist(s, a + b) <==> TargetsExist(s, a) && TargetsExist(s, b)
  {
    hide Exists;
    if TargetsExist(s, a + b) {
      assert forall k :: 0 <= k < |a| ==> (a + b)[k] == a[k];
      assert forall k :: 0 <= k < |b| ==> (a + b)[|a| + k] == b[k];
    }
  }

  lemma PolicyTargets(s: Slave, d: InfluxSchDb, start: int, end: int, maxret: int, clock: nat -> int, from: nat)
    ensures TargetsExist(s, PolicyUnits(d, start, end)) <==> PoliciesReady(s, d)
    ensures TargetsExist(s, FullPolicyUnits(d, maxret, clock, from)) <==> PoliciesReady(s, d)
  {
    hide Exists, TargetRp;
    var units, full := PolicyUnits(d, start, end), FullPolicyUnits(d, maxret, clock, from);
    assert forall i :: 0 <= i < |d.rps| ==>
      units[i].dst == full[i].dst == Dest(d.newName, TargetRp(d, d.rps[i]));
  }

  /** The targets of either data phase are there exactly when the schema's are. */
  lemma {:induction false} DataTargets(s: Slave, schema: seq<InfluxSchDb>, start: int, end: int,
        maxret: int, clock: nat -> int)
    ensures TargetsExist(s, DataUnits(schema, start, end)) <==> Ready(s, schema)
    ensures TargetsExist(s, FullUnits(schema, maxret, clock)) <==> Ready(s, schema)
  {
    if schema != [] {
      hide Ready, TargetsExist, PoliciesReady, PolicyUnits, FullPolicyUnits;
      var n := |schema| - 1;
      DataTargets(s, schema[..n], start, end, maxret, clock);
      ReadySnoc(s, schema);
      var before, full := DataUnits(schema[..n], start, end), FullUnits(schema[..n], maxret, clock);
      PolicyTargets(s, schema[n], start, end, maxret, clock, |full|);
      TargetsJoin(s, before, PolicyUnits(schema[n], start, end));
      TargetsJoin(s, full, FullPolicyUnits(schema[n], maxret, clock, |full|));
    }
  }

  /** A copy with the given filters and new names: after its schema phase every target that its
      data phase writes to, of a given range or a full one, exists on the slave exactly when the
      new database name is not "_internal", unless the slave has that one or nothing was
      selected. */
  lemma SchemaPhaseFeedsDataPhase(cat: MasterCatalog, fs: Filters, newdb: string, newrp: string, s: Slave,
        start: int, end: int, maxret: int, clock: nat -> int)
    requires FullSchema(cat, fs).Some?
    ensures var schema := Renamed(FullSchema(cat, fs).value, newdb, newrp);
            var ready := INTERNAL in s || newdb != INTERNAL || schema == [];
            && (TargetsExist(AfterSchema(s, schema), DataUnits(schema, start, end)) <==> ready)
            && (TargetsExist(AfterSchema(s, schema), FullUnits(schema, maxret, clock)) <==> ready)
  {
    hide Ready, TargetsExist, Renamed, FullSchema, AfterSchema;
    var schema := Renamed(FullSchema(cat, fs).value, newdb, newrp);
    SelectedSchemaIsReady(cat, fs, newdb, newrp, s);
    DataTargets(AfterSchema(s, schema), schema, start, end, maxret, clock);
  }

  // ------------------------------------------------------- the jobs of the data phase

  /** A unit submits the job for measurement m of policy rp of database db. */
  ghost predicate UnitSubmits(units: seq<Unit>, db: string, rp: string, m: string) {
    exists u :: u in units && u.sdb == db && u.srp == rp && m in u.meas
  }

  ghost predicate DbSubmits(d: InfluxSchDb, db: string, rp: string, m: string) {
    exists r :: r in d.rps && d.name == db && r.name == rp && m in r.measurements
  }

  lemma PolicySubmits(d: InfluxSchDb, start: int, end: int, maxret: int, clock: nat -> int, from: nat,
        db: string, rp: string, m: string)
    ensures UnitSubmits(PolicyUnits(d, start, end), db, rp, m) <==> DbSubmits(d, db, rp, m)
    ensures UnitSubmits(FullPolicyUnits(d, maxret, clock, from), db, rp, m) <==> DbSubmits(d, db, rp, m)
  {
    var units, full := PolicyUnits(d, start, end), FullPolicyUnits(d, maxret, clock, from);
    if r :| r in d.rps && d.name == db && r.name == rp && m in r.measurements {
      var i :| 0 <= i < |d.rps| && d.rps[i] == r;
      assert units[i] in units && full[i] in full;
    }
  }

  lemma SubmitsSnoc(schema: seq<InfluxSchDb>, db: string, rp: string, m: string)
    requires schema != []
    ensures Submits(schema, db, rp, m)
       <==> Submits(schema[..|schema| - 1], db, rp, m) || DbSubmits(schema[|schema| - 1], db, rp, m)
  {
    assert schema == schema[..|schema| - 1] + [schema[|schema| - 1]];
  }

  lemma SubmitsJoin(a: seq<Unit>, b: seq<Unit>, db: string, rp: string, m: string)
    ensures UnitSubmits(a + b, db, rp, m) <==> UnitSubmits(a, db, rp, m) || UnitSubmits(b, db, rp, m)
  {
  }

  lemma {:induction false} UnitsSubmit(schema: seq<InfluxSchDb>, start: int, end: int, maxret: int,
        clock: nat -> int, db: string, rp: string, m: string)
    ensures UnitSubmits(DataUnits(schema, start, end), db, rp, m) <==> Submits(schema, db, rp, m)
    ensures UnitSubmits(FullUnits(schema, maxret, clock), db, rp, m) <==> Submits(schema, db, rp, m)
  {
    if schema != [] {
      hide UnitSubmits, Submits, DbSubmits, PolicyUnits, FullPolicyUnits;
      var n := |schema| - 1;
      var before, full := DataUnits(schema[..n], start, end), FullUnits(schema[..n], maxret, clock);
      UnitsSubmit(schema[..n], start, end, maxret, clock, db, rp, m);
      SubmitsSnoc(schema, db, rp, m);
      PolicySubmits(schema[n], start, end, maxret, clock, |full|, db, rp, m);
      SubmitsJoin(before, PolicyUnits(schema[n], start, end), db, rp, m);
      SubmitsJoin(full, FullPolicyUnits(schema[n], maxret, clock, |full|), db, rp, m);
    }
  }

  lemma RenamedSubmits(schema: seq<InfluxSchDb>, newdb: string, newrp: string, db: string, rp: string, m: string)
    ensures Submits(Renamed(schema, newdb, newrp), db, rp, m) <==> Submits(schema, db, rp, m)
  {
    var renamed := Renamed(schema, newdb, newrp);
    if d, r :| d in schema && r in d.rps && d.name == db && r.name == rp && m in r.measurements {
      var i :| 0 <= i < |schema| && schema[i] == d;
      assert renamed[i] in renamed && r in renamed[i].rps;
    }
    if d, r :| d in renamed && r in d.rps && d.name == db && r.name == rp && m in r.measurements {
      var i :| 0 <= i < |schema| && renamed[i] == d;
      assert schema[i] in schema && r in schema[i].rps;
    }
  }

  /** The jobs that either data phase submits, whatever the new names, are exactly the chosen
      triples. */
  lemma JobsExact(cat: MasterCatalog, fs: Filters, newdb: string, newrp: string, start: int, end: int,
        maxret: int, clock: nat -> int, db: string, rp: string, m: string)
    requires FullSchema(cat, fs).Some?
    ensures var schema := Renamed(FullSchema(cat, fs).value, newdb, newrp);
            && (UnitSubmits(DataUnits(schema, start, end), db, rp, m) <==> Chosen(cat, fs, db, rp, m))
            && (UnitSubmits(FullUnits(schema, maxret, clock), db, rp, m) <==> Chosen(cat, fs, db, rp, m))
  {
    hide UnitSubmits, Submits, Renamed, FullSchema, Chosen;
    var found := FullSchema(cat, fs).value;
    SelectionExact(cat, fs, db, rp, m);
    RenamedSubmits(found, newdb, newrp, db, rp, m);
    UnitsSubmit(Renamed(found, newdb, newrp), start, end, maxret, clock, db, rp, m);
  }

  // ------------------------------------------------- nothing lost in a replication

  lemma UnitIsValid(setup: Setup, u: Unit, id: nat, faults: Faults)
    requires GoodUnit(setup, u) && ValidMaster(setup.master)
    ensures ValidCopy(UnitCopy(setup, u, id, faults))
  {
  }

  /** The copy may read the instant. */
  ghost predicate MayRead(setup: Setup, u: Unit, t: int)
    requires GoodUnit(setup, u)
  {
    Readable(UnitPlan(setup, u), setup.chunk, setup.maxret, t)
  }

  /** The copy may write value v of field f into the point's cell: a point of the same series and
      time, copied to the same target, holds it. */
  ghost predicate Overwrites(setup: Setup, u: Unit, dst: Dest, p: Point, f: string, v: FieldValue)
    requires GoodUnit(setup, u)
  {
    u.dst == dst && MayRead(setup, u, p.time) &&
    exists q :: Row(u.sdb, u.srp, q) in setup.master && q.meas in u.meas && KeyOf(dst, q) == KeyOf(dst, p)
                && f in q.fields && q.fields[f] == v
  }

  /** v is what unit k's point says of f, or what a later unit of the same run wrote over it. */
  ghost predicate FieldKept(setup: Setup, units: seq<Unit>, k: nat, p: Point, f: string, v: FieldValue)
    requires GoodUnits(setup, units) && k < |units|
  {
    || (f in p.fields && p.fields[f] == v)
    || exists j :: k < j < |units| && Overwrites(setup, units[j], units[k].dst, p, f, v)
  }

  /** The point of unit k is stored, with each of its fields so kept. */
  ghost predicate Kept(setup: Setup, units: seq<Unit>, k: nat, s: Db, p: Point)
    requires GoodUnits(setup, units) && k < |units|
  {
    var c := Cell(s, KeyOf(units[k].dst, p));
    c.Some? && forall f :: f in p.fields ==> f in c.value && FieldKept(setup, units, k, p, f, c.value[f])
  }

  ghost predicate UnitKept(setup: Setup, units: seq<Unit>, r: Replicated, k: nat, p: Point)
    requires GoodUnits(setup, units) && k < |units|
  {
    k < |r.bads| && (Kept(setup, units, k, r.store, p) || InBad(r.bads[k], p.time))
  }

  /** A copy leaves a cell as it was, or merges into it one of the points it may read. */
  lemma CopyCell(setup: Setup, u: Unit, id: nat, faults: Faults, s: Db, k: Key)
    requires GoodUnit(setup, u) && ValidMaster(setup.master)
    ensures var c := UnitCopy(setup, u, id, faults);
            var s' := CopyOutcome(c, UnitPlan(setup, u), setup.chunk, setup.maxret, s).store;
            || Cell(s', k) == Cell(s, k)
            || exists q :: Row(u.sdb, u.srp, q) in setup.master && q.meas in u.meas && KeyOf(u.dst, q) == k
                 && Cell(s', k) == Merge(Cell(s, k), Some(q.fields)) && MayRead(setup, u, k.time)
  {
    UnitIsValid(setup, u, id, faults);
    hide CopyOutcome, OldestRead, ValidCopy, ValidMaster, UnitPlan;
    var c, plan := UnitCopy(setup, u, id, faults), UnitPlan(setup, u);
    CopySound(c, plan, setup.chunk, setup.maxret, s);
    var rows := SourceIn(c, OldestRead(plan, setup.chunk, setup.maxret), plan.end);
    assert CellMerged(s, CopyOutcome(c, plan, setup.chunk, setup.maxret, s).store, u.dst, rows, k);
    if !MayRead(setup, u, k.time) {
      CopySkips(c, plan, setup.chunk, setup.maxret, s, k);
    }
  }

  /** One more copy keeps the fields of an earlier unit's point, or writes over them. */
  lemma KeptStep(setup: Setup, units: seq<Unit>, k: nat, faults: Faults, s: Db, p: Point)
    requires GoodUnits(setup, units) && ValidMaster(setup.master) && k < |units| - 1
    requires Kept(setup, units[..|units| - 1], k, s, p)
    ensures var n := |units| - 1;
            var c := UnitCopy(setup, units[n], n, faults);
            Kept(setup, units, k, CopyOutcome(c, UnitPlan(setup, units[n]), setup.chunk, setup.maxret, s).store, p)
  {
    var n := |units| - 1;
    var dst := units[k].dst;
    var key := KeyOf(dst, p);
    CopyCell(setup, units[n], n, faults, s, key);
    hide CopyOutcome, UnitPlan, ValidMaster, MayRead, Overwrites;
    var copy := UnitCopy(setup, units[n], n, faults);
    var s' := CopyOutcome(copy, UnitPlan(setup, units[n]), setup.chunk, setup.maxret, s).store;
    var c := Cell(s, key).value;
    forall f | f in p.fields
      ensures var c' := Cell(s', key);
              c'.Some? && f in c'.value && FieldKept(setup, units, k, p, f, c'.value[f])
    {
      FieldsStay(setup, units, k, p, f, c[f]);
      if Cell(s', key) != Cell(s, key) {
        var q :| Row(units[n].sdb, units[n].srp, q) in setup.master && q.meas in units[n].meas
          && KeyOf(units[n].dst, q) == key && Cell(s', key) == Merge(Cell(s, key), Some(q.fields));
        if f in q.fields {
          OverwritesBy(setup, units[n], dst, p, q, f);
        }
      }
    }
  }

  lemma OverwritesBy(setup: Setup, u: Unit, dst: Dest, p: Point, q: Point, f: string)
    requires GoodUnit(setup, u) && MayRead(setup, u, p.time)
    requires Row(u.sdb, u.srp, q) in setup.master && q.meas in u.meas && KeyOf(u.dst, q) == KeyOf(dst, p)
    requires u.dst.db == dst.db && u.dst.rp == dst.rp && f in q.fields
    ensures Overwrites(setup, u, dst, p, f, q.fields[f])
  {
    hide MayRead, GoodUnit;
    assert u.dst == dst;
  }

  lemma FieldsStay(setup: Setup, units: seq<Unit>, k: nat, p: Point, f: string, v: FieldValue)
    requires GoodUnits(setup, units) && k < |units| - 1
    requires FieldKept(setup, units[..|units| - 1], k, p, f, v)
    ensures FieldKept(setup, units, k, p, f, v)
  {
    hide Overwrites;
  }

  lemma HeldIsKept(setup: Setup, units: seq<Unit>, k: nat, s: Db, p: Point)
    requires GoodUnits(setup, units) && k < |units| && Holds(s, units[k].dst, p)
    ensures Kept(setup, units, k, s, p)
  {
    var c := Cell(s, KeyOf(units[k].dst, p)).value;
    forall f | f in p.fields ensures f in c && FieldKept(setup, units, k, p, f, c[f]) {
      assert c[f] == (c + p.fields)[f];
    }
  }

  ghost predicate Disagree(p: Point, q: Point) {
    exists f :: f in p.fields && f in q.fields && p.fields[f] != q.fields[f]
  }

  /** The unit has, for the same target, series and time, another value of one of the point's
      fields. */
  ghost predicate Rival(setup: Setup, u: Unit, dst: Dest, p: Point) {
    u.dst == dst &&
    exists q :: Row(u.sdb, u.srp, q) in setup.master && q.meas in u.meas && KeyOf(dst, q) == KeyOf(dst, p)
                && Disagree(p, q)
  }

  /** It has, and its copy may read the instant. */
  ghost predicate Conflicts(setup: Setup, u: Unit, dst: Dest, p: Point)
    requires GoodUnit(setup, u)
  {
    MayRead(setup, u, p.time) && Rival(setup, u, dst, p)
  }

  ghost predicate NoConflict(setup: Setup, units: seq<Unit>, k: nat, p: Point)
    requires GoodUnits(setup, units) && k < |units|
  {
    forall j :: k < j < |units| ==> !Conflicts(setup, units[j], units[k].dst, p)
  }

  /** Without a later unit that conflicts with it, a kept point is held as it is. */
  lemma KeptIsHeld(setup: Setup, units: seq<Unit>, k: nat, s: Db, p: Point)
    requires GoodUnits(setup, units) && k < |units| && Kept(setup, units, k, s, p)
    requires NoConflict(setup, units, k, p)
    ensures Holds(s, units[k].dst, p)
  {
    var c := Cell(s, KeyOf(units[k].dst, p)).value;
    forall f | f in p.fields ensures f in c && c[f] == p.fields[f] {
      assert FieldKept(setup, units, k, p, f, c[f]);
    }
    assert c + p.fields == c;
  }

  /** A replication accounts for every point of every unit whose instant is covered: at the end it is
      on the slave, each field with its own value or one that a later unit wrote over it, or it lies
      in a bad chunk of its own copy. */
  lemma {:induction false} ReplicationAccounts(setup: Setup, units: seq<Unit>, faults: Faults, s: Db, k: nat, p: Point)
    requires GoodUnits(setup, units) && ValidMaster(setup.master) && k < |units|
    requires Row(units[k].sdb, units[k].srp, p) in setup.master && p.meas in units[k].meas
    requires Covered(UnitPlan(setup, units[k]), setup.chunk, setup.maxret, p.time)
    ensures UnitKept(setup, units, Replicate(setup, units, faults, s), k, p)
    decreases |units|
  {
    hide CopyOutcome, Covered, Holds, InBad, ValidMaster, UnitPlan, DistinctNames, Fits, Kept;
    var n := |units| - 1;
    BadsCount(setup, units[..n], faults, s);
    var before := Replicate(setup, units[..n], faults, s);
    if k == n {
      UnitIsValid(setup, units[n], n, faults);
      var c := UnitCopy(setup, units[n], n, faults);
      NoSilentLoss(c, UnitPlan(setup, units[n]), setup.chunk, setup.maxret, before.store, p);
      var after := Replicate(setup, units, faults, s).store;
      if Holds(after, units[n].dst, p) {
        HeldIsKept(setup, units, n, after, p);
      }
    } else {
      ReplicationAccounts(setup, units[..n], faults, s, k, p);
      if Kept(setup, units[..n], k, before.store, p) {
        KeptStep(setup, units, k, faults, before.store, p);
      }
    }
  }

  /** A later replication whose units keep their sources' names, of a master that still has the
      point, keeps it on the slave. */
  lemma {:induction false} ReplicationKeeps(setup: Setup, units: seq<Unit>, faults: Faults, s: Db, dst: Dest, p: Point)
    requires GoodUnits(setup, units) && ValidMaster(setup.master)
    requires forall u :: u in units ==> u.dst == Dest(u.sdb, u.srp)
    requires Row(dst.db, dst.rp, p) in setup.master && Holds(s, dst, p)
    ensures Holds(Replicate(setup, units, faults, s).store, dst, p)
  {
    hide CopyOutcome, UnitPlan, ValidMaster, Holds, GoodUnit;
    if units != [] {
      var n := |units| - 1;
      ReplicationKeeps(setup, units[..n], faults, s, dst, p);
      assert units[n] in units;
      OwnCopyKeeps(setup, units[n], n, faults, Replicate(setup, units[..n], faults, s).store, dst, p);
    }
  }

  lemma OwnCopyKeeps(setup: Setup, u: Unit, id: nat, faults: Faults, s: Db, dst: Dest, p: Point)
    requires GoodUnit(setup, u) && ValidMaster(setup.master) && u.dst == Dest(u.sdb, u.srp)
    requires Row(dst.db, dst.rp, p) in setup.master && Holds(s, dst, p)
    ensures var c := UnitCopy(setup, u, id, faults);
            Holds(CopyOutcome(c, UnitPlan(setup, u), setup.chunk, setup.maxret, s).store, dst, p)
  {
    var key := KeyOf(dst, p);
    CopyCell(setup, u, id, faults, s, key);
    hide CopyOutcome, UnitPlan;
    var s' := CopyOutcome(UnitCopy(setup, u, id, faults), UnitPlan(setup, u), setup.chunk, setup.maxret, s).store;
    forall q | Row(u.sdb, u.srp, q) in setup.master && KeyOf(u.dst, q) == key ensures q == p {
      assert UniqueKeys(PointsAt(setup.master, dst.db, dst.rp));
      assert q in PointsAt(setup.master, dst.db, dst.rp) && p in PointsAt(setup.master, dst.db, dst.rp);
    }
    assert Cell(s, key).value + p.fields == Cell(s, key).value;
  }

  lemma {:induction false} BadsCount(setup: Setup, units: seq<Unit>, faults: Faults, s: Db)
    requires GoodUnits(setup, units)
    ensures |Replicate(setup, units, faults, s).bads| == |units|
  {
    hide CopyOutcome;
    if units != [] {
      BadsCount(setup, units[..|units| - 1], faults, s);
    }
  }

  // ----------------------------------------------------------------- a full copy

  /** What a copy asks of the policies it is given: measurements by name, no negative duration. */
  ghost predicate GoodPolicies(schema: seq<InfluxSchDb>) {
    forall d, r :: d in schema && r in d.rps ==> DistinctNames(r.measurements) && r.settings.duration >= 0
  }

  lemma FullUnitGood(setup: Setup, d: InfluxSchDb, rp: RetPol, now: int)
    requires GoodSetup(setup) && DistinctNames(rp.measurements) && rp.settings.duration >= 0
    ensures GoodUnit(setup, FullUnit(d, rp, setup.maxret, now))
  {
    var (first, last) := FirstLastTime(rp.settings.duration, setup.maxret, now);
    CountNonNegative(first, last, setup.chunk, setup.maxret);
  }

  lemma {:induction false} FullUnitsGood(setup: Setup, schema: seq<InfluxSchDb>, clock: nat -> int)
    requires GoodSetup(setup) && GoodPolicies(schema)
    ensures GoodUnits(setup, FullUnits(schema, setup.maxret, clock))
  {
    hide GoodUnit, DistinctNames;
    if schema != [] {
      var n := |schema| - 1;
      FullUnitsGood(setup, schema[..n], clock);
      var from := |FullUnits(schema[..n], setup.maxret, clock)|;
      forall i | 0 <= i < |schema[n].rps|
        ensures GoodUnit(setup, FullPolicyUnits(schema[n], setup.maxret, clock, from)[i])
      {
        assert schema[n] in schema && schema[n].rps[i] in schema[n].rps;
        FullUnitGood(setup, schema[n], schema[n].rps[i], clock(from + i));
      }
    }
  }

  /** Each policy has its unit, over its range at the moment it is reached. */
  lemma {:induction false} FullUnitAt(schema: seq<InfluxSchDb>, maxret: int, clock: nat -> int, d: InfluxSchDb, i: nat)
    returns (k: nat)
    requires d in schema && i < |d.rps|
    ensures k < |FullUnits(schema, maxret, clock)|
    ensures FullUnits(schema, maxret, clock)[k] == FullUnit(d, d.rps[i], maxret, clock(k))
  {
    var n := |schema| - 1;
    if schema[n] == d {
      k := |FullUnits(schema[..n], maxret, clock)| + i;
    } else {
      k := FullUnitAt(schema[..n], maxret, clock, d, i);
    }
  }

  /** Within the policy's duration and the maximum retention of the moment, up to its last whole
      second, and at no multiple of a tenth of the chunk from it. */
  ghost predicate FullPromised(setup: Setup, duration: int, now: int, t: int) {
    var end := UnixSec(now) * SECOND;
    && end - (if duration == 0 then setup.maxret else Min(duration, setup.maxret)) <= t < end
    && setup.chunk >= 10 && (end - t) % (setup.chunk / 10) != 0
  }

  lemma FullPromisedCovered(setup: Setup, d: InfluxSchDb, rp: RetPol, now: int, t: int)
    requires setup.chunk > 0 && setup.chunk % (10 * SECOND) == 0 && setup.maxret >= setup.chunk
    requires GoodUnit(setup, FullUnit(d, rp, setup.maxret, now)) && rp.settings.duration >= 0
    requires FullPromised(setup, rp.settings.duration, now, t)
    ensures Covered(UnitPlan(setup, FullUnit(d, rp, setup.maxret, now)), setup.chunk, setup.maxret, t)
  {
    hide Covered;
    TensAreWhole(setup.chunk);
    FullCopyReach(rp.settings.duration, now, setup.chunk, setup.maxret);
    CoveredTenths(UnitPlan(setup, FullUnit(d, rp, setup.maxret, now)), setup.chunk, setup.maxret, t);
  }

  lemma TensAreWhole(chunk: int)
    requires chunk % (10 * SECOND) == 0
    ensures chunk % SECOND == 0
  {
  }

  /** A full copy, with chunks of whole tens of seconds and retention for one: every selected point
      stamped within its policy's duration and the maximum retention is accounted for. */
  lemma FullCopyAccounts(setup: Setup, schema: seq<InfluxSchDb>, clock: nat -> int, faults: Faults, s: Db,
        d: InfluxSchDb, i: nat)
    returns (k: nat)
    requires setup.chunk > 0 && setup.chunk % (10 * SECOND) == 0 && setup.maxret >= setup.chunk
    requires ValidMaster(setup.master) && GoodPolicies(schema) && d in schema && i < |d.rps|
    ensures GoodUnits(setup, FullUnits(schema, setup.maxret, clock))
    ensures k < |FullUnits(schema, setup.maxret, clock)|
    ensures FullUnits(schema, setup.maxret, clock)[k] == FullUnit(d, d.rps[i], setup.maxret, clock(k))
    ensures forall p :: Row(d.name, d.rps[i].name, p) in setup.master && p.meas in d.rps[i].measurements
                        && FullPromised(setup, d.rps[i].settings.duration, clock(k), p.time) ==>
              var units := FullUnits(schema, setup.maxret, clock);
              UnitKept(setup, units, Replicate(setup, units, faults, s), k, p)
  {
    hide Replicate, UnitKept, FullPromised, FullUnits, Covered, ValidMaster, GoodUnit, UnitPlan;
    FullUnitsGood(setup, schema, clock);
    k := FullUnitAt(schema, setup.maxret, clock, d, i);
    var units := FullUnits(schema, setup.maxret, clock);
    assert d.rps[i] in d.rps;
    forall p | Row(d.name, d.rps[i].name, p) in setup.master && p.meas in d.rps[i].measurements
               && FullPromised(setup, d.rps[i].settings.duration, clock(k), p.time)
      ensures UnitKept(setup, units, Replicate(setup, units, faults, s), k, p)
    {
      FullPromisedCovered(setup, d, d.rps[i], clock(k), p.time);
      ReplicationAccounts(setup, units, faults, s, k, p);
    }
  }
}
