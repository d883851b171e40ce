/** Choosing what to copy, giving it new names, and preparing the slave for it. */
module Schema {
  import opened Wrappers

  /** What a policy is created with: its duration, its number of replicas and its shard duration. */
  datatype Settings = Settings(duration: int, replicas: int, shard: int)

  datatype RetPol = RetPol(name: string, settings: Settings, def: bool, measurements: seq<string>)

  datatype InfluxSchDb = InfluxSchDb(name: string, newName: string, defRp: string, newDefRp: string, rps: seq<RetPol>)

  /** What the master answers: its databases, the policies of those whose query succeeds, and the
      measurement names of each database and policy. */
  datatype MasterCatalog = MasterCatalog(
    dbs: seq<string>, policies: map<string, seq<RetPol>>, names: map<(string, string), seq<string>>)

  /** A command-line filter: none, one that does not compile, or a regular expression. */
  datatype Filter = NoFilter | BadPattern | Pattern(matches: string -> bool)

  datatype Filters = Filters(db: Filter, rp: Filter, meas: Filter)

  const INTERNAL := "_internal"

  /** The filter lets the name through (a bad pattern is found out before it is asked). */
  predicate Passes(f: Filter, s: string) {
    f.Pattern? ==> f.matches(s)
  }

  // ------------------------------------------------------------------ GetSchema

  function NamesOf(cat: MasterCatalog, db: string, rp: string): seq<string> {
    if (db, rp) in cat.names then cat.names[(db, rp)] else []
  }

  /** The keys of the measurement map of a policy, in the order they were put in. */
  function Selected(names: seq<string>, f: Filter): seq<string> {
    if names == [] then []
    else
      var n := |names| - 1;
      var rest := Selected(names[..n], f);
      if Passes(f, names[n]) && names[n] !in rest then rest + [names[n]] else rest
  }

  function WithMeasurements(cat: MasterCatalog, fs: Filters, db: string, rp: RetPol): RetPol {
    rp.(measurements := if Passes(fs.rp, rp.name) then Selected(NamesOf(cat, db, rp.name), fs.meas) else [])
  }

  function FilledPolicies(cat: MasterCatalog, fs: Filters, db: string, rps: seq<RetPol>): seq<RetPol> {
    seq(|rps|, i requires 0 <= i < |rps| => WithMeasurements(cat, fs, db, rps[i]))
  }

  /** The last default policy that passes the policy filter. */
  function DefaultOf(rps: seq<RetPol>, f: Filter): Option<string> {
    if rps == [] then None
    else
      var last := rps[|rps| - 1];
      if Passes(f, last.name) && last.def then Some(last.name) else DefaultOf(rps[..|rps| - 1], f)
  }

  datatype DbEntry = Skip | Fail | Keep(db: InfluxSchDb)

  function EntryOf(cat: MasterCatalog, fs: Filters, db: string): DbEntry {
    if db == INTERNAL || !Passes(fs.db, db) || db !in cat.policies then Skip
    else if fs.rp == BadPattern then Fail
    else
      var rps := cat.policies[db];
      if fs.meas == BadPattern && exists rp :: rp in rps && Passes(fs.rp, rp.name) then Fail
      else match DefaultOf(rps, fs.rp)
        case None => Skip
        case Some(d) => Keep(InfluxSchDb(db, db, d, d, FilledPolicies(cat, fs, db, rps)))
  }

  /** The schema of the first databases, or the error one of them gave. */
  function SchemaOf(cat: MasterCatalog, fs: Filters, dbs: seq<string>): Option<seq<InfluxSchDb>> {
    if dbs == [] then Some([])
    else
      var rest := SchemaOf(cat, fs, dbs[..|dbs| - 1]);
      if rest.None? then None
      else match EntryOf(cat, fs, dbs[|dbs| - 1])
        case Skip => rest
        case Fail => None
        case Keep(d) => Some(rest.value + [d])
  }

  function FullSchema(cat: MasterCatalog, fs: Filters): Option<seq<InfluxSchDb>> {
    if fs.db == BadPattern then None else SchemaOf(cat, fs, cat.dbs)
  }

  /** Filling in one policy's measurements. */
  method FillMeasurements(names: seq<string>, f: Filter) returns (mf: seq<string>)
    ensures mf == Selected(names, f)
  {
    mf := [];
    var k := 0;
    while k < |names|
      invariant 0 <= k <= |names|
      invariant mf == Selected(names[..k], f)
    {
      assert names[..k + 1][..k] == names[..k];
      if Passes(f, names[k]) && names[k] !in mf {
        mf := mf + [names[k]];
      }
      k := k + 1;
    }
    assert names[..|names|] == names;
  }

  /** The loop over one database's policies. */
  method FillPolicies(cat: MasterCatalog, fs: Filters, db: string, rps: seq<RetPol>)
    returns (failed: bool, filled: seq<RetPol>, defaultRp: Option<string>)
    requires fs.rp != BadPattern
    ensures failed <==> fs.meas == BadPattern && exists rp :: rp in rps && Passes(fs.rp, rp.name)
    ensures !failed ==> filled == FilledPolicies(cat, fs, db, rps) && defaultRp == DefaultOf(rps, fs.rp)
  {
    failed, filled, defaultRp := false, [], None;
    var k := 0;
    while k < |rps|
      invariant 0 <= k <= |rps|
      invariant filled == FilledPolicies(cat, fs, db, rps[..k])
      invariant defaultRp == DefaultOf(rps[..k], fs.rp)
      invariant fs.meas == BadPattern ==> forall rp :: rp in rps[..k] ==> !Passes(fs.rp, rp.name)
    {
      var rp := rps[k];
      assert rps[..k + 1][..k] == rps[..k];
      var mf := [];
      if Passes(fs.rp, rp.name) {
        if rp.def {
          defaultRp := Some(rp.name);
        }
        if fs.meas == BadPattern {
          assert rp in rps;
          return true, [], None;
        }
        mf := FillMeasurements(NamesOf(cat, db, rp.name), fs.meas);
      }
      filled := filled + [rp.(measurements := mf)];
      k := k + 1;
    }
    assert rps[..|rps|] == rps;
  }

  method GetSchema(cat: MasterCatalog, fs: Filters) returns (schema: Option<seq<InfluxSchDb>>)
    ensures schema == FullSchema(cat, fs)
  {
    if fs.db == BadPattern {
      return None;
    }
    var found: seq<InfluxSchDb> := [];
    var k := 0;
    while k < |cat.dbs|
      invariant 0 <= k <= |cat.dbs|
      invariant SchemaOf(cat, fs, cat.dbs[..k]) == Some(found)
    {
      var db := cat.dbs[k];
      assert cat.dbs[..k + 1][..k] == cat.dbs[..k];
      if db != INTERNAL && Passes(fs.db, db) && db in cat.policies {
        if fs.rp == BadPattern {
          FailureStays(cat, fs, cat.dbs, k + 1);
          return None;
        }
        var failed, rps, defaultRp := FillPolicies(cat, fs, db, cat.policies[db]);
        if failed {
          FailureStays(cat, fs, cat.dbs, k + 1);
          return None;
        }
        if defaultRp.Some? {
          found := found + [InfluxSchDb(db, db, defaultRp.value, defaultRp.value, rps)];
        }
      }
      k := k + 1;
    }
    assert cat.dbs[..|cat.dbs|] == cat.dbs;
    schema := Some(found);
  }

  lemma {:induction false} FailureStays(cat: MasterCatalog, fs: Filters, dbs: seq<string>, k: nat)
    requires k <= |dbs| && SchemaOf(cat, fs, dbs[..k]) == None
    ensures SchemaOf(cat, fs, dbs) == None
    decreases |dbs|
  {
    if k == |dbs| {
      assert dbs[..k] == dbs;
    } else {
      assert dbs[..|dbs| - 1][..k] == dbs[..k];
      FailureStays(cat, fs, dbs[..|dbs| - 1], k);
    }
  }

  // ------------------------------------------------------------- what is selected

  /** The job for measurement m of policy rp of database db is submitted. */
  ghost predicate Submits(schema: seq<InfluxSchDb>, db: string, rp: string, m: string) {
    exists d, r :: d in schema && r in d.rps && d.name == db && r.name == rp && m in r.measurements
  }

  predicate HasDefault(rps: seq<RetPol>, f: Filter) {
    exists r :: r in rps && Passes(f, r.name) && r.def
  }

  /** All three filters let the triple through, and so does the policy filter a default policy of
      the database. */
  ghost predicate Chosen(cat: MasterCatalog, fs: Filters, db: string, rp: string, m: string) {
    && db in cat.dbs && db != INTERNAL && Passes(fs.db, db) && db in cat.policies
    && HasDefault(cat.policies[db], fs.rp)
    && (exists r :: r in cat.policies[db] && r.name == rp) && Passes(fs.rp, rp)
    && m in NamesOf(cat, db, rp) && Passes(fs.meas, m)
  }

  lemma {:induction false} SelectedExact(names: seq<string>, f: Filter)
    ensures forall m :: m in Selected(names, f) <==> m in names && Passes(f, m)
    ensures DistinctNames(Selected(names, f))
  {
    if names != [] {
      var n := |names| - 1;
      SelectedExact(names[..n], f);
      assert names == names[..n] + [names[n]];
    }
  }

  lemma {:induction false} DefaultExact(rps: seq<RetPol>, f: Filter)
    ensures DefaultOf(rps, f).Some? <==> HasDefault(rps, f)
    ensures DefaultOf(rps, f).Some? ==>
      exists r :: r in rps && r.name == DefaultOf(rps, f).value && r.def && Passes(f, r.name)
  {
    if rps != [] {
      DefaultExact(rps[..|rps| - 1], f);
      assert rps == rps[..|rps| - 1] + [rps[|rps| - 1]];
    }
  }

  /** Of several default policies that pass the filter the last one counts. */
  lemma {:induction false} DefaultIsLast(rps: seq<RetPol>, f: Filter, i: nat)
    requires i < |rps| && rps[i].def && Passes(f, rps[i].name)
    requires forall j :: i < j < |rps| ==> !(rps[j].def && Passes(f, rps[j].name))
    ensures DefaultOf(rps, f) == Some(rps[i].name)
  {
    if i < |rps| - 1 {
      DefaultIsLast(rps[..|rps| - 1], f, i);
    }
  }

  lemma {:induction false} EntriesExact(cat: MasterCatalog, fs: Filters, dbs: seq<string>)
    ensures SchemaOf(cat, fs, dbs) == None <==> exists db :: db in dbs && EntryOf(cat, fs, db) == Fail
    ensures SchemaOf(cat, fs, dbs).Some? ==>
      forall d :: d in SchemaOf(cat, fs, dbs).value <==> d.name in dbs && EntryOf(cat, fs, d.name) == Keep(d)
  {
    if dbs != [] {
      var n := |dbs| - 1;
      EntriesExact(cat, fs, dbs[..n]);
      assert dbs == dbs[..n] + [dbs[n]];
    }
  }

  lemma FilledMember(cat: MasterCatalog, fs: Filters, db: string, rps: seq<RetPol>, r: RetPol)
    ensures r in FilledPolicies(cat, fs, db, rps) <==>
            exists q :: q in rps && r == WithMeasurements(cat, fs, db, q)
  {
    if q :| q in rps && r == WithMeasurements(cat, fs, db, q) {
      var i :| 0 <= i < |rps| && rps[i] == q;
      assert FilledPolicies(cat, fs, db, rps)[i] == r;
    }
  }

  /** The submitted jobs are exactly the chosen triples; a policy that fails the filter is kept
      without measurements. */
  lemma SelectionExact(cat: MasterCatalog, fs: Filters, db: string, rp: string, m: string)
    requires FullSchema(cat, fs).Some?
    ensures Submits(FullSchema(cat, fs).value, db, rp, m) <==> Chosen(cat, fs, db, rp, m)
  {
    var schema := FullSchema(cat, fs).value;
    EntriesExact(cat, fs, cat.dbs);
    if db in cat.policies {
      DefaultExact(cat.policies[db], fs.rp);
    }
    SelectedExact(NamesOf(cat, db, rp), fs.meas);
    if Submits(schema, db, rp, m) {
      var d, r :| d in schema && r in d.rps && d.name == db && r.name == rp && m in r.measurements;
      FilledMember(cat, fs, db, cat.policies[db], r);
    } else if Chosen(cat, fs, db, rp, m) {
      ChosenSubmits(cat, fs, db, rp, m);
    }
  }

  /** The same with every filter a pattern, written out. */
  lemma PatternsExact(cat: MasterCatalog, dbs: string -> bool, rps: string -> bool, names: string -> bool,
        db: string, rp: string, m: string)
    ensures var schema := FullSchema(cat, Filters(Pattern(dbs), Pattern(rps), Pattern(names)));
            && schema.Some?
            && (Submits(schema.value, db, rp, m) <==>
                  && db in cat.dbs && db != "_internal" && db in cat.policies && (db, rp) in cat.names
                  && (exists r :: r in cat.policies[db] && r.def && rps(r.name))
                  && (exists r :: r in cat.policies[db] && r.name == rp)
                  && m in cat.names[(db, rp)] && dbs(db) && rps(rp) && names(m))
  {
    var fs := Filters(Pattern(dbs), Pattern(rps), Pattern(names));
    SchemaFails(cat, fs);
    SelectionExact(cat, fs, db, rp, m);
    hide FullSchema, Submits;
  }

  /** And without filters. */
  lemma UnfilteredExact(cat: MasterCatalog, db: string, rp: string, m: string)
    ensures var schema := FullSchema(cat, Filters(NoFilter, NoFilter, NoFilter));
            && schema.Some?
            && (Submits(schema.value, db, rp, m) <==>
                  && db in cat.dbs && db != "_internal" && db in cat.policies && (db, rp) in cat.names
                  && (exists r :: r in cat.policies[db] && r.def)
                  && (exists r :: r in cat.policies[db] && r.name == rp)
                  && m in cat.names[(db, rp)])
  {
    var fs := Filters(NoFilter, NoFilter, NoFilter);
    SchemaFails(cat, fs);
    SelectionExact(cat, fs, db, rp, m);
    hide FullSchema, Submits;
  }

  lemma ChosenSubmits(cat: MasterCatalog, fs: Filters, db: string, rp: string, m: string)
    requires FullSchema(cat, fs).Some? && Chosen(cat, fs, db, rp, m)
    ensures Submits(FullSchema(cat, fs).value, db, rp, m)
  {
    EntriesExact(cat, fs, cat.dbs);
    DefaultExact(cat.policies[db], fs.rp);
    SelectedExact(NamesOf(cat, db, rp), fs.meas);
    var rps := cat.policies[db];
    assert EntryOf(cat, fs, db) != Fail;
    var d := EntryOf(cat, fs, db).db;
    var q :| q in rps && q.name == rp;
    FilledMember(cat, fs, db, rps, WithMeasurements(cat, fs, db, q));
    assert d in FullSchema(cat, fs).value && WithMeasurements(cat, fs, db, q) in d.rps;
  }

  /** Getting the schema fails exactly when the database filter does not compile, or a database
      that passes it and answers with its policies meets a policy filter that does not, or has a
      policy that passes and meets a measurement filter that does not. */
  lemma SchemaFails(cat: MasterCatalog, fs: Filters)
    ensures FullSchema(cat, fs) == None <==>
      || fs.db == BadPattern
      || exists db :: db in cat.dbs && db != INTERNAL && Passes(fs.db, db) && db in cat.policies &&
           (fs.rp == BadPattern ||
            (fs.meas == BadPattern && exists rp :: rp in cat.policies[db] && Passes(fs.rp, rp.name)))
  {
    EntriesExact(cat, fs, cat.dbs);
    forall db ensures EntryOf(cat, fs, db) == Fail <==>
      db != INTERNAL && Passes(fs.db, db) && db in cat.policies &&
      (fs.rp == BadPattern ||
       (fs.meas == BadPattern && exists rp :: rp in cat.policies[db] && Passes(fs.rp, rp.name)))
    {
    }
  }

  /** The measurements of a selected policy are keys of a map. */
  lemma SelectedNames(cat: MasterCatalog, fs: Filters)
    requires FullSchema(cat, fs).Some?
    ensures forall d, r :: d in FullSchema(cat, fs).value && r in d.rps ==> DistinctNames(r.measurements)
  {
    forall d, r | d in FullSchema(cat, fs).value && r in d.rps ensures DistinctNames(r.measurements) {
      var i :| 0 <= i < |d.rps| && d.rps[i] == r;
      FilteredPoliciesStay(cat, fs, d, i);
    }
  }

  /** Every policy stays in the entry with its name and settings, and the default's name is that of a
      default policy that passes the filter; policies that fail it have nothing to copy. */
  lemma FilteredPoliciesStay(cat: MasterCatalog, fs: Filters, d: InfluxSchDb, i: nat)
    requires FullSchema(cat, fs).Some? && d in FullSchema(cat, fs).value
    ensures d.name in cat.policies && |d.rps| == |cat.policies[d.name]| && d.newName == d.name
    ensures HasDefault(d.rps, NoFilter)
    ensures d.newDefRp == d.defRp
    ensures exists r :: r in cat.policies[d.name] && r.name == d.defRp && r.def && Passes(fs.rp, r.name)
    ensures i < |d.rps| ==>
      var r := cat.policies[d.name][i];
      d.rps[i].name == r.name && d.rps[i].def == r.def
      && d.rps[i].settings.duration == r.settings.duration
      && d.rps[i].settings.replicas == r.settings.replicas
      && d.rps[i].settings.shard == r.settings.shard
      && DistinctNames(d.rps[i].measurements)
      && (!Passes(fs.rp, r.name) ==> d.rps[i].measurements == [])
  {
    EntriesExact(cat, fs, cat.dbs);
    var rps := cat.policies[d.name];
    DefaultExact(rps, fs.rp);
    var r :| r in rps && r.name == DefaultOf(rps, fs.rp).value && r.def;
    var j :| 0 <= j < |rps| && rps[j] == r;
    assert d.rps[j].def && d.rps[j] in d.rps;
    if i < |rps| {
      SelectedExact(NamesOf(cat, d.name, rps[i].name), fs.meas);
    }
  }

  /** The databases of the schema come in the order in which the master lists them. */
  lemma {:induction false} SchemaInOrder(cat: MasterCatalog, fs: Filters, dbs: seq<string>, a: nat, b: nat)
    returns (i: nat, j: nat)
    requires SchemaOf(cat, fs, dbs).Some? && a < b < |SchemaOf(cat, fs, dbs).value|
    ensures i < j < |dbs|
    ensures dbs[i] == SchemaOf(cat, fs, dbs).value[a].name && dbs[j] == SchemaOf(cat, fs, dbs).value[b].name
  {
    hide EntryOf;
    var n := |dbs| - 1;
    var before := SchemaOf(cat, fs, dbs[..n]).value;
    if b < |before| {
      i, j := SchemaInOrder(cat, fs, dbs[..n], a, b);
    } else {
      EntriesExact(cat, fs, dbs[..n]);
      EntriesExact(cat, fs, dbs);
      assert before[a] in before && SchemaOf(cat, fs, dbs).value[b] == EntryOf(cat, fs, dbs[n]).db;
      i :| 0 <= i < n && dbs[..n][i] == before[a].name;
      j := n;
      EntryName(cat, fs, dbs[n]);
    }
  }

  lemma EntryName(cat: MasterCatalog, fs: Filters, db: string)
    requires EntryOf(cat, fs, db).Keep?
    ensures EntryOf(cat, fs, db).db.name == db
  {
  }

  // ------------------------------------------------------------- ReplicateSchema

  datatype SlaveDb = SlaveDb(rps: map<string, Settings>, def: string)
  type Slave = map<string, SlaveDb>

  /** CREATE DATABASE ... NAME rp: nothing for "_internal", an error if the database exists. */
  function AfterCreateDB(s: Slave, db: string, rp: string, st: Settings): Slave {
    if db == INTERNAL || db in s then s else s[db := SlaveDb(map[rp := st], rp)]
  }

  /** CREATE RETENTION POLICY: an error if the database is missing or the policy exists. */
  function AfterCreateRP(s: Slave, db: string, rp: string, st: Settings, def: bool): Slave {
    if db !in s || rp in s[db].rps then s
    else s[db := SlaveDb(s[db].rps[rp := st], if def then rp else s[db].def)]
  }

  /** ALTER RETENTION POLICY ... DEFAULT: an error if there is no such policy. */
  function AfterSetDefault(s: Slave, db: string, rp: string): Slave {
    if db !in s || rp !in s[db].rps then s else s[db := s[db].(def := rp)]
  }

  /** The policy a policy's points are written to. */
  function TargetRp(d: InfluxSchDb, rp: RetPol): string {
    if rp.def then d.newDefRp else rp.name
  }

  /** The settings of the first default policy; without one, those of an empty policy. */
  function DefaultSettings(rps: seq<RetPol>): Settings {
    if rps == [] then Settings(0, 0, 0)
    else if rps[0].def then rps[0].settings
    else DefaultSettings(rps[1..])
  }

  /** Of several default policies the first one gives the settings. */
  lemma {:induction false} DefaultIsFirst(rps: seq<RetPol>, i: nat)
    requires i < |rps| && rps[i].def && forall j :: 0 <= j < i ==> !rps[j].def
    ensures DefaultSettings(rps) == rps[i].settings
  {
    if i > 0 {
      DefaultIsFirst(rps[1..], i - 1);
    }
  }

  lemma DefaultFrom(rps: seq<RetPol>, i: nat)
    requires i < |rps|
    ensures DefaultSettings(rps[i..]) == if rps[i].def then rps[i].settings else DefaultSettings(rps[i + 1..])
  {
    assert rps[i..][1..] == rps[i + 1..];
  }

  function AfterPolicy(s: Slave, d: InfluxSchDb, rp: RetPol): Slave {
    if rp.def then
      var s' := AfterCreateRP(s, d.newName, d.newDefRp, DefaultSettings(d.rps), true);
      AfterSetDefault(s', d.newName, d.newDefRp)
    else AfterCreateRP(s, d.newName, rp.name, rp.settings, false)
  }

  function AfterPolicies(s: Slave, d: InfluxSchDb, n: nat): Slave
    requires n <= |d.rps|
  {
    if n == 0 then s else AfterPolicy(AfterPolicies(s, d, n - 1), d, d.rps[n - 1])
  }

  /** Without a default policy the first command names no policy, and the server refuses it. */
  function AfterDatabase(s: Slave, d: InfluxSchDb): Slave {
    AfterPolicies(Created(s, d), d, |d.rps|)
  }

  function Created(s: Slave, d: InfluxSchDb): Slave {
    if HasDefault(d.rps, NoFilter) then AfterCreateDB(s, d.newName, d.newDefRp, DefaultSettings(d.rps)) else s
  }

  function AfterSchema(s: Slave, schema: seq<InfluxSchDb>): Slave {
    if schema == [] then s
    else AfterDatabase(AfterSchema(s, schema[..|schema| - 1]), schema[|schema| - 1])
  }

  class SlaveServer {
    var dbs: Slave

    constructor (initial: Slave)
      ensures dbs == initial
    {
      dbs := initial;
    }

    method CreateDB(db: string, rp: string, st: Settings) returns (err: bool)
      modifies this
      ensures dbs == AfterCreateDB(old(dbs), db, rp, st)
      ensures err <==> db != INTERNAL && db in old(dbs)
      ensures err || db == "_internal" ==> dbs == old(dbs)
      ensures !err && db != "_internal" ==> dbs == old(dbs)[db := SlaveDb(map[rp := st], rp)]
    {
      if db == INTERNAL {
        return false;
      }
      err := db in dbs;
      if !err {
        dbs := dbs[db := SlaveDb(map[rp := st], rp)];
      }
    }

    method CreateRP(db: string, rp: string, st: Settings, def: bool) returns (err: bool)
      modifies this
      ensures dbs == AfterCreateRP(old(dbs), db, rp, st, def)
      ensures err <==> db !in old(dbs) || rp in old(dbs)[db].rps
      ensures err ==> dbs == old(dbs)
      ensures !err ==> dbs == old(dbs)[db := SlaveDb(old(dbs)[db].rps[rp := st], if def then rp else old(dbs)[db].def)]
    {
      err := db !in dbs || rp in dbs[db].rps;
      if !err {
        dbs := dbs[db := SlaveDb(dbs[db].rps[rp := st], if def then rp else dbs[db].def)];
      }
    }

    method SetDefaultRP(db: string, rp: string) returns (err: bool)
      modifies this
      ensures dbs == AfterSetDefault(old(dbs), db, rp)
      ensures err <==> db !in old(dbs) || rp !in old(dbs)[db].rps
      ensures err ==> dbs == old(dbs)
      ensures !err ==> dbs == old(dbs)[db := SlaveDb(old(dbs)[db].rps, rp)]
    {
      err := db !in dbs || rp !in dbs[db].rps;
      if !err {
        dbs := dbs[db := dbs[db].(def := rp)];
      }
    }

    /** Errors are logged and the loop goes on. */
    method ReplicateDatabase(d: InfluxSchDb)
      modifies this
      ensures dbs == AfterDatabase(old(dbs), d)
    {
      hide DefaultSettings;
      var found, st := false, Settings(0, 0, 0);
      assert d.rps[0..] == d.rps;
      var i := 0;
      while i < |d.rps| && !found
        invariant 0 <= i <= |d.rps|
        invariant found ==> HasDefault(d.rps, NoFilter) && st == DefaultSettings(d.rps)
        invariant !found ==> forall k :: 0 <= k < i ==> !d.rps[k].def
        invariant !found ==> DefaultSettings(d.rps) == DefaultSettings(d.rps[i..])
        invariant dbs == old(dbs)
        decreases |d.rps| - i, !found
      {
        DefaultFrom(d.rps, i);
        if d.rps[i].def {
          assert d.rps[i] in d.rps;
          found, st := true, d.rps[i].settings;
        } else {
          i := i + 1;
        }
      }
      if found {
        var _ := CreateDB(d.newName, d.newDefRp, st);
      }
      assert dbs == Created(old(dbs), d);
      ghost var start := dbs;
      var k := 0;
      while k < |d.rps|
        invariant 0 <= k <= |d.rps|
        invariant dbs == AfterPolicies(start, d, k)
      {
        var rp := d.rps[k];
        if rp.def {
          assert rp in d.rps;
          var crrperr := CreateRP(d.newName, d.newDefRp, st, true);
          var alrperr := SetDefaultRP(d.newName, d.newDefRp);
        } else {
          var crrperr := CreateRP(d.newName, rp.name, rp.settings, false);
        }
        k := k + 1;
      }
    }

    method ReplicateSchema(schema: seq<InfluxSchDb>)
      modifies this
      ensures dbs == AfterSchema(old(dbs), schema)
    {
      var k := 0;
      while k < |schema|
        invariant 0 <= k <= |schema|
        invariant dbs == AfterSchema(old(dbs), schema[..k])
      {
        assert schema[..k + 1][..k] == schema[..k];
        ReplicateDatabase(schema[k]);
        k := k + 1;
      }
      assert schema[..|schema|] == schema;
    }
  }

  predicate Exists(s: Slave, db: string, rp: string) {
    db in s && rp in s[db].rps
  }

  /** Nothing on the slave is dropped, and no policy's settings change. */
  ghost predicate Keeps(s: Slave, s': Slave) {
    && (forall db :: db in s ==> db in s')
    && (forall db, rp :: Exists(s, db, rp) ==> Exists(s', db, rp) && s'[db].rps[rp] == s[db].rps[rp])
  }

  lemma {:induction false} PoliciesKeep(s: Slave, d: InfluxSchDb, n: nat)
    requires n <= |d.rps|
    ensures Keeps(s, AfterPolicies(s, d, n))
    ensures d.newName in AfterPolicies(s, d, n) <==> d.newName in s
    ensures forall db :: db != d.newName ==>
      (db in AfterPolicies(s, d, n) <==> db in s) && (db in s ==> AfterPolicies(s, d, n)[db] == s[db])
  {
    if n > 0 {
      PoliciesKeep(s, d, n - 1);
      PolicyKeeps(AfterPolicies(s, d, n - 1), d, d.rps[n - 1]);
      hide AfterPolicy;
    }
  }

  lemma PolicyKeeps(s: Slave, d: InfluxSchDb, rp: RetPol)
    ensures Keeps(s, AfterPolicy(s, d, rp))
    ensures d.newName in AfterPolicy(s, d, rp) <==> d.newName in s
    ensures forall db :: db != d.newName ==>
      (db in AfterPolicy(s, d, rp) <==> db in s) && (db in s ==> AfterPolicy(s, d, rp)[db] == s[db])
    ensures d.newName in s ==> Exists(AfterPolicy(s, d, rp), d.newName, TargetRp(d, rp))
    ensures d.newName in s && (rp.def || s[d.newName].def == d.newDefRp) ==>
      AfterPolicy(s, d, rp)[d.newName].def == d.newDefRp
  {
  }

  lemma {:induction false} PoliciesCreate(s: Slave, d: InfluxSchDb, n: nat, i: nat)
    requires i < n <= |d.rps| && d.newName in s
    ensures Exists(AfterPolicies(s, d, n), d.newName, TargetRp(d, d.rps[i]))
  {
    PoliciesKeep(s, d, n - 1);
    PolicyKeeps(AfterPolicies(s, d, n - 1), d, d.rps[n - 1]);
    hide AfterPolicy, TargetRp;
    if i < n - 1 {
      PoliciesCreate(s, d, n - 1, i);
    }
  }

  lemma {:induction false} PoliciesDefault(s: Slave, d: InfluxSchDb, n: nat, i: nat)
    requires i < n <= |d.rps| && d.newName in s && d.rps[i].def
    ensures d.newName in AfterPolicies(s, d, n) && AfterPolicies(s, d, n)[d.newName].def == d.newDefRp
  {
    PoliciesKeep(s, d, n - 1);
    PolicyKeeps(AfterPolicies(s, d, n - 1), d, d.rps[n - 1]);
    hide AfterPolicy, TargetRp, Keeps;
    if i < n - 1 {
      PoliciesDefault(s, d, n - 1, i);
    }
  }

  lemma DatabaseKeeps(s: Slave, d: InfluxSchDb)
    ensures Keeps(s, AfterDatabase(s, d))
    ensures d.newName == INTERNAL ==> (INTERNAL in AfterDatabase(s, d) <==> INTERNAL in s)
    ensures forall db :: db != d.newName ==>
      (db in AfterDatabase(s, d) <==> db in s) && (db in s ==> AfterDatabase(s, d)[db] == s[db])
  {
    PoliciesKeep(Created(s, d), d, |d.rps|);
  }

  lemma {:induction false} SchemaKeeps(s: Slave, schema: seq<InfluxSchDb>)
    ensures Keeps(s, AfterSchema(s, schema))
    ensures INTERNAL in AfterSchema(s, schema) <==> INTERNAL in s
  {
    if schema != [] {
      SchemaKeeps(s, schema[..|schema| - 1]);
      DatabaseKeeps(AfterSchema(s, schema[..|schema| - 1]), schema[|schema| - 1]);
    }
  }

  /** Every policy the data phase writes to is there. */
  ghost predicate Ready(s: Slave, schema: seq<InfluxSchDb>) {
    forall k, i :: 0 <= k < |schema| && 0 <= i < |schema[k].rps| ==>
      Exists(s, schema[k].newName, TargetRp(schema[k], schema[k].rps[i]))
  }

  lemma DatabaseCreates(s: Slave, d: InfluxSchDb, i: nat)
    requires i < |d.rps| && HasDefault(d.rps, NoFilter) && (d.newName != INTERNAL || INTERNAL in s)
    ensures Exists(AfterDatabase(s, d), d.newName, TargetRp(d, d.rps[i]))
    ensures d.newName in AfterDatabase(s, d) && AfterDatabase(s, d)[d.newName].def == d.newDefRp
  {
    var r :| r in d.rps && r.def;
    var j :| 0 <= j < |d.rps| && d.rps[j] == r;
    hide AfterPolicies, TargetRp, Exists;
    PoliciesCreate(Created(s, d), d, |d.rps|, i);
    PoliciesDefault(Created(s, d), d, |d.rps|, j);
  }

  lemma {:induction false} SchemaCreates(s: Slave, schema: seq<InfluxSchDb>, k: nat, i: nat)
    requires k < |schema| && i < |schema[k].rps| && HasDefault(schema[k].rps, NoFilter)
    requires schema[k].newName != INTERNAL || INTERNAL in s
    ensures Exists(AfterSchema(s, schema), schema[k].newName, TargetRp(schema[k], schema[k].rps[i]))
  {
    hide AfterDatabase, TargetRp, Exists;
    var n := |schema| - 1;
    var before := AfterSchema(s, schema[..n]);
    if k < n {
      SchemaCreates(s, schema[..n], k, i);
      DatabaseKeeps(before, schema[n]);
    } else {
      SchemaKeeps(s, schema[..n]);
      DatabaseCreates(before, schema[n], i);
    }
  }

  /** For a schema whose databases all have a default policy, the schema phase makes every target
      of the data phase exactly when no target database is "_internal", or the slave has that
      one already: its creation is passed over. */
  lemma SchemaFeedsData(s: Slave, schema: seq<InfluxSchDb>)
    requires forall k :: 0 <= k < |schema| ==> HasDefault(schema[k].rps, NoFilter)
    ensures Ready(AfterSchema(s, schema), schema)
       <==> INTERNAL in s || forall k :: 0 <= k < |schema| ==> schema[k].newName != INTERNAL
  {
    SchemaKeeps(s, schema);
    if INTERNAL in s || forall k :: 0 <= k < |schema| ==> schema[k].newName != INTERNAL {
      forall k, i | 0 <= k < |schema| && 0 <= i < |schema[k].rps|
        ensures Exists(AfterSchema(s, schema), schema[k].newName, TargetRp(schema[k], schema[k].rps[i]))
      {
        SchemaCreates(s, schema, k, i);
      }
    } else {
      var k :| 0 <= k < |schema| && schema[k].newName == INTERNAL;
      assert HasDefault(schema[k].rps, NoFilter);
      var r :| r in schema[k].rps && r.def;
      var i :| 0 <= i < |schema[k].rps| && schema[k].rps[i] == r;
      assert !Exists(AfterSchema(s, schema), schema[k].newName, TargetRp(schema[k], schema[k].rps[i]));
    }
  }

  /** With distinct target names each target's default is the new default policy. */
  lemma {:induction false} SchemaDefaults(s: Slave, schema: seq<InfluxSchDb>, k: nat)
    requires forall a, b :: 0 <= a < b < |schema| ==> schema[a].newName != schema[b].newName
    requires k < |schema| && HasDefault(schema[k].rps, NoFilter)
    requires schema[k].newName != INTERNAL || INTERNAL in s
    ensures schema[k].newName in AfterSchema(s, schema)
    ensures AfterSchema(s, schema)[schema[k].newName].def == schema[k].newDefRp
  {
    hide AfterDatabase, Keeps, Exists;
    var n := |schema| - 1;
    var before := AfterSchema(s, schema[..n]);
    if k < n {
      SchemaDefaults(s, schema[..n], k);
      DatabaseKeeps(before, schema[n]);
    } else {
      SchemaKeeps(s, schema[..n]);
      DatabaseCreates(before, schema[n], 0);
    }
  }

  // ------------------------------------------------------- the settings of the policies

  /** The policies of a database are written to targets of their own; so at most one is a default. */
  ghost predicate OwnPolicies(d: InfluxSchDb) {
    forall a, b :: 0 <= a < b < |d.rps| ==> TargetRp(d, d.rps[a]) != TargetRp(d, d.rps[b])
  }

  /** The first n policies of d are on the slave with their settings, and the new default with its
      own; nothing else is. */
  ghost predicate Copied(s: Slave, d: InfluxSchDb, n: nat)
    requires n <= |d.rps|
  {
    && d.newName in s
    && (forall a :: 0 <= a < n ==>
          Exists(s, d.newName, TargetRp(d, d.rps[a])) && s[d.newName].rps[TargetRp(d, d.rps[a])] == d.rps[a].settings)
    && Exists(s, d.newName, d.newDefRp) && s[d.newName].rps[d.newDefRp] == DefaultSettings(d.rps)
    && (forall x :: x in s[d.newName].rps ==> x == d.newDefRp || Target(d, n, x))
  }

  ghost predicate Target(d: InfluxSchDb, n: nat, x: string)
    requires n <= |d.rps|
  {
    exists a :: 0 <= a < n && TargetRp(d, d.rps[a]) == x
  }

  /** The default's settings are those of the only default policy. */
  lemma {:induction false} OnlyDefault(d: InfluxSchDb, i: nat, n: nat)
    requires OwnPolicies(d) && n <= i < |d.rps| && d.rps[i].def
    ensures DefaultSettings(d.rps[n..]) == d.rps[i].settings
    decreases i - n
  {
    assert d.rps[n..][1..] == d.rps[n + 1..];
    if n < i {
      assert TargetRp(d, d.rps[n]) != TargetRp(d, d.rps[i]);
      OnlyDefault(d, i, n + 1);
    }
  }

  lemma DefaultCopies(s: Slave, d: InfluxSchDb, n: nat)
    requires OwnPolicies(d) && n < |d.rps| && d.rps[n].def && Copied(s, d, n)
    ensures Copied(AfterPolicy(s, d, d.rps[n]), d, n + 1)
  {
    OnlyDefault(d, n, 0);
    assert d.rps[0..] == d.rps;
    var s' := AfterPolicy(s, d, d.rps[n]);
    assert d.newName in s' && s'[d.newName].rps == s[d.newName].rps;
    hide AfterPolicy, OwnPolicies, DefaultSettings;
    TargetNext(d, n);
  }

  /** A policy that is no default is not there yet. */
  lemma NotThere(s: Slave, d: InfluxSchDb, n: nat)
    requires OwnPolicies(d) && n < |d.rps| && HasDefault(d.rps, NoFilter) && !d.rps[n].def && Copied(s, d, n)
    ensures d.rps[n].name !in s[d.newName].rps
  {
    var r :| r in d.rps && r.def;
    var i :| 0 <= i < |d.rps| && d.rps[i] == r;
    assert TargetRp(d, d.rps[i]) == d.newDefRp && TargetRp(d, d.rps[n]) == d.rps[n].name;
  }

  lemma TargetNext(d: InfluxSchDb, n: nat)
    requires n < |d.rps|
    ensures forall x :: Target(d, n + 1, x) <==> Target(d, n, x) || x == TargetRp(d, d.rps[n])
  {
    forall x | Target(d, n, x) || x == TargetRp(d, d.rps[n]) ensures Target(d, n + 1, x) {
      if x != TargetRp(d, d.rps[n]) {
        var a :| 0 <= a < n && TargetRp(d, d.rps[a]) == x;
        assert 0 <= a < n + 1 && TargetRp(d, d.rps[a]) == x;
      }
    }
  }

  lemma PolicyCopies(s: Slave, d: InfluxSchDb, n: nat)
    requires OwnPolicies(d) && n < |d.rps| && HasDefault(d.rps, NoFilter) && Copied(s, d, n)
    ensures Copied(AfterPolicy(s, d, d.rps[n]), d, n + 1)
  {
    var rp := d.rps[n];
    if rp.def {
      DefaultCopies(s, d, n);
    } else {
      NotThere(s, d, n);
      var s' := AfterPolicy(s, d, rp);
      assert d.newName in s' && s'[d.newName].rps == s[d.newName].rps[rp.name := rp.settings];
      hide AfterPolicy, OwnPolicies, DefaultSettings, HasDefault, Target;
      TargetNext(d, n);
    }
  }

  lemma {:induction false} PoliciesCopied(s: Slave, d: InfluxSchDb, n: nat)
    requires OwnPolicies(d) && n <= |d.rps| && HasDefault(d.rps, NoFilter) && Copied(s, d, 0)
    ensures Copied(AfterPolicies(s, d, n), d, n)
  {
    hide Copied, OwnPolicies, AfterPolicy;
    if n > 0 {
      PoliciesCopied(s, d, n - 1);
      PolicyCopies(AfterPolicies(s, d, n - 1), d, n - 1);
    }
  }

  /** On a slave without the target database, and with distinct new names, the target database ends
      with exactly the source's policies, renamed, each with the source's duration, replicas and
      shard duration. */
  lemma {:induction false} SchemaCopiesSettings(s: Slave, schema: seq<InfluxSchDb>, k: nat)
    requires forall a, b :: 0 <= a < b < |schema| ==> schema[a].newName != schema[b].newName
    requires k < |schema| && HasDefault(schema[k].rps, NoFilter) && OwnPolicies(schema[k])
    requires schema[k].newName != INTERNAL && schema[k].newName !in s
    ensures Copied(AfterSchema(s, schema), schema[k], |schema[k].rps|)
  {
    var n := |schema| - 1;
    var before := AfterSchema(s, schema[..n]);
    if k < n {
      SchemaCopiesSettings(s, schema[..n], k);
      DatabaseKeeps(before, schema[n]);
    } else {
      NotCreated(s, schema[..n], schema[n].newName);
      PoliciesCopied(Created(before, schema[n]), schema[n], |schema[n].rps|);
    }
  }

  lemma {:induction false} NotCreated(s: Slave, schema: seq<InfluxSchDb>, db: string)
    requires db !in s && forall k :: 0 <= k < |schema| ==> schema[k].newName != db
    ensures db !in AfterSchema(s, schema)
  {
    if schema != [] {
      NotCreated(s, schema[..|schema| - 1], db);
      DatabaseKeeps(AfterSchema(s, schema[..|schema| - 1]), schema[|schema| - 1]);
    }
  }

  /** -newdb and -newrp give every database of the schema the same new name or default. */
  function Renamed(schema: seq<InfluxSchDb>, newdb: string, newrp: string): seq<InfluxSchDb> {
    seq(|schema|, i requires 0 <= i < |schema| =>
      var d := schema[i];
      d.(newName := if newdb != "" then newdb else d.newName,
         newDefRp := if newrp != "" then newrp else d.newDefRp))
  }

  /** Where a policy of the catalog goes: to the new names, where given. */
  function RenamedDb(db: string, newdb: string): string {
    if newdb != "" then newdb else db
  }

  function RenamedRp(p: RetPol, def: string, newrp: string): string {
    if !p.def then p.name else if newrp != "" then newrp else def
  }

  lemma RenamedTo(cat: MasterCatalog, fs: Filters, newdb: string, newrp: string, k: nat, i: nat)
    requires FullSchema(cat, fs).Some? && k < |FullSchema(cat, fs).value|
    ensures var found := FullSchema(cat, fs).value[k];
            var d := Renamed(FullSchema(cat, fs).value, newdb, newrp)[k];
            && found.name in cat.policies && |d.rps| == |cat.policies[found.name]|
            && d.name == found.name && d.rps == found.rps
            && d.newName == RenamedDb(found.name, newdb)
            && d.newDefRp == (if newrp != "" then newrp else found.defRp)
            && (i < |d.rps| ==> TargetRp(d, d.rps[i]) == RenamedRp(cat.policies[found.name][i], found.defRp, newrp))
  {
    assert FullSchema(cat, fs).value[k] in FullSchema(cat, fs).value;
    FilteredPoliciesStay(cat, fs, FullSchema(cat, fs).value[k], i);
  }

  /** From the master's catalog to the slave: on a slave without the target database every policy of a
      selected database is there when the schema phase is over, under its new name, with the master's
      duration, replicas and shard duration. */
  lemma CatalogToSlave(cat: MasterCatalog, fs: Filters, newdb: string, newrp: string, s: Slave, k: nat)
    requires FullSchema(cat, fs).Some? && k < |FullSchema(cat, fs).value|
    requires var schema := Renamed(FullSchema(cat, fs).value, newdb, newrp);
             && (forall a, b :: 0 <= a < b < |schema| ==> schema[a].newName != schema[b].newName)
             && OwnPolicies(schema[k]) && schema[k].newName != INTERNAL && schema[k].newName !in s
    ensures var found := FullSchema(cat, fs).value[k];
            var slave := AfterSchema(s, Renamed(FullSchema(cat, fs).value, newdb, newrp));
            var db := RenamedDb(found.name, newdb);
            && found.name in cat.policies && db in slave
            && slave[db].def == (if newrp != "" then newrp else found.defRp)
            && forall p :: p in cat.policies[found.name] ==>
                 var rp := RenamedRp(p, found.defRp, newrp);
                 rp in slave[db].rps && slave[db].rps[rp].duration == p.settings.duration
                 && slave[db].rps[rp].replicas == p.settings.replicas && slave[db].rps[rp].shard == p.settings.shard
  {
    var found := FullSchema(cat, fs).value;
    var schema := Renamed(found, newdb, newrp);
    assert found[k] in found;
    FilteredPoliciesStay(cat, fs, found[k], 0);
    SchemaCopiesSettings(s, schema, k);
    SchemaDefaults(s, schema, k);
    RenamedTo(cat, fs, newdb, newrp, k, 0);
    var slave := AfterSchema(s, schema);
    var policies := cat.policies[found[k].name];
    hide AfterSchema, FullSchema, Renamed, OwnPolicies, HasDefault, DefaultSettings, TargetRp, RenamedRp;
    forall p | p in policies
      ensures var rp := RenamedRp(p, found[k].defRp, newrp);
              rp in slave[schema[k].newName].rps && slave[schema[k].newName].rps[rp] == p.settings
    {
      var i :| 0 <= i < |policies| && policies[i] == p;
      FilteredPoliciesStay(cat, fs, found[k], i);
      RenamedTo(cat, fs, newdb, newrp, k, i);
    }
  }

  /** The whole path: what GetSchema selects, renamed and replicated, is ready for the data phase
      exactly when -newdb is not "_internal", unless the slave has it or nothing was selected. */
  lemma SelectedSchemaIsReady(cat: MasterCatalog, fs: Filters, newdb: string, newrp: string, s: Slave)
    requires FullSchema(cat, fs).Some?
    ensures var schema := Renamed(FullSchema(cat, fs).value, newdb, newrp);
            Ready(AfterSchema(s, schema), schema) <==> INTERNAL in s || newdb != INTERNAL || schema == []
  {
    var found := FullSchema(cat, fs).value;
    var schema := Renamed(found, newdb, newrp);
    EntriesExact(cat, fs, cat.dbs);
    forall k | 0 <= k < |schema|
      ensures HasDefault(schema[k].rps, NoFilter) && (schema[k].newName == INTERNAL <==> newdb == INTERNAL)
    {
      assert found[k] in found;
      FilteredPoliciesStay(cat, fs, found[k], 0);
      var r :| r in found[k].rps && r.def;
      var j :| 0 <= j < |found[k].rps| && found[k].rps[j] == r;
      assert schema[k].rps[j].def;
    }
    SchemaFeedsData(s, schema);
  }
}
