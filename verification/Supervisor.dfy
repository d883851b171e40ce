/** The health monitors and the supervisor, interleaved lock by lock. */
module Supervisor {
  import opened Wrappers

  datatype ClusterState = OK | CheckSlaveDown | Recovering

  /** What GetState returns: the last sample's verdict, the instant of the last good sample, and
      how long ago that was. */
  datatype Probe = Probe(ok: bool, lastOK: int, since: int)

  /** A monitor's sampled state. */
  datatype Monitor = Monitor(statusOK: bool, lastOK: int)

  function Sampled(m: Monitor, now: int, ok: bool): Monitor {
    if ok then Monitor(true, now) else m.(statusOK := false)
  }

  function Probed(m: Monitor, now: int): Probe {
    Probe(m.statusOK, m.lastOK, now - m.lastOK)
  }

  /** The fields of the cluster that the supervisor writes. */
  datatype ClusterFields = ClusterFields(
    state: ClusterState,
    slaveOK: bool, slaveLastOK: int, slaveSince: int,
    masterOK: bool, masterLastOK: int, masterSince: int,
    recovers: nat, lastRecover: int)

  /** GetStatus: a copy of the fields under the read lock, with the names of the two servers. */
  datatype Status = Status(
    state: ClusterState, mid: string, sid: string, recovers: nat, lastRecover: int,
    masterOK: bool, masterLastOK: int, slaveOK: bool, slaveLastOK: int)

  function GetStatus(c: ClusterFields, mid: string, sid: string): Status {
    Status(c.state, mid, sid, c.recovers, c.lastRecover, c.masterOK, c.masterLastOK, c.slaveOK, c.slaveLastOK)
  }

  /** The time range of a recovery. */
  datatype Window = Window(start: int, end: int)

  datatype Decision = Decision(cluster: ClusterFields, recover: Option<Window>)

  function WithMaster(c: ClusterFields, m: Probe): ClusterFields {
    c.(masterOK := m.ok, masterLastOK := m.lastOK, masterSince := m.since)
  }

  function WithSlave(c: ClusterFields, s: Probe): ClusterFields {
    c.(slaveOK := s.ok, slaveLastOK := s.lastOK, slaveSince := s.since)
  }

  /** checkCluster from the reading of both states to the end of its first locked section. */
  function Decide(c: ClusterFields, checkInterval: int, m: Probe, s: Probe): Decision {
    if c.slaveOK && !s.ok then
      Decision(WithSlave(WithMaster(c, m), s).(state := CheckSlaveDown), None)
    else if c.state == CheckSlaveDown && !s.ok then
      Decision(WithMaster(c, m), None)
    else if c.state == CheckSlaveDown && s.ok then
      Decision(WithSlave(WithMaster(c, m), s).(state := Recovering),
               Some(Window(c.slaveLastOK - checkInterval, s.lastOK)))
    else if c.state == Recovering then
      Decision(WithSlave(WithMaster(c, m), s), None)
    else if c.state == OK && s.ok then
      Decision(WithSlave(WithMaster(c, m), s), None)
    else
      Decision(c, None)
  }

  /** The locked section after a recovery. */
  function Recovered(c: ClusterFields, elapsed: int): ClusterFields {
    c.(state := OK, recovers := c.recovers + 1, lastRecover := elapsed)
  }

  // ------------------------------------------------------------------ the classes

  class InfluxMonitor {
    const name: string
    var statusOK: bool
    var lastOK: int
    var version: string
    var pingDuration: int

    constructor (name: string, never: int)
      ensures View() == Monitor(false, never) && this.name == name
      ensures !statusOK && lastOK == never
    {
      this.name := name;
      statusOK, lastOK, version, pingDuration := false, never, "", 0;
    }

    function View(): Monitor
      reads this
    {
      Monitor(statusOK, lastOK)
    }

    method SetStatError()
      modifies this
      ensures View() == old(View()).(statusOK := false)
      ensures !statusOK && lastOK == old(lastOK)
      ensures version == old(version) && pingDuration == old(pingDuration)
    {
      statusOK := false;
    }

    method SetStatOK(now: int, t: int, ver: string)
      modifies this
      ensures View() == Monitor(true, now) && version == ver && pingDuration == t
      ensures statusOK && lastOK == now
    {
      lastOK := now;
      statusOK := true;
      version := ver;
      pingDuration := t;
    }

    method GetState(now: int) returns (ok: bool, last: int, since: int)
      ensures Probe(ok, last, since) == Probed(View(), now)
      ensures ok == statusOK && last == lastOK && since == now - lastOK
    {
      return statusOK, lastOK, now - lastOK;
    }

    /** One sample; `ping` is the duration and version of a good ping. */
    method GetStat(now: int, ping: Option<(int, string)>)
      modifies this
      ensures View() == Sampled(old(View()), now, ping.Some?)
      ensures statusOK == ping.Some? && lastOK == if ping.Some? then now else old(lastOK)
      ensures (pingDuration, version) == if ping.Some? then ping.value else (old(pingDuration), old(version))
    {
      match ping
      case None => SetStatError();
      case Some(p) => SetStatOK(now, p.0, p.1);
    }
  }

  // ------------------------------------------------------------- the interleaving

  /** The supervisor's place: between checks, after reading the master, after reading the slave
      at entry `read` of the log, or recovering. */
  datatype Pc = Idle | HaveMaster(m: Probe) | HaveBoth(m: Probe, s: Probe, read: nat) | Busy(since: int)

  /** What happened to the slave's health, in order: samples of the monitor and readings of the
      supervisor. */
  datatype Entry = SampleOK(at: int) | SampleFailed(at: int) | ReadUp(at: int) | ReadDown(at: int)

  /** A recovery: its range and the log entry of the reading that saw the slave up again. */
  datatype Round = Round(window: Window, read: nat)

  datatype Sys = Sys(
    now: int, master: Monitor, slave: Monitor, pc: Pc, ha: ClusterFields,
    log: seq<Entry>, rounds: seq<Round>)

  datatype Event =
    | SampleMaster(at: int, ok: bool)
    | SampleSlave(at: int, ok: bool)
    | ReadMaster(at: int)
    | ReadSlave(at: int)
    | Commit(at: int)
    | Finish(at: int)

  predicate Enabled(sys: Sys, e: Event) {
    && e.at >= sys.now
    && match e
       case SampleMaster(_, _) => true
       case SampleSlave(_, _) => true
       case ReadMaster(_) => sys.pc.Idle?
       case ReadSlave(_) => sys.pc.HaveMaster?
       case Commit(_) => sys.pc.HaveBoth?
       case Finish(_) => sys.pc.Busy?
  }

  function Step(sys: Sys, ci: int, e: Event): Sys
    requires Enabled(sys, e)
  {
    match e
    case SampleMaster(t, ok) => sys.(now := t, master := Sampled(sys.master, t, ok))
    case SampleSlave(t, ok) =>
      sys.(now := t, slave := Sampled(sys.slave, t, ok),
           log := sys.log + [if ok then SampleOK(t) else SampleFailed(t)])
    case ReadMaster(t) => sys.(now := t, pc := HaveMaster(Probed(sys.master, t)))
    case ReadSlave(t) =>
      var s := Probed(sys.slave, t);
      sys.(now := t, pc := HaveBoth(sys.pc.m, s, |sys.log|),
           log := sys.log + [if s.ok then ReadUp(t) else ReadDown(t)])
    case Commit(t) =>
      var d := Decide(sys.ha, ci, sys.pc.m, sys.pc.s);
      var sys' := sys.(now := t, ha := d.cluster);
      if d.recover.Some? then
        sys'.(pc := Busy(t), rounds := sys.rounds + [Round(d.recover.value, sys.pc.read)])
      else sys'.(pc := Idle)
    case Finish(t) => sys.(now := t, pc := Idle, ha := Recovered(sys.ha, t - sys.pc.since))
  }

  /** startSupervisorGo: the first reading of both states, taken as they are. */
  predicate Initial(sys: Sys) {
    && sys.pc == Idle && sys.rounds == [] && sys.ha.recovers == 0
    && sys.ha.state == OK
    && sys.slave.lastOK <= sys.now
    && sys.ha.slaveOK == sys.slave.statusOK && sys.ha.slaveLastOK == sys.slave.lastOK
    && sys.log == if sys.slave.statusOK then [SampleOK(sys.slave.lastOK), ReadUp(sys.now)]
                  else [ReadDown(sys.now)]
  }

  /** The system after the events, if each was enabled in its turn. */
  function Run(sys: Sys, ci: int, events: seq<Event>): Option<Sys>
    decreases |events|
  {
    if events == [] then Some(sys)
    else if !Enabled(sys, events[0]) then None
    else Run(Step(sys, ci, events[0]), ci, events[1..])
  }

  // ------------------------------------------------------------ reading the log

  function Init(log: seq<Entry>): seq<Entry>
    requires log != []
  {
    log[..|log| - 1]
  }

  function Last(log: seq<Entry>): Entry
    requires log != []
  {
    log[|log| - 1]
  }

  /** The instant of the last reading that saw the slave up, if there was one. */
  function LastUp(log: seq<Entry>): Option<int> {
    if log == [] then None
    else match Last(log)
      case ReadUp(t) => Some(t)
      case _ => LastUp(Init(log))
  }

  /** The first reading since then that saw it down. */
  function FirstDown(log: seq<Entry>): Option<int> {
    if log == [] then None
    else match Last(log)
      case ReadUp(_) => None
      case ReadDown(t) => if FirstDown(Init(log)).Some? then FirstDown(Init(log)) else Some(t)
      case _ => FirstDown(Init(log))
  }

  /** The failed samples since the last reading that saw the slave up. */
  function Missed(log: seq<Entry>): set<int> {
    if log == [] then {}
    else match Last(log)
      case ReadUp(_) => {}
      case SampleFailed(t) => Missed(Init(log)) + {t}
      case _ => Missed(Init(log))
  }

  /** The last good sample. */
  function LastGood(log: seq<Entry>): Option<int> {
    if log == [] then None
    else match Last(log)
      case SampleOK(t) => Some(t)
      case _ => LastGood(Init(log))
  }

  /** The last good sample before that first bad reading. */
  function Frozen(log: seq<Entry>): Option<int> {
    if log == [] then None
    else match Last(log)
      case ReadUp(_) => None
      case ReadDown(_) => if FirstDown(Init(log)).Some? then Frozen(Init(log)) else LastGood(Init(log))
      case _ => Frozen(Init(log))
  }

  /** The last reading of either kind. */
  function LastRead(log: seq<Entry>): Option<int> {
    if log == [] then None
    else match Last(log)
      case ReadUp(t) => Some(t)
      case ReadDown(t) => Some(t)
      case _ => LastRead(Init(log))
  }

  lemma Append(log: seq<Entry>, e: Entry)
    ensures Init(log + [e]) == log && Last(log + [e]) == e
  {
  }

  /** The outage was first read within the check interval of the last good reading. */
  ghost predicate NoticedInTime(log: seq<Entry>, ci: int) {
    LastUp(log).Some? && FirstDown(log).Some? && FirstDown(log).value - LastUp(log).value <= ci
  }

  ghost predicate Covers(w: Window, missed: set<int>) {
    forall t :: t in missed ==> w.start <= t <= w.end
  }

  // --------------------------------------------------------------- the invariant

  /** Instants in the log are ordered as its entries are. */
  ghost predicate LogInOrder(log: seq<Entry>, now: int) {
    && (LastGood(log).Some? ==> LastGood(log).value <= now)
    && (LastUp(log).Some? ==> LastUp(log).value <= now && LastGood(log).Some?)
    && (FirstDown(log).Some? ==> FirstDown(log).value <= now)
    && (FirstDown(log).Some? && LastUp(log).Some? ==> Frozen(log).Some?)
    && (Frozen(log).Some? ==> LastGood(log).Some? && Frozen(log).value <= LastGood(log).value)
    && (FirstDown(log).Some? && Frozen(log).Some? ==> Frozen(log).value <= FirstDown(log).value)
    && (forall t :: t in Missed(log) ==> t <= now && (LastUp(log).Some? ==> LastUp(log).value <= t))
  }

  /** The monitor holds the last good sample; while it is good no failed sample is later. */
  ghost predicate MonitorMatches(sys: Sys) {
    && sys.slave.lastOK <= sys.now
    && (LastGood(sys.log).Some? ==> LastGood(sys.log).value == sys.slave.lastOK)
    && (sys.slave.statusOK ==> LastGood(sys.log).Some? && forall t :: t in Missed(sys.log) ==> t <= sys.slave.lastOK)
  }

  /** The log without a reading that no check has acted on yet. */
  function ActedOn(sys: Sys): seq<Entry> {
    if sys.pc.HaveBoth? && sys.pc.read < |sys.log| then sys.log[..sys.pc.read] else sys.log
  }

  /** The cluster fields follow from the part of the log acted on. */
  ghost predicate FieldsMatch(ha: ClusterFields, busy: bool, log: seq<Entry>) {
    && (ha.slaveOK <==> LastUp(log).Some? && FirstDown(log).None?)
    && (ha.state == CheckSlaveDown <==> LastUp(log).Some? && FirstDown(log).Some?)
    && (ha.state == CheckSlaveDown && Frozen(log).Some? ==> ha.slaveLastOK == Frozen(log).value)
    && (ha.state == Recovering <==> busy)
    && (busy ==> ha.slaveOK)
  }

  /** A reading not acted on yet, and the samples after it. */
  ghost predicate ReadMatches(s: Probe, read: nat, log: seq<Entry>) {
    && read < |log|
    && LogInOrder(log[..read], log[read].at)
    && (LastGood(log[..read]).Some? ==> LastGood(log[..read]).value == s.lastOK)
    && var pre := log[..read];
       if s.ok then
         && log[read].ReadUp? && LastGood(pre).Some?
         && LastUp(log).Some? && FirstDown(log).None?
         && (forall t :: t in Missed(pre) ==> t <= s.lastOK)
       else
         && log[read].ReadDown?
         && LastUp(log) == LastUp(pre) && FirstDown(log).Some?
         && Frozen(log) == (if FirstDown(pre).Some? then Frozen(pre) else LastGood(pre))
  }

  /** A recovery answers an outage: it starts one check interval before the last good sample that
      preceded the first bad reading, and ends at the last good sample, past every failed one. */
  ghost predicate RoundRight(log: seq<Entry>, ci: int, r: Round) {
    && r.read < |log| && log[r.read].ReadUp?
    && var pre := log[..r.read];
       && LogInOrder(pre, log[r.read].at)
       && LastUp(pre).Some? && FirstDown(pre).Some? && Frozen(pre).Some?
       && r.window == Window(Frozen(pre).value - ci, LastGood(pre).value)
       && forall t :: t in Missed(pre) ==> t <= r.window.end
  }

  ghost predicate Inv(sys: Sys, ci: int) {
    && LogInOrder(sys.log, sys.now)
    && MonitorMatches(sys)
    && FieldsMatch(sys.ha, sys.pc.Busy?, ActedOn(sys))
    && (sys.pc.HaveBoth? ==> ReadMatches(sys.pc.s, sys.pc.read, sys.log))
    && (forall k :: 0 <= k < |sys.rounds| ==> RoundRight(sys.log, ci, sys.rounds[k]))
    && sys.ha.recovers + (if sys.pc.Busy? then 1 else 0) == |sys.rounds|
  }

  lemma StartDownLog(now: int)
    ensures var log := [ReadDown(now)];
            && LastUp(log) == None && FirstDown(log) == Some(now) && Missed(log) == {}
            && LastGood(log) == None && Frozen(log) == None
  {
    Append([], ReadDown(now));
    assert [] + [ReadDown(now)] == [ReadDown(now)];
  }

  lemma StartUpLog(last: int, now: int)
    ensures var log := [SampleOK(last), ReadUp(now)];
            && LastUp(log) == Some(now) && FirstDown(log) == None && Missed(log) == {}
            && LastGood(log) == Some(last) && Frozen(log) == None
  {
    var a: seq<Entry> := [SampleOK(last)];
    Append([], SampleOK(last));
    assert [] + a == a;
    Append(a, ReadUp(now));
    assert a + [ReadUp(now)] == [SampleOK(last), ReadUp(now)];
  }

  lemma InitialInv(sys: Sys, ci: int)
    requires Initial(sys)
    ensures Inv(sys, ci)
  {
    hide LastUp, FirstDown, Missed, LastGood, Frozen;
    if sys.slave.statusOK {
      StartUpLog(sys.slave.lastOK, sys.now);
    } else {
      StartDownLog(sys.now);
    }
  }

  /** Entries are only added: what was right of a prefix stays right. */
  lemma RoundsStay(log: seq<Entry>, e: Entry, ci: int, r: Round)
    requires RoundRight(log, ci, r)
    ensures RoundRight(log + [e], ci, r)
  {
    assert (log + [e])[..r.read] == log[..r.read];
  }

  lemma AppendInOrder(log: seq<Entry>, e: Entry, now: int)
    requires LogInOrder(log, now) && now <= e.at
    requires e.ReadUp? ==> LastGood(log).Some?
    ensures LogInOrder(log + [e], e.at)
  {
    Append(log, e);
  }

  lemma LaterInOrder(log: seq<Entry>, now: int, later: int)
    requires LogInOrder(log, now) && now <= later
    ensures LogInOrder(log, later)
  {
  }

  lemma SampleSlaveInv(sys: Sys, ci: int, t: int, ok: bool)
    requires Inv(sys, ci) && t >= sys.now
    ensures Inv(Step(sys, ci, SampleSlave(t, ok)), ci)
  {
    hide RoundRight, LogInOrder;
    var e := if ok then SampleOK(t) else SampleFailed(t);
    var sys' := Step(sys, ci, SampleSlave(t, ok));
    AppendInOrder(sys.log, e, sys.now);
    Append(sys.log, e);
    forall k | 0 <= k < |sys.rounds| ensures RoundRight(sys'.log, ci, sys.rounds[k]) {
      RoundsStay(sys.log, e, ci, sys.rounds[k]);
    }
    if sys.pc.HaveBoth? {
      assert sys'.log[..sys.pc.read] == sys.log[..sys.pc.read];
    }
    assert MonitorMatches(sys') by {
      MissedBefore(sys.log, sys.now);
    }
  }

  lemma MissedBefore(log: seq<Entry>, now: int)
    requires LogInOrder(log, now)
    ensures forall t :: t in Missed(log) ==> t <= now
  {
  }

  lemma ReadSlaveInv(sys: Sys, ci: int, t: int)
    requires Inv(sys, ci) && t >= sys.now && sys.pc.HaveMaster?
    ensures Inv(Step(sys, ci, ReadSlave(t)), ci)
  {
    hide RoundRight;
    var s := Probed(sys.slave, t);
    var e := if s.ok then ReadUp(t) else ReadDown(t);
    var sys' := Step(sys, ci, ReadSlave(t));
    AppendInOrder(sys.log, e, sys.now);
    LaterInOrder(sys.log, sys.now, t);
    Append(sys.log, e);
    forall k | 0 <= k < |sys.rounds| ensures RoundRight(sys'.log, ci, sys.rounds[k]) {
      RoundsStay(sys.log, e, ci, sys.rounds[k]);
    }
    assert sys'.log[..|sys.log|] == sys.log;
  }

  lemma CommitInv(sys: Sys, ci: int, t: int)
    requires Inv(sys, ci) && t >= sys.now && sys.pc.HaveBoth?
    ensures Inv(Step(sys, ci, Commit(t)), ci)
  {
    LaterInOrder(sys.log, sys.now, t);
    var sys' := Step(sys, ci, Commit(t));
    var pre := sys.log[..sys.pc.read];
    assert sys'.log == sys.log;
    assert FieldsMatch(sys'.ha, sys'.pc.Busy?, sys.log);
    if sys'.pc.Busy? {
      assert RoundRight(sys.log, ci, sys'.rounds[|sys.rounds|]);
    }
  }

  /** Every event keeps the invariant, whatever its instant and outcome. */
  lemma StepInv(sys: Sys, ci: int, e: Event)
    requires Inv(sys, ci) && Enabled(sys, e)
    ensures Inv(Step(sys, ci, e), ci)
  {
    match e
    case SampleMaster(t, _) => LaterInOrder(sys.log, sys.now, t);
    case SampleSlave(t, ok) => SampleSlaveInv(sys, ci, t, ok);
    case ReadMaster(t) => LaterInOrder(sys.log, sys.now, t);
    case ReadSlave(t) => ReadSlaveInv(sys, ci, t);
    case Commit(t) => CommitInv(sys, ci, t);
    case Finish(t) => LaterInOrder(sys.log, sys.now, t);
  }

  lemma {:induction false} RunInv(sys: Sys, ci: int, events: seq<Event>)
    requires Inv(sys, ci)
    ensures Run(sys, ci, events).Some? ==> Inv(Run(sys, ci, events).value, ci)
    decreases |events|
  {
    hide Inv, Step, Enabled;
    if events != [] && Enabled(sys, events[0]) {
      StepInv(sys, ci, events[0]);
      RunInv(Step(sys, ci, events[0]), ci, events[1..]);
    }
  }

  // ------------------------------------------------------------- the main results

  /** What every run keeps. RECOVERING means the slave was seen up, CHECK_SLAVE_DOWN that it was
      not; OK with a slave that is not up is there exactly until a check has first seen it up; no
      check begins or reads while RECOVERING; the counter counts the recoveries that are over. */
  ghost predicate Sound(sys: Sys) {
    && (sys.ha.state == CheckSlaveDown ==> !sys.ha.slaveOK)
    && (sys.ha.state == Recovering ==> sys.ha.slaveOK)
    && (sys.ha.state == Recovering <==> sys.pc.Busy?)
    && (sys.ha.state == OK && !sys.ha.slaveOK <==> LastUp(ActedOn(sys)).None?)
    && sys.ha.recovers == |sys.rounds| - (if sys.ha.state == Recovering then 1 else 0)
  }

  lemma SupervisorSound(start: Sys, ci: int, events: seq<Event>)
    requires Initial(start) && Run(start, ci, events).Some?
    ensures Sound(Run(start, ci, events).value)
  {
    InitialInv(start, ci);
    RunInv(start, ci, events);
  }

  /** OK -> CHECK_SLAVE_DOWN -> RECOVERING -> OK is the only way round, and the counter moves with
      the last step of it. */
  ghost predicate OnCycle(a: Status, b: Status) {
    || (a.state == b.state && a.recovers == b.recovers)
    || (a.state == OK && b.state == CheckSlaveDown && a.recovers == b.recovers)
    || (a.state == CheckSlaveDown && b.state == Recovering && a.recovers == b.recovers)
    || (a.state == Recovering && b.state == OK && b.recovers == a.recovers + 1)
  }

  lemma StatusCycle(start: Sys, ci: int, events: seq<Event>, e: Event, mid: string, sid: string)
    requires Initial(start) && Run(start, ci, events).Some?
    requires Enabled(Run(start, ci, events).value, e)
    ensures var sys := Run(start, ci, events).value;
            OnCycle(GetStatus(sys.ha, mid, sid), GetStatus(Step(sys, ci, e).ha, mid, sid))
  {
    SupervisorSound(start, ci, events);
    InitialInv(start, ci);
    RunInv(start, ci, events);
  }

  /** Outage coverage: in every run, the range of each recovery whose outage was noticed within
      the check interval contains every failed sample since the slave was last read up. */
  lemma OutageCovered(start: Sys, ci: int, events: seq<Event>, r: Round)
    requires Initial(start) && Run(start, ci, events).Some?
    requires r in Run(start, ci, events).value.rounds
    ensures var log := Run(start, ci, events).value.log;
            && r.read < |log| && log[r.read].ReadUp?
            && var pre := log[..r.read];
               && LastUp(pre).Some? && FirstDown(pre).Some? && Frozen(pre).Some? && LastGood(pre).Some?
               && r.window == Window(Frozen(pre).value - ci, LastGood(pre).value)
               && Frozen(pre).value <= LastGood(pre).value
               && (NoticedInTime(pre, ci) ==> Covers(r.window, Missed(pre)))
  {
    InitialInv(start, ci);
    RunInv(start, ci, events);
    var sys := Run(start, ci, events).value;
    var k :| 0 <= k < |sys.rounds| && sys.rounds[k] == r;
    assert RoundRight(sys.log, ci, sys.rounds[k]);
  }

  /** Readings at most ci apart. */
  predicate Spaced(log: seq<Entry>, ci: int) {
    log == [] ||
    (Spaced(Init(log), ci) &&
     match Last(log)
     case ReadUp(t) => LastRead(Init(log)).Some? ==> t - LastRead(Init(log)).value <= ci
     case ReadDown(t) => LastRead(Init(log)).Some? ==> t - LastRead(Init(log)).value <= ci
     case _ => true)
  }

  /** If the supervisor reads the slave at least once a check interval, outages are noticed in
      time. */
  lemma {:induction false} SpacedNotices(log: seq<Entry>, ci: int)
    requires Spaced(log, ci)
    ensures LastUp(log).Some? && FirstDown(log).Some? ==> NoticedInTime(log, ci)
    ensures LastUp(log).Some? && FirstDown(log).None? ==> LastRead(log) == LastUp(log)
  {
    if log != [] {
      SpacedNotices(Init(log), ci);
    }
  }

  lemma {:induction false} SpacedPrefix(log: seq<Entry>, ci: int, n: nat)
    requires Spaced(log, ci) && n <= |log|
    ensures Spaced(log[..n], ci)
    decreases |log|
  {
    if n < |log| {
      assert Init(log)[..n] == log[..n];
      SpacedPrefix(Init(log), ci, n);
    } else {
      assert log[..n] == log;
    }
  }

  /** Over a whole run whose readings are at most a check interval apart, every recovery covers
      the outage it answers. */
  lemma SpacedRunCovered(start: Sys, ci: int, events: seq<Event>, r: Round)
    requires Initial(start) && Run(start, ci, events).Some?
    requires Spaced(Run(start, ci, events).value.log, ci)
    requires r in Run(start, ci, events).value.rounds
    ensures var log := Run(start, ci, events).value.log;
            r.read < |log| && Covers(r.window, Missed(log[..r.read]))
  {
    OutageCovered(start, ci, events, r);
    var log := Run(start, ci, events).value.log;
    SpacedPrefix(log, ci, r.read);
    SpacedNotices(log[..r.read], ci);
  }

  // ------------------------------------------- how late is too late, exactly

  /** Round r of sys answers an outage last read up at `up` and first read down at `down`. */
  ghost predicate Answers(sys: Sys, r: Round, up: int, down: int) {
    && r in sys.rounds && r.read <= |sys.log|
    && LastUp(sys.log[..r.read]) == Some(up) && FirstDown(sys.log[..r.read]) == Some(down)
  }

  ghost predicate RoundCovers(sys: Sys, r: Round) {
    r.read <= |sys.log| && Covers(r.window, Missed(sys.log[..r.read]))
  }

  /** In every run, the recovery that answers such an outage covers it. */
  ghost predicate AlwaysCovered(ci: int, up: int, down: int) {
    forall start: Sys, events: seq<Event>, r: Round ::
      Initial(start) && Run(start, ci, events).Some? && Answers(Run(start, ci, events).value, r, up, down)
      ==> RoundCovers(Run(start, ci, events).value, r)
  }

  lemma RunCons(sys: Sys, ci: int, e: Event, rest: seq<Event>)
    requires Enabled(sys, e)
    ensures Run(sys, ci, [e] + rest) == Run(Step(sys, ci, e), ci, rest)
  {
    assert ([e] + rest)[1..] == rest;
  }

  /** The slave is up at `up`, fails a sample, is well for one at `down`, and then fails again. */
  function BlinkLog(up: int, down: int): seq<Entry> {
    [SampleOK(up), ReadUp(up)] + [SampleFailed(up)] + [SampleOK(down)] + [SampleFailed(down)]
    + [ReadDown(down)] + [SampleOK(down)]
  }

  lemma BlinkLogMeans(up: int, down: int)
    ensures var log := BlinkLog(up, down);
            LastUp(log) == Some(up) && FirstDown(log) == Some(down) && up in Missed(log)
  {
    var a: seq<Entry> := [SampleOK(up), ReadUp(up)];
    var b := a + [SampleFailed(up)];
    var c := b + [SampleOK(down)];
    var d := c + [SampleFailed(down)];
    var e := d + [ReadDown(down)];
    Append(a, SampleFailed(up));
    Append(b, SampleOK(down));
    Append(c, SampleFailed(down));
    Append(d, ReadDown(down));
    Append(e, SampleOK(down));
    assert FirstDown(b) == None && FirstDown(c) == None && FirstDown(d) == None;
    assert up in Missed(b) && up in Missed(c) && up in Missed(d) && up in Missed(e);
    assert LastUp(b) == Some(up) && LastUp(c) == Some(up) && LastUp(d) == Some(up) && LastUp(e) == Some(up);
  }

  function BlinkStart(up: int): Sys {
    Sys(up, Monitor(true, up), Monitor(true, up), Idle,
        ClusterFields(OK, true, up, 0, true, up, 0, 0, 0), [SampleOK(up), ReadUp(up)], [])
  }

  /** The system when a check has seen the slave down. */
  function BlinkMid(up: int, down: int): Sys {
    Sys(down, Monitor(true, up), Monitor(false, down), Idle,
        ClusterFields(CheckSlaveDown, false, down, 0, true, up, down - up, 0, 0),
        [SampleOK(up), ReadUp(up)] + [SampleFailed(up)] + [SampleOK(down)] + [SampleFailed(down)] + [ReadDown(down)],
        [])
  }

  lemma BlinkDown(ci: int, up: int, down: int, rest: seq<Event>) returns (events: seq<Event>)
    requires up <= down
    ensures Run(BlinkStart(up), ci, events) == Run(BlinkMid(up, down), ci, rest)
  {
    var s0 := BlinkStart(up);
    var e1, e2, e3 := SampleSlave(up, false), SampleSlave(down, true), SampleSlave(down, false);
    var s1 := Step(s0, ci, e1);
    var s2 := Step(s1, ci, e2);
    var s3 := Step(s2, ci, e3);
    var s4 := Step(s3, ci, ReadMaster(down));
    var s5 := Step(s4, ci, ReadSlave(down));
    assert Step(s5, ci, Commit(down)) == BlinkMid(up, down);
    var r5 := [Commit(down)] + rest;
    var r4 := [ReadSlave(down)] + r5;
    var r3 := [ReadMaster(down)] + r4;
    var r2 := [e3] + r3;
    var r1 := [e2] + r2;
    events := [e1] + r1;
    RunCons(s0, ci, e1, r1);
    RunCons(s1, ci, e2, r2);
    RunCons(s2, ci, e3, r3);
    RunCons(s3, ci, ReadMaster(down), r4);
    RunCons(s4, ci, ReadSlave(down), r5);
    RunCons(s5, ci, Commit(down), rest);
  }

  /** From there the slave is sampled well and the next check starts the recovery. */
  lemma BlinkUp(ci: int, down: int, sys: Sys) returns (events: seq<Event>, end: Sys)
    requires sys.now == down && sys.pc == Idle && sys.rounds == []
    requires sys.ha.state == CheckSlaveDown && !sys.ha.slaveOK && sys.ha.slaveLastOK == down
    ensures Run(sys, ci, events) == Some(end)
    ensures end.rounds == [Round(Window(down - ci, down), |sys.log| + 1)]
    ensures end.log == sys.log + [SampleOK(down)] + [ReadUp(down)]
  {
    var e1 := SampleSlave(down, true);
    var s1 := Step(sys, ci, e1);
    var s2 := Step(s1, ci, ReadMaster(down));
    var s3 := Step(s2, ci, ReadSlave(down));
    end := Step(s3, ci, Commit(down));
    var r3: seq<Event> := [Commit(down)] + [];
    var r2 := [ReadSlave(down)] + r3;
    var r1 := [ReadMaster(down)] + r2;
    events := [e1] + r1;
    RunCons(sys, ci, e1, r1);
    RunCons(s1, ci, ReadMaster(down), r2);
    RunCons(s2, ci, ReadSlave(down), r3);
    RunCons(s3, ci, Commit(down), []);
  }

  lemma BlinkUncovered(ci: int, up: int, down: int)
    requires up <= down && ci < down - up
    ensures !AlwaysCovered(ci, up, down)
  {
    hide Run, Step, Enabled, LastUp, FirstDown, Missed;
    var mid := BlinkMid(up, down);
    var back, end := BlinkUp(ci, down, mid);
    var events := BlinkDown(ci, up, down, back);
    BlinkLogMeans(up, down);
    var r := end.rounds[0];
    assert end.log[..r.read] == BlinkLog(up, down);
    assert !RoundCovers(end, r);
    assert Initial(BlinkStart(up));
  }

  /** Coverage of an outage is assured in every run exactly when the reading that notices it comes
      within a check interval of the last reading that saw the slave up. A recovery that runs
      longer than the interval delays the next reading, so an outage that begins during it may be
      recovered in part only. */
  lemma CoverageExact(ci: int, up: int, down: int)
    requires up <= down
    ensures AlwaysCovered(ci, up, down) <==> down - up <= ci
  {
    hide Run;
    if down - up <= ci {
      forall start: Sys, events: seq<Event>, r: Round |
        Initial(start) && Run(start, ci, events).Some? && Answers(Run(start, ci, events).value, r, up, down)
        ensures RoundCovers(Run(start, ci, events).value, r)
      {
        OutageCovered(start, ci, events, r);
      }
    } else {
      BlinkUncovered(ci, up, down);
    }
  }
}
