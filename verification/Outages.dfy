/** Which outages are answered by a recovery: those that began after the slave was once read up, each
    by one, when the check that reads it up again acts. */
module Outages {
  import opened Wrappers
  import opened Supervisor

  /** Entry i reads the slave up, and since it was last read up a reading had found it down. */
  ghost predicate EndsOutage(log: seq<Entry>, i: nat) {
    && i < |log| && log[i].ReadUp?
    && LastUp(log[..i]).Some? && FirstDown(log[..i]).Some?
  }

  ghost predicate AnsweredBy(rounds: seq<Round>, i: nat, k: nat) {
    k < |rounds| && rounds[k].read == i
  }

  /** Each round answers an outage, in order, and each outage acted on has its round; no reading
      waits behind the one not acted on yet. */
  ghost predicate RoundsMatch(sys: Sys) {
    var acted := ActedOn(sys);
    && (forall k :: 0 <= k < |sys.rounds| ==> EndsOutage(acted, sys.rounds[k].read))
    && (forall a, b :: 0 <= a < b < |sys.rounds| ==> sys.rounds[a].read < sys.rounds[b].read)
    && (forall i :: EndsOutage(acted, i) ==> exists k :: AnsweredBy(sys.rounds, i, k))
    && (sys.pc.HaveBoth? ==>
          sys.pc.read < |sys.log| && forall i :: sys.pc.read < i < |sys.log| ==> !sys.log[i].ReadUp?)
  }

  lemma EndsInPrefix(log: seq<Entry>, n: nat, i: nat)
    requires i < n <= |log|
    ensures EndsOutage(log, i) <==> EndsOutage(log[..n], i)
  {
    assert log[..n][..i] == log[..i];
  }

  /** A log grown by entries that read nothing up ends the same outages. */
  lemma SameOutages(sys: Sys, sys': Sys)
    requires RoundsMatch(sys) && sys'.rounds == sys.rounds
    requires ActedOn(sys) <= ActedOn(sys')
    requires forall i :: |ActedOn(sys)| <= i < |ActedOn(sys')| ==> !EndsOutage(ActedOn(sys'), i)
    requires sys'.pc.HaveBoth? ==>
      sys'.pc.read < |sys'.log| && forall i :: sys'.pc.read < i < |sys'.log| ==> !sys'.log[i].ReadUp?
    ensures RoundsMatch(sys')
  {
    hide LastUp, FirstDown;
    var acted, acted' := ActedOn(sys), ActedOn(sys');
    assert acted == acted'[..|acted|];
    forall i: nat | i < |acted| ensures EndsOutage(acted, i) <==> EndsOutage(acted', i) {
      EndsInPrefix(acted', |acted|, i);
    }
  }

  lemma CommitMatches(sys: Sys, ci: int, t: int)
    requires Inv(sys, ci) && RoundsMatch(sys) && t >= sys.now && sys.pc.HaveBoth?
    ensures RoundsMatch(Step(sys, ci, Commit(t)))
  {
    var sys' := Step(sys, ci, Commit(t));
    var read := sys.pc.read;
    hide LastUp, FirstDown, Frozen, LogInOrder, RoundRight, MonitorMatches;
    assert EndsOutage(sys.log, read) <==> sys'.pc.Busy?;
    forall i: nat | i < read ensures EndsOutage(sys.log[..read], i) <==> EndsOutage(sys.log, i) {
      EndsInPrefix(sys.log, read, i);
    }
    if sys'.pc.Busy? {
      var n := |sys.rounds|;
      assert AnsweredBy(sys'.rounds, read, n);
      forall i | EndsOutage(sys.log, i) ensures exists k :: AnsweredBy(sys'.rounds, i, k) {
        if i < read {
          var k :| AnsweredBy(sys.rounds, i, k);
          assert AnsweredBy(sys'.rounds, i, k);
        }
      }
    }
  }

  lemma StepMatches(sys: Sys, ci: int, e: Event)
    requires Inv(sys, ci) && RoundsMatch(sys) && Enabled(sys, e)
    ensures RoundsMatch(Step(sys, ci, e))
  {
    var sys' := Step(sys, ci, e);
    if e.Commit? {
      CommitMatches(sys, ci, e.at);
    } else {
      hide Inv, EndsOutage;
      assert ActedOn(sys) <= ActedOn(sys');
      forall i: nat | |ActedOn(sys)| <= i < |ActedOn(sys')| ensures !EndsOutage(ActedOn(sys'), i) {
        NotRead(ActedOn(sys'), i);
      }
      SameOutages(sys, sys');
    }
  }

  lemma NotRead(log: seq<Entry>, i: nat)
    requires i < |log| && !log[i].ReadUp?
    ensures !EndsOutage(log, i)
  {
  }

  lemma InitialMatches(sys: Sys)
    requires Initial(sys)
    ensures RoundsMatch(sys)
  {
    if sys.slave.statusOK {
      StartUpBefore(sys.slave.lastOK);
    }
  }

  lemma StartUpBefore(last: int)
    ensures LastUp([SampleOK(last)]) == None
  {
    Append([], SampleOK(last));
    assert [] + [SampleOK(last)] == [SampleOK(last)];
  }

  lemma {:induction false} RunMatches(sys: Sys, ci: int, events: seq<Event>)
    requires Inv(sys, ci) && RoundsMatch(sys)
    ensures Run(sys, ci, events).Some? ==> RoundsMatch(Run(sys, ci, events).value)
    decreases |events|
  {
    hide Inv, Step, Enabled, RoundsMatch;
    if events != [] && Enabled(sys, events[0]) {
      StepInv(sys, ci, events[0]);
      StepMatches(sys, ci, events[0]);
      RunMatches(Step(sys, ci, events[0]), ci, events[1..]);
    }
  }

  /** In every run the readings that end an outage, of those acted on, are exactly those answered
      by a recovery, and none is answered twice. */
  lemma OutagesAnswered(start: Sys, ci: int, events: seq<Event>, i: nat)
    requires Initial(start) && Run(start, ci, events).Some?
    ensures var sys := Run(start, ci, events).value;
            && (EndsOutage(ActedOn(sys), i) <==> exists k :: AnsweredBy(sys.rounds, i, k))
            && forall a, b :: AnsweredBy(sys.rounds, i, a) && AnsweredBy(sys.rounds, i, b) ==> a == b
  {
    InitialInv(start, ci);
    InitialMatches(start);
    RunMatches(start, ci, events);
  }

  /** Of the readings acted on that find the slave up after one had found it down, exactly those
      are answered before which it had once been read up. */
  lemma AnsweredIfSeenUp(start: Sys, ci: int, events: seq<Event>, i: nat)
    requires Initial(start) && Run(start, ci, events).Some?
    requires var log := ActedOn(Run(start, ci, events).value);
             i < |log| && log[i].ReadUp? && FirstDown(log[..i]).Some?
    ensures var sys := Run(start, ci, events).value;
            (exists k :: AnsweredBy(sys.rounds, i, k)) <==> LastUp(ActedOn(sys)[..i]).Some?
  {
    OutagesAnswered(start, ci, events, i);
  }

  /** Of the readings acted on that find the slave up when it had been read up before, exactly those
      are answered before which a reading had found it down. The samples that failed between two
      good readings, with no bad one in between, are answered by none. */
  lemma MissedAnswered(start: Sys, ci: int, events: seq<Event>, i: nat)
    requires Initial(start) && Run(start, ci, events).Some?
    requires var log := ActedOn(Run(start, ci, events).value);
             i < |log| && log[i].ReadUp? && LastUp(log[..i]).Some?
    ensures var sys := Run(start, ci, events).value;
            (exists k :: AnsweredBy(sys.rounds, i, k)) <==> FirstDown(ActedOn(sys)[..i]).Some?
  {
    OutagesAnswered(start, ci, events, i);
  }

  // ------------------------------------------------------------- runs that fall short

  /** The slave fails a sample and is well again before the next check: no recovery. */
  lemma BlipUnanswered(ci: int) returns (events: seq<Event>)
    ensures Initial(UP_AT_START) && Run(UP_AT_START, ci, events).Some?
    ensures var sys := Run(UP_AT_START, ci, events).value;
            && sys.pc == Idle && sys.rounds == [] && sys.ha.state == OK
            && sys.log == [SampleOK(0), ReadUp(1)] + [SampleFailed(10)] + [SampleOK(20)] + [ReadUp(22)]
            && 10 in Missed(sys.log[..4])
  {
    var e1, e2 := SampleSlave(10, false), SampleSlave(20, true);
    var s1 := Step(UP_AT_START, ci, e1);
    var s2 := Step(s1, ci, e2);
    var check := Check(21, []);
    events := [e1] + ([e2] + check);
    RunCons(UP_AT_START, ci, e1, [e2] + check);
    RunCons(s1, ci, e2, check);
    RunCheck(s2, ci, 21, []);
    var a: seq<Entry> := [SampleOK(0), ReadUp(1)];
    var b := a + [SampleFailed(10)];
    Append(a, SampleFailed(10));
    Append(b, SampleOK(20));
    assert 10 in Missed(b);
    assert AfterCheck(s2, ci, 21).log[..4] == b + [SampleOK(20)];
  }

  /** The slave is down when the supervisor starts. */
  const DOWN_AT_START := Sys(0, Monitor(true, 0), Monitor(false, -30), Idle,
    ClusterFields(OK, false, -30, 0, true, 0, 0, 0, 0), [ReadDown(0)], [])

  /** It fails one more sample, then is well and read up: no recovery, and the state was OK all the
      while. */
  lemma StartDownUnanswered(ci: int) returns (events: seq<Event>)
    ensures Initial(DOWN_AT_START) && Run(DOWN_AT_START, ci, events).Some?
    ensures var sys := Run(DOWN_AT_START, ci, events).value;
            && ActedOn(sys) == [ReadDown(0)] + [SampleFailed(10)] + [SampleOK(20)] + [ReadUp(31)]
            && sys.ha.state == OK && sys.ha.slaveOK
            && 10 in Missed(sys.log[..3]) && FirstDown(sys.log[..3]) == Some(0)
            && !exists k :: AnsweredBy(sys.rounds, 3, k)
  {
    var e1, e2 := SampleSlave(10, false), SampleSlave(20, true);
    var s1 := Step(DOWN_AT_START, ci, e1);
    var s2 := Step(s1, ci, e2);
    var check := Check(30, []);
    events := [e1] + ([e2] + check);
    RunCons(DOWN_AT_START, ci, e1, [e2] + check);
    RunCons(s1, ci, e2, check);
    RunCheck(s2, ci, 30, []);
    var log := [ReadDown(0)] + [SampleFailed(10)] + [SampleOK(20)];
    assert AfterCheck(s2, ci, 30).log[..3] == log;
    StartDownLog(0);
    Append([ReadDown(0)], SampleFailed(10));
    Append([ReadDown(0)] + [SampleFailed(10)], SampleOK(20));
  }

  /** A whole check: both readings and the commit, an instant apart. */
  function Check(t: int, rest: seq<Event>): seq<Event> {
    [ReadMaster(t)] + ([ReadSlave(t + 1)] + ([Commit(t + 2)] + rest))
  }

  function AfterCheck(sys: Sys, ci: int, t: int): Sys
    requires sys.pc.Idle? && sys.now <= t
  {
    Step(Step(Step(sys, ci, ReadMaster(t)), ci, ReadSlave(t + 1)), ci, Commit(t + 2))
  }

  lemma RunCheck(sys: Sys, ci: int, t: int, rest: seq<Event>)
    requires sys.pc.Idle? && sys.now <= t
    ensures Run(sys, ci, Check(t, rest)) == Run(AfterCheck(sys, ci, t), ci, rest)
  {
    hide Run;
    var s1 := Step(sys, ci, ReadMaster(t));
    var s2 := Step(s1, ci, ReadSlave(t + 1));
    RunCons(sys, ci, ReadMaster(t), [ReadSlave(t + 1)] + ([Commit(t + 2)] + rest));
    RunCons(s1, ci, ReadSlave(t + 1), [Commit(t + 2)] + rest);
    RunCons(s2, ci, Commit(t + 2), rest);
  }

  const UP_AT_START := Sys(1, Monitor(true, 0), Monitor(true, 0), Idle,
    ClusterFields(OK, true, 0, 0, true, 0, 0, 0, 0), [SampleOK(0), ReadUp(1)], [])

  /** The log when the recovery of a first outage begins, at 43. */
  const FIRST_OUTAGE := [SampleOK(0), ReadUp(1)] + [SampleFailed(10)] + [ReadDown(22)] + [SampleOK(30)] + [ReadUp(42)]

  const FIRST_ROUND := Round(Window(-20, 30), 5)

  lemma FirstOutage() returns (events: seq<Event>, sys: Sys)
    ensures Run(UP_AT_START, 20, events) == Some(sys)
    ensures sys.now == 43 && sys.pc == Busy(43) && sys.log == FIRST_OUTAGE && sys.rounds == [FIRST_ROUND]
    ensures sys.ha.state == Recovering && sys.ha.slaveOK && sys.slave == Monitor(true, 30)
  {
    hide Run;
    var e1, e3 := SampleSlave(10, false), SampleSlave(30, true);
    var s1 := Step(UP_AT_START, 20, e1);
    var s2 := AfterCheck(s1, 20, 21);
    var s3 := Step(s2, 20, e3);
    sys := AfterCheck(s3, 20, 41);
    var r2 := Check(41, []);
    var r1 := Check(21, [e3] + r2);
    events := [e1] + r1;
    RunCons(UP_AT_START, 20, e1, r1);
    RunCheck(s1, 20, 21, [e3] + r2);
    RunCons(s2, 20, e3, r2);
    RunCheck(s3, 20, 41, []);
    RunNone(sys, 20);
  }

  /** The recovery lasts until 100. While it runs the slave fails a sample, is well for one, and
      fails again; the next check comes after that. */
  lemma SecondOutage(sys: Sys) returns (events: seq<Event>, sys': Sys)
    requires sys.now == 43 && sys.pc == Busy(43) && sys.ha.state == Recovering && sys.ha.slaveOK
    ensures Run(sys, 20, events) == Some(sys')
    ensures sys'.now == 103 && sys'.pc == Idle && sys'.rounds == sys.rounds
    ensures sys'.log == sys.log + [SampleFailed(50)] + [SampleOK(80)] + [SampleFailed(90)] + [ReadDown(102)]
    ensures sys'.ha.state == CheckSlaveDown && !sys'.ha.slaveOK && sys'.ha.slaveLastOK == 80
  {
    hide Run;
    var e1, e2, e3 := SampleSlave(50, false), SampleSlave(80, true), SampleSlave(90, false);
    var s1 := Step(sys, 20, e1);
    var s2 := Step(s1, 20, e2);
    var s3 := Step(s2, 20, e3);
    var s4 := Step(s3, 20, Finish(100));
    sys' := AfterCheck(s4, 20, 101);
    var r4 := Check(101, []);
    var r3 := [Finish(100)] + r4;
    var r2 := [e3] + r3;
    var r1 := [e2] + r2;
    events := [e1] + r1;
    RunCons(sys, 20, e1, r1);
    RunCons(s1, 20, e2, r2);
    RunCons(s2, 20, e3, r3);
    RunCons(s3, 20, Finish(100), r4);
    RunCheck(s4, 20, 101, []);
    RunNone(sys', 20);
  }

  lemma SecondRound(sys: Sys) returns (events: seq<Event>, sys': Sys)
    requires sys.now == 103 && sys.pc == Idle && sys.ha.state == CheckSlaveDown && !sys.ha.slaveOK
    requires sys.ha.slaveLastOK == 80
    ensures Run(sys, 20, events) == Some(sys')
    ensures sys'.rounds == sys.rounds + [Round(Window(60, 110), |sys.log| + 1)]
    ensures sys'.log == sys.log + [SampleOK(110)] + [ReadUp(122)]
  {
    var e := SampleSlave(110, true);
    var s1 := Step(sys, 20, e);
    sys' := AfterCheck(s1, 20, 121);
    events := [e] + Check(121, []);
    RunCons(sys, 20, e, Check(121, []));
    RunCheck(s1, 20, 121, []);
  }

  /** With a check interval of 20 and samples apart: the recovery of a first outage takes 57, the
      slave fails a sample meanwhile, and the next recovery begins ten after that sample. */
  lemma LongRecoveryFallsShort() returns (events: seq<Event>, r: Round)
    ensures Initial(UP_AT_START) && Run(UP_AT_START, 20, events).Some?
    ensures var sys := Run(UP_AT_START, 20, events).value;
            && sys.rounds == [FIRST_ROUND, r] && r.window == Window(60, 110) && r.read <= |sys.log|
            && 50 in Missed(sys.log[..r.read])
  {
    hide Run, Step, Enabled;
    var e0, mid := FirstOutage();
    var e1, late := SecondOutage(mid);
    var e2, end := SecondRound(late);
    events := e0 + (e1 + e2);
    RunAppend(UP_AT_START, 20, e0, e1 + e2);
    RunAppend(mid, 20, e1, e2);
    r := end.rounds[1];
    var log := mid.log + [SampleFailed(50)] + [SampleOK(80)] + [SampleFailed(90)] + [ReadDown(102)] + [SampleOK(110)];
    assert end.log[..r.read] == log;
    MissedStays(mid.log);
  }

  lemma MissedStays(log: seq<Entry>)
    ensures var late := log + [SampleFailed(50)] + [SampleOK(80)] + [SampleFailed(90)] + [ReadDown(102)];
            50 in Missed(late + [SampleOK(110)])
  {
    var a := log + [SampleFailed(50)];
    var b := a + [SampleOK(80)];
    var c := b + [SampleFailed(90)];
    var d := c + [ReadDown(102)];
    Append(log, SampleFailed(50));
    Append(a, SampleOK(80));
    Append(b, SampleFailed(90));
    Append(c, ReadDown(102));
    Append(d, SampleOK(110));
    assert 50 in Missed(a) && 50 in Missed(b) && 50 in Missed(c) && 50 in Missed(d);
  }

  lemma RunNone(sys: Sys, ci: int)
    ensures Run(sys, ci, []) == Some(sys)
  {
  }

  lemma {:induction false} RunAppend(sys: Sys, ci: int, a: seq<Event>, b: seq<Event>)
    requires Run(sys, ci, a).Some?
    ensures Run(sys, ci, a + b) == Run(Run(sys, ci, a).value, ci, b)
    decreases |a|
  {
    hide Step, Enabled;
    if a == [] {
      assert a + b == b;
    } else {
      assert (a + b)[1..] == a[1..] + b;
      RunAppend(Step(sys, ci, a[0]), ci, a[1..], b);
    }
  }
}
