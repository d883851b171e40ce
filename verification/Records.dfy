/** What a check records and what readers of the status then see, in every run. */
module Records {
  import opened Supervisor

  ghost predicate MasterRecorded(ha: ClusterFields, m: Probe) {
    ha.masterOK == m.ok && ha.masterLastOK == m.lastOK && ha.masterSince == m.since
  }

  ghost predicate SlaveRecorded(ha: ClusterFields, s: Probe) {
    ha.slaveOK == s.ok && ha.slaveLastOK == s.lastOK && ha.slaveSince == s.since
  }

  ghost predicate SameMaster(a: ClusterFields, b: ClusterFields) {
    a.masterOK == b.masterOK && a.masterLastOK == b.masterLastOK && a.masterSince == b.masterSince
  }

  ghost predicate SameSlave(a: ClusterFields, b: ClusterFields) {
    a.slaveOK == b.slaveOK && a.slaveLastOK == b.slaveLastOK && a.slaveSince == b.slaveSince
  }

  /** The slave was read up by an earlier check, and since then down. */
  ghost predicate Detected(sys: Sys) {
    LastUp(ActedOn(sys)).Some? && FirstDown(ActedOn(sys)).Some?
  }

  /** In every run a check that reads the slave up, or down for the first time since it was up, records
      both readings; one that reads it down again records the master's alone; and one that reads it
      down before it was ever read up records nothing. */
  lemma CheckRecords(start: Sys, ci: int, events: seq<Event>, t: int)
    requires Initial(start) && Run(start, ci, events).Some?
    requires Enabled(Run(start, ci, events).value, Commit(t))
    ensures var sys := Run(start, ci, events).value;
            var m, s, ha, ha' := sys.pc.m, sys.pc.s, sys.ha, Step(sys, ci, Commit(t)).ha;
            && ha'.recovers == ha.recovers && ha'.lastRecover == ha.lastRecover
            && (s.ok ==>
                  MasterRecorded(ha', m) && SlaveRecorded(ha', s)
                  && ha'.state == if Detected(sys) then Recovering else OK)
            && (!s.ok && LastUp(ActedOn(sys)).None? ==> ha' == ha)
            && (!s.ok && LastUp(ActedOn(sys)).Some? && !Detected(sys) ==>
                  MasterRecorded(ha', m) && SlaveRecorded(ha', s) && ha'.state == CheckSlaveDown)
            && (!s.ok && Detected(sys) ==>
                  MasterRecorded(ha', m) && SameSlave(ha', ha) && ha'.state == CheckSlaveDown)
  {
    InitialInv(start, ci);
    RunInv(start, ci, events);
    hide Run, LastUp, FirstDown, Frozen, LogInOrder, RoundRight, MonitorMatches, ReadMatches;
  }

  /** What a check has read is what the monitors last sampled: their verdict, their last good instant,
      and the time since. A sample changes its own monitor alone, and the last good instant only when
      it is good. */
  lemma ReadingsAreSamples(sys: Sys, ci: int, t: int, ok: bool)
    requires t >= sys.now
    ensures sys.pc.Idle? ==>
              Step(sys, ci, ReadMaster(t)).pc
              == HaveMaster(Probe(sys.master.statusOK, sys.master.lastOK, t - sys.master.lastOK))
    ensures sys.pc.HaveMaster? ==>
              Step(sys, ci, ReadSlave(t)).pc
              == HaveBoth(sys.pc.m, Probe(sys.slave.statusOK, sys.slave.lastOK, t - sys.slave.lastOK), |sys.log|)
    ensures var sys' := Step(sys, ci, SampleMaster(t, ok));
            && sys'.master == Monitor(ok, if ok then t else sys.master.lastOK)
            && sys'.slave == sys.slave && sys'.ha == sys.ha && sys'.pc == sys.pc
    ensures var sys' := Step(sys, ci, SampleSlave(t, ok));
            && sys'.slave == Monitor(ok, if ok then t else sys.slave.lastOK)
            && sys'.master == sys.master && sys'.ha == sys.ha && sys'.pc == sys.pc
  {
  }

  /** A recovery begins with the commit that starts it; its end sets the state, counts it, records how
      long it took, and changes nothing else. */
  lemma RecoveryRecords(sys: Sys, ci: int, t: int)
    requires t >= sys.now
    ensures sys.pc.HaveBoth? && Step(sys, ci, Commit(t)).pc.Busy? ==> Step(sys, ci, Commit(t)).pc == Busy(t)
    ensures sys.pc.Busy? ==>
              var ha' := Step(sys, ci, Finish(t)).ha;
              && ha'.state == OK && ha'.recovers == sys.ha.recovers + 1 && ha'.lastRecover == t - sys.pc.since
              && SameMaster(ha', sys.ha) && SameSlave(ha', sys.ha)
  {
  }

  /** The status shows the recorded fields, each under its own name. */
  lemma StatusShows(ha: ClusterFields, mid: string, sid: string)
    ensures var st := GetStatus(ha, mid, sid);
            && st.state == ha.state && st.mid == mid && st.sid == sid
            && st.masterOK == ha.masterOK && st.masterLastOK == ha.masterLastOK
            && st.slaveOK == ha.slaveOK && st.slaveLastOK == ha.slaveLastOK
            && st.recovers == ha.recovers && st.lastRecover == ha.lastRecover
  {
  }

  /** After a check that reads the slave up, the status shows what the monitors had last sampled of
      master and slave. */
  lemma StatusAfterCheck(start: Sys, ci: int, events: seq<Event>, t: int, mid: string, sid: string)
    requires Initial(start) && Run(start, ci, events).Some?
    requires Enabled(Run(start, ci, events).value, Commit(t)) && Run(start, ci, events).value.pc.s.ok
    ensures var sys := Run(start, ci, events).value;
            var st := GetStatus(Step(sys, ci, Commit(t)).ha, mid, sid);
            && (st.masterOK, st.masterLastOK) == (sys.pc.m.ok, sys.pc.m.lastOK)
            && (st.slaveOK, st.slaveLastOK) == (true, sys.pc.s.lastOK)
  {
    hide Run;
    CheckRecords(start, ci, events, t);
    StatusShows(Step(Run(start, ci, events).value, ci, Commit(t)).ha, mid, sid);
  }
}
