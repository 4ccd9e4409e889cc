/** Whole runs of the port system: the promises libata's own WARN_ONs and comments make. */
module PortRuns {
  import opened Ata
  import opened PortModel
  import opened PortInvariant
  import opened PortPreserve
  import opened PortIssue
  import opened PortRecovery
  import opened PortSystem

  /** A port as ata_host_add leaves it: nothing allocated, nothing in flight, frozen or not. */
  ghost predicate Init(s: Sys) {
    && s.pc == Off && |s.p.qcmd| == ATA_MAX_QUEUE
    && (forall i: nat :: i < ATA_MAX_QUEUE ==> !s.p.qcmd[i].active && !s.p.qcmd[i].failed)
    && s.p.tags == {} && s.p.regs == IDLE_REGS && s.p.life == [] && !s.p.warned
    && s.p.mid == Mid([], [], [], 0)
  }

  ghost predicate IsRun(run: seq<Sys>, steps: seq<Step>) {
    && |run| == |steps| + 1 && Init(run[0])
    && forall k: nat :: k < |steps| ==> Enabled(run[k], steps[k]) && run[k + 1] == Next(run[k], steps[k])
  }

  lemma InitKeeps(s: Sys)
    requires Init(s)
    ensures SysInv(s)
  {
  }

  lemma {:induction false} RunKeeps(run: seq<Sys>, steps: seq<Step>, k: nat)
    requires IsRun(run, steps) && k < |run|
    ensures SysInv(run[k])
  {
    if k == 0 {
      InitKeeps(run[0]);
    } else {
      hide SysInv, Next, Enabled, Init;
      RunKeeps(run, steps, k - 1);
      StepKeeps(run[k - 1], steps[k - 1]);
    }
  }

  /** No WARN_ON and no BUG of the command engine fires in any run. */
  lemma NeverWarns(run: seq<Sys>, steps: seq<Step>, k: nat)
    requires IsRun(run, steps) && k < |run|
    ensures !run[k].p.warned
  {
    RunKeeps(run, steps, k);
    SysInvInv(run[k]);
  }

  /** A frozen port is quiescent: no qc can be found from its tag, so nothing completes, and no tag
      is handed out. */
  lemma FrozenIsQuiescent(run: seq<Sys>, steps: seq<Step>, k: nat)
    requires IsRun(run, steps) && k < |run| && run[k].p.frozen
    ensures forall t: nat :: !FromTag(run[k].p, t)
    ensures QcNewTag(run[k].p) == None
    ensures forall active, tf :: Sane(run[k].p) ==> CompleteMultiple(run[k].p, active, tf).0 == run[k].p
  {
    RunKeeps(run, steps, k);
    SysInvInv(run[k]);
    var p := run[k].p;
    SysInvSane(run[k]);
    forall active: set<nat>, tf: ResultTf ensures CompleteMultiple(p, active, tf).0 == p {
      QuietTags(p, (p.regs.qcActive - active) + (active - p.regs.qcActive), ATA_MAX_QUEUE, tf);
    }
  }

  lemma {:induction false} QuietTags(p: Port, done: set<nat>, n: nat, tf: ResultTf)
    requires WellFormed(p) && ActiveOwned(p) && n <= ATA_MAX_QUEUE && forall t: nat :: !FromTag(p, t)
    ensures CompleteTags(p, done, n, tf) == p
  {
    if n > 0 { QuietTags(p, done, n - 1, tf); }
  }

  /** sactive within qc_active within qc_allocated; a valid active_tag is the only active command
      and not NCQ; NCQ commands in flight mean active_tag is POISON. */
  lemma QueuesExclusive(run: seq<Sys>, steps: seq<Step>, k: nat)
    requires IsRun(run, steps) && k < |run|
    ensures run[k].p.regs.sactive <= run[k].p.regs.qcActive <= run[k].p.tags
    ensures TagValid(run[k].p.regs.activeTag) ==>
              run[k].p.regs.qcActive == {run[k].p.regs.activeTag} && run[k].p.regs.sactive == {}
    ensures run[k].p.regs.sactive != {} ==> run[k].p.regs.activeTag == ATA_TAG_POISON
    ensures !TagValid(run[k].p.regs.activeTag) ==> run[k].p.regs.qcActive == run[k].p.regs.sactive
  {
    RunKeeps(run, steps, k);
    SysInvSane(run[k]);
    SysInvInv(run[k]);
    RegsMeaning(run[k].p.regs, run[k].p.qcmd, if run[k].pc.Waiting? then ATA_TAG_INTERNAL else 0);
    forall i: nat | i in run[k].p.regs.qcActive ensures i in run[k].p.tags {
      assert i < ATA_MAX_QUEUE && run[k].p.qcmd[i].active;
    }
  }

  lemma RegsMeaning(r: Regs, q: Qcs, lo: nat)
    requires RegsOk(r, q, lo, ATA_MAX_QUEUE)
    ensures r.sactive <= r.qcActive && (forall i: nat :: i in r.qcActive ==> i < ATA_MAX_QUEUE && q[i].active)
    ensures TagValid(r.activeTag) ==> r.qcActive == {r.activeTag} && r.sactive == {}
    ensures r.sactive != {} ==> r.activeTag == ATA_TAG_POISON
    ensures !TagValid(r.activeTag) ==> r.qcActive == r.sactive
  {
    if TagValid(r.activeTag) {
      forall i: nat ensures i in r.qcActive <==> i in {r.activeTag} {
        if i in r.qcActive { assert i !in r.sactive; }
      }
    } else {
      forall i: nat ensures i in r.qcActive <==> i in r.sactive {}
    }
  }

  /** Exactly once, at every moment of every run.  An allocation n is over or holds its tag: over
      means its tag was freed once and, if it was issued, complete_fn ran once; holding means not
      freed yet and completed at most once.  A SCSI command has been given back once if it is
      finished and not at all otherwise, and is on each queue at most once, just when it should be. */
  lemma ExactlyOnce(run: seq<Sys>, steps: seq<Step>, k: nat)
    requires IsRun(run, steps) && k < |run|
    ensures forall n: nat :: n < |run[k].p.life| ==>
              var l := run[k].p.life[n];
              if l.frees == 0 then l.tag in run[k].p.tags && l.completions <= 1
              else l.frees == 1 && l.completions == One(l.issued)
    ensures forall t: nat :: t in run[k].p.tags ==>
              t < |run[k].p.qcmd| && run[k].p.qcmd[t].serial < |run[k].p.life| && run[k].p.life[run[k].p.qcmd[t].serial].frees == 0
    ensures forall c: nat :: c < |run[k].p.mid.scmds| ==>
              var s := run[k].p.mid.scmds[c];
              && s.dones == One(s.phase == Finished)
              && multiset(run[k].p.mid.ehCmdQ)[c] == One(s.phase == OnEhQ)
              && multiset(run[k].p.mid.ehDoneQ)[c] == One(s.phase == OnDoneQ)
  {
    RunKeeps(run, steps, k);
    SysInvInv(run[k]);
    var p := run[k].p;
    forall n: nat | n < |p.life|
      ensures var l := p.life[n];
              if l.frees == 0 then l.tag in p.tags && l.completions <= 1
              else l.frees == 1 && l.completions == One(l.issued)
    {
      assert LifeOk(p.qcmd, p.tags, p.life, n);
    }
  }

  /** No abort is forgotten.  Afterwards every command that was active belongs to the error handler and
      its SCSI command is on eh_cmd_q or about to get there by its timer; if there was nothing to
      abort, the error handler is scheduled outright. */
  lemma AbortReachesEh(p: Port, tf: ResultTf)
    requires Inv(p, false, None) && ActiveOwned(p)
    ensures var r := PortAbort(p, tf);
            && (forall t: nat :: t < ATA_MAX_QUEUE && p.qcmd[t].active ==>
                  && r.qcmd[t].active && r.qcmd[t].failed
                  && r.qcmd[t].scsicmd.Some? && r.qcmd[t].scsicmd.value < |r.mid.scmds|
                  && r.mid.scmds[r.qcmd[t].scsicmd.value].phase in {Expired, OnEhQ})
            && ((forall t: nat :: !FromTag(p, t)) ==> r.ehScheduled && r.ehPending)
  {
    hide AbortTags, InvLife, InvMid;
    AbortKeeps(p, false, None, tf);
    AbortRegs(p, ATA_MAX_QUEUE, tf);
    var r := PortAbort(p, tf);
    assert r.regs == p.regs;
    forall t: nat | t < ATA_MAX_QUEUE && p.qcmd[t].active
      ensures r.qcmd[t].active && Linked(r.qcmd, r.mid.scmds, t)
    {
      assert t in r.regs.qcActive;
      assert t < ATA_TAG_INTERNAL;
    }
  }

  ghost predicate AllFinishedOnce(m: Mid) {
    forall c: nat :: c < |m.scmds| ==> m.scmds[c].phase == Finished && m.scmds[c].dones == 1
  }

  /** When the error handler flushes eh_done_q, eh_cmd_q is empty, every tag is free, every qc ever
      issued has completed and been freed exactly once, and every SCSI command ends up finished
      exactly once. */
  lemma SessionEnds(run: seq<Sys>, steps: seq<Step>, k: nat)
    requires IsRun(run, steps) && k < |steps| && steps[k] == EhFlush
    ensures run[k].p.mid.ehCmdQ == [] && run[k].p.mid.hostFailed == 0 && run[k].p.tags == {}
    ensures forall n: nat :: n < |run[k].p.life| ==>
              run[k].p.life[n].frees == 1 && run[k].p.life[n].completions == One(run[k].p.life[n].issued)
    ensures AllFinishedOnce(run[k + 1].p.mid)
  {
    RunKeeps(run, steps, k);
    RunKeeps(run, steps, k + 1);
    var p := run[k].p;
    NothingLeft(p);
    FlushKeeps(p);
    forall n: nat | n < |p.life| ensures p.life[n].frees == 1 && p.life[n].completions == One(p.life[n].issued) {
      assert LifeOk(p.qcmd, p.tags, p.life, n);
    }
  }

  /** While ata_exec_internal waits, `before` does not change. */
  lemma WaitingRemembers(s: Sys, st: Step)
    requires SysInv(s) && Enabled(s, st) && s.pc.Waiting? && !st.EhExecEnd?
    ensures Next(s, st).pc == s.pc
  {
  }

  lemma {:induction false} WaitingStays(run: seq<Sys>, steps: seq<Step>, i: nat, j: nat)
    requires IsRun(run, steps) && i < j < |run| && run[i + 1].pc.Waiting?
    requires forall k: nat :: i < k < j ==> !steps[k].EhExecEnd?
    ensures run[j].pc == run[i + 1].pc
    decreases j
  {
    if j > i + 1 {
      WaitingStays(run, steps, i, j - 1);
      RunKeeps(run, steps, j - 1);
      WaitingRemembers(run[j - 1], steps[j - 1]);
    }
  }

  /** An internal command is transparent: whatever happens between its start at step i and its end at
      step j (completion, timeout with port freeze, races of the two, other interrupts), the three
      queue fields, the tags, every other qc and the midlayer are afterwards as they were before, and
      the allocation made at step i was completed exactly once and freed once. */
  lemma InternalTransparent(run: seq<Sys>, steps: seq<Step>, i: nat, j: nat)
    requires IsRun(run, steps) && i < j < |steps|
    requires steps[i].EhExec? && !run[i].p.frozen && steps[j].EhExecEnd?
    requires forall k: nat :: i < k < j ==> !steps[k].EhExecEnd?
    ensures run[j + 1].p.regs == run[i].p.regs
    ensures run[j + 1].p.tags == run[i].p.tags
    ensures forall t: nat :: t < ATA_TAG_INTERNAL ==> run[j + 1].p.qcmd[t] == run[i].p.qcmd[t]
    ensures run[j + 1].p.mid == run[i].p.mid
    ensures var n := |run[i].p.life|;
            && run[j].p.qcmd[ATA_TAG_INTERNAL].serial == n
            && n < |run[j + 1].p.life| && run[j + 1].p.life[n].frees == 1 && run[j + 1].p.life[n].completions == 1
  {
    hide SysInv, Next, Enabled, Init;
    RunKeeps(run, steps, i);
    ExecStarts(run[i], steps[i]);
    WaitingStays(run, steps, i, j);
    RunKeeps(run, steps, j);
    assert run[j].pc == Waiting(run[j].pc.left, run[i].p);
    ExecEndKeeps(run[j]);
    ExecEndLife(run[j]);
    WaitingSerial(run[j]);
  }

  lemma WaitingSerial(s: Sys)
    requires SysInv(s) && s.pc.Waiting?
    ensures |s.p.qcmd| == ATA_MAX_QUEUE && s.p.qcmd[ATA_TAG_INTERNAL].serial == |s.pc.before.life|
  {
  }

  lemma ExecStarts(s: Sys, st: Step)
    requires SysInv(s) && Enabled(s, st) && st.EhExec? && !s.p.frozen
    ensures Next(s, st).pc == Waiting(s.pc.left, s.p)
  {
  }

  lemma ExecEndLife(s: Sys)
    requires SysInv(s) && Enabled(s, EhExecEnd)
    ensures var n := s.p.qcmd[ATA_TAG_INTERNAL].serial;
            var life := Next(s, EhExecEnd).p.life;
            n < |life| && life[n].frees == 1 && life[n].completions == 1
  {
    var n := s.p.qcmd[ATA_TAG_INTERNAL].serial;
    assert LifeOk(s.p.qcmd, s.p.tags, s.p.life, n);
  }

  // ---- the outer loop of ata_scsi_error ----

  /** How often ->error_handler is started in steps i..j. */
  function Fetches(steps: seq<Step>, i: nat, j: nat): nat
    requires i <= j <= |steps|
    decreases j - i
  {
    if i == j then 0 else Fetches(steps, i, j - 1) + if steps[j - 1].EhFetch? then 1 else 0
  }

  /** repeat_cnt and the fetches made so far add up. */
  ghost predicate Counted(pc: EhPc, fetches: nat) {
    match pc
    case Off => false
    case Entered(left) => left >= 1 && fetches + left <= ATA_EH_MAX_REPEAT
    case Recovering(left) => left >= 1 && fetches + left <= ATA_EH_MAX_REPEAT + 1
    case Waiting(left, _) => left >= 1 && fetches + left <= ATA_EH_MAX_REPEAT + 1
    case Finishing(left, _) => left >= 1 && fetches + left <= ATA_EH_MAX_REPEAT + 1
    case Leaving(left) => left >= 1 && fetches + left <= ATA_EH_MAX_REPEAT + 1
    case Flushing => fetches <= ATA_EH_MAX_REPEAT
  }

  /** Between its start and its end one session of the error handler repeats at most
      ATA_EH_MAX_REPEAT times, however often new errors arrive. */
  lemma {:induction false} SessionBounded(run: seq<Sys>, steps: seq<Step>, i: nat, j: nat)
    requires IsRun(run, steps) && i < j <= |steps| && steps[i].EhEnter?
    requires forall k: nat :: i < k < j ==> !steps[k].EhFlush?
    ensures Counted(run[j].pc, Fetches(steps, i + 1, j)) && Fetches(steps, i + 1, j) <= ATA_EH_MAX_REPEAT
    decreases j
  {
    hide SysInv, Init, Next, Enabled, Counted;
    if j == i + 1 {
      EnterCounts(run[i], steps[i]);
    } else {
      SessionBounded(run, steps, i, j - 1);
      CountedKeeps(run[j - 1], steps[j - 1], Fetches(steps, i + 1, j - 1));
    }
    CountedBound(run[j].pc, Fetches(steps, i + 1, j));
  }

  lemma EnterCounts(s: Sys, st: Step)
    requires Enabled(s, st) && st.EhEnter?
    ensures Counted(Next(s, st).pc, 0)
  {
    hide SortOut;
  }

  lemma CountedBound(pc: EhPc, n: nat)
    requires Counted(pc, n)
    ensures n <= ATA_EH_MAX_REPEAT
  {
  }

  lemma CountedKeeps(s: Sys, st: Step, n: nat)
    requires Enabled(s, st) && Counted(s.pc, n) && !st.EhFlush?
    ensures Counted(Next(s, st).pc, if st.EhFetch? then n + 1 else n)
  {
  }

  // ---- why SetFlags needs its guard ----

  /** ata_scsi_change_queue_depth may set NCQ_OFF while NCQ commands are in flight; the next read or
      write is then issued without NCQ and not deferred.  For an IO command on a sound state the
      engine stays sound exactly when the command uses NCQ or no NCQ command is in flight. */
  lemma IssueSafeIff(p: Port, d: DevFlags, t: nat, allowed: nat)
    requires Inv(p, false, None) && !p.frozen && QcNewTag(p) == Some(t) && d.ncq && !NeedDefer(d, p.regs, true)
    ensures t < ATA_TAG_INTERNAL && t !in p.tags
    ensures Inv(Issued(p, t, UsesNcq(d), allowed), false, None) <==> (UsesNcq(d) || p.regs.sactive == {})
  {
    FirstFreeIsFree(p.tags, 0);
    IssuedKeeps(p, t, UsesNcq(d), allowed);
    assert t in p.regs.sactive ==> t in p.tags;
  }

  /** A concrete port with one NCQ command in flight on tag 0. */
  function OneNcq(): Port {
    Port(seq(ATA_MAX_QUEUE, i => Qc(0, i == 0, false, false, i == 0, {}, if i == 0 then Some(0) else None, ScsiDone, 0, TF_CLEAN)),
         {0}, Regs(ATA_TAG_POISON, {0}, {0}), false, false, false,
         Mid([Scmd(Armed, 0, 0, 0, 5)], [], [], 0), [Life(0, true, 0, 0)], false)
  }

  lemma NcqOffBreaksExclusion(tf: ResultTf)
    ensures Inv(OneNcq(), false, None)
    ensures var r := Translate(OneNcq(), DevFlags(true, true, false), true, Command, {}, tf, 5);
            r.warned && r.regs.sactive == {0} && r.regs.activeTag == 1
  {
    var p := OneNcq();
    assert Linked(p.qcmd, p.mid.scmds, 0);
    assert LifeOk(p.qcmd, p.tags, p.life, 0);
    assert HasQc(p.qcmd, p.mid.scmds, 0);
    IssuedShape(p, 1, false, 5);
  }
}
