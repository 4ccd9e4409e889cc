/** FROZEN and pending errors over whole runs: what sets them, what clears them, and what follows. */
module PortFrozen {
  import opened Ata
  import opened PortModel
  import opened PortInvariant
  import opened PortPreserve
  import opened PortIssue
  import opened PortRecovery
  import opened PortSystem
  import opened PortRuns

  // ---- FROZEN ----

  /** The steps that freeze the port: an error interrupt that asks for it, a register that shows a
      command that is not active, a real timeout, a reset, the timeout of an internal command that is
      still active. */
  ghost predicate Freezes(s: Sys, st: Step) {
    match st
    case IrqError(_, freeze, _) => freeze
    case IrqMultiple(active, _) => !(active <= s.p.regs.qcActive)
    case EhEnter => exists t: nat :: t < ATA_MAX_QUEUE && FromTag(s.p, t)
    case EhFreeze => true
    case EhExecTimeout(_) => ATA_TAG_INTERNAL < |s.p.qcmd| && s.p.qcmd[ATA_TAG_INTERNAL].active
    case _ => false
  }

  /** FROZEN after a step, exactly: set by those steps, cleared by thawing, kept by all others. */
  lemma FrozenStep(s: Sys, st: Step)
    requires SysInv(s) && Enabled(s, st)
    ensures Next(s, st).p.frozen <==> !st.EhThaw? && (s.p.frozen || Freezes(s, st))
  {
    hide FailComplete, CompleteTags, AbortTags, SortOut, Translate, EhRawComplete, FinishPrep, InternalTimeout, QcIssue, InternalEnd, Inv, IrqEffect;
    match st
    case Queue(isIo, x, err, tf, allowed) => TranslateFlags(s.p, s.dev, isIo, x, err, tf, allowed);
    case Irq(t, err, tf) =>
    case IrqMultiple(active, tf) =>
      var done := (s.p.regs.qcActive - active) + (active - s.p.regs.qcActive);
      CompleteTagsFlags(s.p, done, ATA_MAX_QUEUE, tf);
      LegalIff(s.p.regs.qcActive, active, done);
    case IrqError(err, freeze, tf) => ErrorFlags(s.p, err, freeze, tf);
    case EhEnter => SysInvInv(s); SortOutKeeps(s.p);
    case EhExec(ncq, err, tf) => ExecFlags(s, ncq, err, tf);
    case EhExecTimeout(tf) => SysInvInv(s); InternalTimeoutKeeps(s.p, s.pc.before.regs, tf);
    case EhExecEnd => EndFlags(s.p, s.pc.before.regs);
    case EhFinishOne => FinishFlags(s.p, s.pc.next);
    case _ =>
  }

  lemma LegalIff(was: set<nat>, active: set<nat>, done: set<nat>)
    requires done == (was - active) + (active - was)
    ensures done * active == {} <==> active <= was
  {
    if !(active <= was) {
      var t :| t in active && t !in was;
      assert t in done * active;
    }
  }

  lemma TranslateFlags(p: Port, d: DevFlags, isIo: bool, x: Xlat, err: ErrMask, tf: ResultTf, allowed: nat)
    requires WellFormed(p)
    ensures var r := Translate(p, d, isIo, x, err, tf, allowed);
            r.frozen == p.frozen && (p.ehPending ==> r.ehPending)
  {
    hide FailComplete;
    if !NeedDefer(d, p.regs, isIo) && QcNewTag(p).Some? {
      FirstFreeIsFree(p.tags, 0);
      var t := QcNewTag(p).value;
      var q := QcTake(StartScmd(p, t, allowed), t, Some(|p.mid.scmds|));
      assert q.frozen == p.frozen && q.ehPending == p.ehPending;
      if x != Early {
        var a := Activate(q, t, isIo && UsesNcq(d));
        assert err != {} ==> OnlyTag(a, FailComplete(a, t, err, false, tf), t);
      }
    }
  }

  lemma ErrorFlags(p: Port, err: ErrMask, freeze: bool, tf: ResultTf)
    requires WellFormed(p) && ActiveOwned(p)
    ensures var r := ErrorIntr(p, err, freeze, tf);
            r.frozen == (p.frozen || freeze) && (p.ehPending ==> r.ehPending)
  {
    hide AbortTags;
    AbortTagsFlags(Charge(p, p.regs.activeTag, err), ATA_MAX_QUEUE, tf);
  }

  lemma ExecFlags(s: Sys, ncq: bool, err: ErrMask, tf: ResultTf)
    requires WellFormed(s.p) && s.pc.Recovering?
    ensures var r := ExecBegin(s, ncq, err, tf).p;
            r.frozen == s.p.frozen && (s.p.ehPending ==> r.ehPending)
  {
    hide FailComplete;
    if !s.p.frozen && ATA_TAG_INTERNAL !in s.p.tags {
      var a := Activate(InternalBegin(s.p), ATA_TAG_INTERNAL, ncq);
      assert a.frozen == s.p.frozen && a.ehPending == s.p.ehPending;
      assert err != {} ==> OnlyTag(a, FailComplete(a, ATA_TAG_INTERNAL, err, false, tf), ATA_TAG_INTERNAL);
    }
  }

  lemma EndFlags(p: Port, saved: Regs)
    requires Owned(p, ATA_TAG_INTERNAL)
    ensures InternalEnd(p, saved).frozen == p.frozen && (p.ehPending ==> InternalEnd(p, saved).ehPending)
  {
  }

  lemma FinishFlags(p: Port, t: nat)
    requires WellFormed(p) && t < ATA_MAX_QUEUE && (p.qcmd[t].failed ==> t in p.tags)
    ensures EhFinishTag(p, t).frozen == p.frozen && (p.ehPending ==> EhFinishTag(p, t).ehPending)
  {
    hide RawComplete;
    if p.qcmd[t].failed {
      var q := FinishPrep(p, t);
      PrepFlags(p, t);
      var e := SetQc(q, t, q.qcmd[t].(done := EhScsiDone));
      assert OnlyTag(e, RawComplete(e, t), t);
    }
  }

  lemma PrepFlags(p: Port, t: nat)
    requires Owned(p, t)
    ensures FinishPrep(p, t).frozen == p.frozen && FinishPrep(p, t).ehPending == p.ehPending
  {
    hide OnlyTag;
  }

  /** Some earlier step froze the port, or it was frozen from the start, and it was not thawed since. */
  ghost predicate FrozenSince(run: seq<Sys>, steps: seq<Step>, k: nat)
    requires k < |run| == |steps| + 1
  {
    || (run[0].p.frozen && forall i: nat :: i < k ==> !steps[i].EhThaw?)
    || exists j: nat :: j < k && Freezes(run[j], steps[j]) && forall i: nat :: j < i < k ==> !steps[i].EhThaw?
  }

  lemma FrozenSinceStep(run: seq<Sys>, steps: seq<Step>, k: nat)
    requires 0 < k < |run| == |steps| + 1
    ensures FrozenSince(run, steps, k) <==>
              Freezes(run[k - 1], steps[k - 1]) || (FrozenSince(run, steps, k - 1) && !steps[k - 1].EhThaw?)
  {
    hide Freezes;
    if FrozenSince(run, steps, k - 1) && !steps[k - 1].EhThaw? {
      if !(run[0].p.frozen && forall i: nat :: i < k - 1 ==> !steps[i].EhThaw?) {
        var j: nat :| j < k - 1 && Freezes(run[j], steps[j]) && forall i: nat :: j < i < k - 1 ==> !steps[i].EhThaw?;
        assert forall i: nat :: j < i < k ==> !steps[i].EhThaw?;
      }
    }
  }

  lemma ThawDoesNotFreeze(s: Sys, st: Step)
    ensures st.EhThaw? ==> !Freezes(s, st)
  {
  }

  /** A port is frozen exactly if something froze it and it was not thawed since. */
  lemma {:induction false} FrozenIff(run: seq<Sys>, steps: seq<Step>, k: nat)
    requires IsRun(run, steps) && k < |run|
    ensures run[k].p.frozen <==> FrozenSince(run, steps, k)
  {
    hide SysInv, Next, Enabled, Freezes, Init;
    if k > 0 {
      FrozenIff(run, steps, k - 1);
      RunKeeps(run, steps, k - 1);
      FrozenStep(run[k - 1], steps[k - 1]);
      FrozenSinceStep(run, steps, k);
      ThawDoesNotFreeze(run[k - 1], steps[k - 1]);
    }
  }

  /** From a freezing step until the port is thawed: frozen, nothing can be found from its tag, no tag
      is handed out. */
  lemma FrozenUntilThaw(run: seq<Sys>, steps: seq<Step>, i: nat, k: nat)
    requires IsRun(run, steps) && i < k < |run| && Freezes(run[i], steps[i])
    requires forall j: nat :: i < j < k ==> !steps[j].EhThaw?
    ensures run[k].p.frozen && QcNewTag(run[k].p) == None && forall t: nat :: !FromTag(run[k].p, t)
  {
    hide SysInv, Next, Enabled, Freezes, Init;
    assert FrozenSince(run, steps, k);
    FrozenIff(run, steps, k);
    FrozenIsQuiescent(run, steps, k);
  }

  // ---- what an error interrupt leaves behind ----

  /** Outside the error handler: the active command is charged with the error, every command that
      could be found is failed with the errors it then has and the taskfile that was read, all others
      are as they were, and the port is frozen exactly if it was or the interrupt asks for it. */
  lemma ErrorOutcome(p: Port, err: ErrMask, freeze: bool, tf: ResultTf)
    requires Inv(p, false, None) && ActiveOwned(p)
    ensures var r := ErrorIntr(p, err, freeze, tf);
            && r.frozen == (p.frozen || freeze)
            && forall i: nat :: i < ATA_MAX_QUEUE ==>
                 r.qcmd[i] ==
                   if !FromTag(p, i) then p.qcmd[i]
                   else p.qcmd[i].(failed := true, result := tf,
                                   err := if i == p.regs.activeTag then p.qcmd[i].err + err else p.qcmd[i].err)
  {
    hide AbortTags, InvTags, InvRegs, InvQuiet, InvLink, InvMid, InvLife;
    var q := Charge(p, p.regs.activeTag, err);
    ChargeKeeps(p, false, None, p.regs.activeTag, err);
    AbortQcs(q, ATA_MAX_QUEUE, tf);
    ErrorFlags(p, err, freeze, tf);
    forall i: nat | i < ATA_MAX_QUEUE ensures FromTag(q, i) == FromTag(p, i) {}
  }

  // ---- pending errors ----

  /** No step but the fetch at the start of the handler forgets a pending error. */
  lemma PendingStays(s: Sys, st: Step)
    requires SysInv(s) && Enabled(s, st) && s.p.ehPending && !st.EhFetch?
    ensures Next(s, st).p.ehPending
  {
    hide FailComplete, CompleteTags, AbortTags, SortOut, Translate, EhRawComplete, FinishPrep, QcIssue, InternalEnd, Inv, IrqEffect;
    match st
    case Queue(isIo, x, err, tf, allowed) => TranslateFlags(s.p, s.dev, isIo, x, err, tf, allowed);
    case IrqMultiple(active, tf) =>
      var done := (s.p.regs.qcActive - active) + (active - s.p.regs.qcActive);
      CompleteTagsFlags(s.p, done, ATA_MAX_QUEUE, tf);
      AbortTagsFlags(s.p, ATA_MAX_QUEUE, tf);
    case IrqError(err, freeze, tf) => ErrorFlags(s.p, err, freeze, tf);
    case EhEnter => SysInvInv(s); SortOutPending(s.p);
    case EhExec(ncq, err, tf) => ExecFlags(s, ncq, err, tf);
    case EhExecTimeout(tf) => TimeoutPending(s.p, tf);
    case EhExecEnd => EndFlags(s.p, s.pc.before.regs);
    case EhFinishOne => FinishFlags(s.p, s.pc.next);
    case _ =>
  }

  lemma TimeoutPending(p: Port, tf: ResultTf)
    requires WellFormed(p) && ActiveOwned(p) && p.ehPending
    ensures InternalTimeout(p, tf).ehPending
  {
    hide AbortTags;
    var qc := p.qcmd[ATA_TAG_INTERNAL];
    if qc.active { AbortTagsFlags(SetQc(p, ATA_TAG_INTERNAL, qc.(err := qc.err + {Timeout})), ATA_MAX_QUEUE, tf); }
  }

  lemma SortOutPending(p: Port)
    requires WellFormed(p) && forall c :: c in p.mid.ehCmdQ ==> c < |p.mid.scmds|
    ensures SortOut(p).ehPending == p.ehPending
  {
    SortOutQPending(p, p.mid.ehCmdQ, |p.mid.ehCmdQ|);
  }

  lemma {:induction false} SortOutQPending(p: Port, q: seq<nat>, n: nat)
    requires WellFormed(p) && n <= |q| && forall c :: c in q ==> c < |p.mid.scmds|
    ensures SortOutQ(p, q, n).0.ehPending == p.ehPending
  {
    hide WellFormed, TimedOut;
    if n > 0 {
      SortOutQPending(p, q, n - 1);
      assert q[n - 1] in q;
      SortOutOnePending(SortOutQ(p, q, n - 1).0, q[n - 1]);
    }
  }

  lemma SortOutOnePending(p: Port, c: nat)
    requires WellFormed(p) && c < |p.mid.scmds|
    ensures SortOutOne(p, c).ehPending == p.ehPending
  {
    FindQcFound(p, c, 0);
  }

  /** An error that comes while the handler runs, after it has fetched its information and with no
      command left to abort, makes the handler run again when it leaves, unless it has done so
      ATA_EH_MAX_REPEAT times. */
  lemma LateErrorRepeats(run: seq<Sys>, steps: seq<Step>, i: nat, k: nat)
    requires IsRun(run, steps) && i < k < |steps| && steps[k].EhLeave?
    requires steps[i].SchedulePortEh? || (steps[i].IrqError? && forall t: nat :: !FromTag(run[i].p, t))
    requires forall j: nat :: i < j < k ==> !steps[j].EhFetch?
    ensures run[k].pc.Leaving?
    ensures run[k + 1].pc == if run[k].pc.left > 1 then Entered(run[k].pc.left - 1) else Flushing
  {
    RunKeeps(run, steps, i);
    ErrorPends(run[i], steps[i]);
    PendingUntil(run, steps, i + 1, k);
  }

  lemma ErrorPends(s: Sys, st: Step)
    requires SysInv(s) && Enabled(s, st)
    requires st.SchedulePortEh? || (st.IrqError? && forall t: nat :: !FromTag(s.p, t))
    ensures Next(s, st).p.ehPending
  {
    hide AbortTags, Inv;
  }

  lemma {:induction false} PendingUntil(run: seq<Sys>, steps: seq<Step>, i: nat, k: nat)
    requires IsRun(run, steps) && i <= k < |run| && run[i].p.ehPending
    requires forall j: nat :: i <= j < k ==> !steps[j].EhFetch?
    ensures run[k].p.ehPending
    decreases k
  {
    hide SysInv, Next, Enabled, Init;
    if i < k {
      PendingUntil(run, steps, i, k - 1);
      RunKeeps(run, steps, k - 1);
      PendingStays(run[k - 1], steps[k - 1]);
    }
  }
}
