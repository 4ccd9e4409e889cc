/** What each step of the port system does, in the fields it is about.  Interrupts that end many
    commands at once, the sort-out and internal commands have their own lemmas elsewhere. */
module PortActs {
  import opened Ata
  import opened PortModel
  import opened PortInvariant
  import opened PortPreserve
  import opened PortIssue
  import opened PortRecovery
  import opened PortSystem

  /** A fresh command goes one of the ways of PortIssue.TranslateOutcome. */
  ghost predicate Queued(p: Port, r: Port, d: DevFlags, isIo: bool, x: Xlat, err: ErrMask) {
    var c := |p.mid.scmds|;
    if NeedDefer(d, p.regs, isIo) then r == p
    else if p.frozen || (forall t: nat :: t < ATA_TAG_INTERNAL ==> t in p.tags) || x == Early then
      |r.mid.scmds| == c + 1 && r.mid.scmds[c].phase == Finished && r.tags == p.tags
    else
      exists t: nat ::
        && t < ATA_TAG_INTERNAL && t !in p.tags && r.tags == p.tags + {t} && InFlight(r, t, c, isIo && UsesNcq(d))
        && if err == {} then FromTag(r, t) else r.qcmd[t].failed && r.qcmd[t].err == err
  }

  /** Everything but the midlayer's part is as it was, and in that every record but c's. */
  ghost predicate OnlyScmd(p: Port, r: Port, c: nat) {
    && r == p.(mid := r.mid) && |r.mid.scmds| == |p.mid.scmds|
    && forall i: nat :: i < |p.mid.scmds| && i != c ==> r.mid.scmds[i] == p.mid.scmds[i]
  }

  /** A completion of a SCSI command: without errors it is over, its tag free; with an error on record
      it is failed, still active, the error handler's. */
  ghost predicate Completed(p: Port, r: Port, t: nat, err: ErrMask)
    requires t < |p.qcmd| == |r.qcmd|
  {
    && (forall i: nat :: i < |p.qcmd| && i != t ==> r.qcmd[i] == p.qcmd[i])
    && if p.qcmd[t].err + err == {} then !r.qcmd[t].active && r.tags == p.tags - {t}
       else r.qcmd[t].active && r.qcmd[t].failed && r.qcmd[t].err == p.qcmd[t].err + err && r.tags == p.tags && r.ehPending
  }

  ghost predicate Acts(s: Sys, st: Step, r: Sys)
    requires Sane(s.p) && Enabled(s, st)
  {
    match st
    case Queue(isIo, x, err, _, _) => Queued(s.p, r.p, s.dev, isIo, x, err) && r.dev == s.dev && r.pc == s.pc
    case SetFlags(d) => r == Sys(s.p, d, s.pc)
    case TimerFires(c) => OnlyScmd(s.p, r.p, c) && r.p.mid.scmds[c].phase == Expired && r.p.mid.ehCmdQ == s.p.mid.ehCmdQ
    case TimeoutRuns(c) =>
      && OnlyScmd(s.p, r.p, c) && r.p.mid.scmds[c].phase == OnEhQ
      && r.p.mid.ehCmdQ == s.p.mid.ehCmdQ + [c] && r.p.mid.hostFailed == s.p.mid.hostFailed + 1
    case Irq(t, err, _) =>
      if !FromTag(s.p, t) then r == s
      else |r.p.qcmd| == |s.p.qcmd| && (t < ATA_TAG_INTERNAL ==> Completed(s.p, r.p, t, err)) && !FromTag(r.p, t)
    case IrqCharge(t, err) =>
      if !FromTag(s.p, t) then r == s
      else r == s.(p := r.p) && r.p == s.p.(qcmd := s.p.qcmd[t := s.p.qcmd[t].(err := s.p.qcmd[t].err + err)])
    case SchedulePortEh => r.p.ehPending && r.p.ehScheduled
    case EhFetch => r.pc == Recovering(s.pc.left) && !r.p.ehPending && r.p.qcmd == s.p.qcmd
    case EhAnalyze(t, err, sense, result) =>
      && |r.p.qcmd| == |s.p.qcmd| && (forall i: nat :: i < |s.p.qcmd| && i != t ==> r.p.qcmd[i] == s.p.qcmd[i])
      && var qc := r.p.qcmd[t];
         qc.err == err && qc.sense == sense && qc.result == result && qc.failed && qc.active == s.p.qcmd[t].active
    case EhStartFinish => r == Sys(s.p, s.dev, Finishing(s.pc.left, 0))
    case EhFinishOne =>
      && |r.p.qcmd| == |s.p.qcmd| && !r.p.qcmd[s.pc.next].active
      && (forall i: nat :: i < |s.p.qcmd| && i != s.pc.next ==> r.p.qcmd[i] == s.p.qcmd[i])
      && r.pc == if s.pc.next == 31 then Leaving(s.pc.left) else Finishing(s.pc.left, s.pc.next + 1)
    case EhLeave =>
      if s.p.ehPending && s.pc.left > 1 then r == Sys(s.p, s.dev, Entered(s.pc.left - 1))
      else r.pc == Flushing && !r.p.ehScheduled && r.p.qcmd == s.p.qcmd
    case EhFlush =>
      && r.pc.Off? && r.p.mid.ehDoneQ == [] && |r.p.mid.scmds| == |s.p.mid.scmds|
      && forall c: nat :: c < |s.p.mid.scmds| && c in s.p.mid.ehDoneQ ==> r.p.mid.scmds[c].phase == Finished
    case _ => true
  }

  lemma IrqActs(p: Port, ehOn: bool, saved: Option<Regs>, t: nat, err: ErrMask, tf: ResultTf)
    requires Inv(p, ehOn, saved) && FromTag(p, t) && (saved.Some? ==> ehOn)
    ensures Owned(p, t) && |FailComplete(p, t, err, false, tf).qcmd| == |p.qcmd|
    ensures t < ATA_TAG_INTERNAL ==> Completed(p, FailComplete(p, t, err, false, tf), t, err)
    ensures !FromTag(FailComplete(p, t, err, false, tf), t)
  {
    hide InvTags, InvRegs, InvQuiet, InvLink, InvMid, InvLife, FailComplete;
    CompleteKeeps(p, ehOn, saved, t, err, false, tf);
    if t == ATA_TAG_INTERNAL {
      InternalGone(p, err, tf);
    } else if p.qcmd[t].err + err != {} {
      FailKeeps(p, ehOn, saved, t, err, false, tf);
      FailPends(p, t, err, tf);
    } else {
      assert err == {};
      QuietPort(p, ehOn, saved, t);
      DoneIsRaw(p, t, tf);
      RawShape(SetQc(p, t, p.qcmd[t].(result := tf)), t, p.qcmd[t].scsicmd.value);
    }
  }

  lemma InternalGone(p: Port, err: ErrMask, tf: ResultTf)
    requires Owned(p, ATA_TAG_INTERNAL)
    ensures var r := FailComplete(p, ATA_TAG_INTERNAL, err, false, tf);
            |r.qcmd| == |p.qcmd| && !r.qcmd[ATA_TAG_INTERNAL].active
  {
    hide OnlyTag, RawComplete;
  }

  lemma FailPends(p: Port, t: nat, err: ErrMask, tf: ResultTf)
    requires Owned(p, t) && t < ATA_TAG_INTERNAL && p.qcmd[t].err + err != {}
    ensures FailComplete(p, t, err, false, tf).ehPending
  {
    hide OnlyTag;
  }

  lemma QuietPort(p: Port, ehOn: bool, saved: Option<Regs>, t: nat)
    requires Inv(p, ehOn, saved) && FromTag(p, t) && t < ATA_TAG_INTERNAL
    ensures !p.frozen && p.qcmd[t].scsicmd.Some? && p.qcmd[t].scsicmd.value < |p.mid.scmds|
  {
    assert Linked(p.qcmd, p.mid.scmds, t);
  }

  /** Every enabled step does what it is there for. */
  lemma StepActs(s: Sys, st: Step)
    requires SysInv(s) && Enabled(s, st)
    ensures Acts(s, st, Next(s, st))
  {
    hide FailComplete, CompleteTags, AbortTags, SortOut, Translate, EhFinishTag, QcIssue, InternalEnd, InvTags, InvRegs, InvQuiet, InvLink, InvMid,
      InvLife;
    SysInvInv(s);
    match st
    case Queue(isIo, x, err, tf, allowed) => QueueActs(s, isIo, x, err, tf, allowed);
    case Irq(t, err, tf) => if FromTag(s.p, t) { IrqActs(s.p, !s.pc.Off?, Saved(s), t, err, tf); }
    case EhFinishOne => EhFinishTagKeeps(s.p, s.pc.next);
    case _ =>
  }

  lemma QueueActs(s: Sys, isIo: bool, x: Xlat, err: ErrMask, tf: ResultTf, allowed: nat)
    requires SysInv(s) && Enabled(s, Queue(isIo, x, err, tf, allowed))
    ensures Acts(s, Queue(isIo, x, err, tf, allowed), Next(s, Queue(isIo, x, err, tf, allowed)))
  {
    hide Translate, InvTags, InvRegs, InvQuiet, InvLink, InvMid, InvLife, InFlight, NeedDefer;
    TranslateOutcome(s.p, s.dev, isIo, x, true, err, tf, allowed);
  }
}
