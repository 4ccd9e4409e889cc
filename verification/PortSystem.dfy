/**
 The port as a step system: midlayer, timers, interrupts and the error handler thread take turns,
 each step atomic under the host lock.  Steps are free to come in any order their guards allow.
 */
module PortSystem {
  import opened Ata
  import opened PortModel
  import opened PortInvariant
  import opened PortPreserve
  import opened PortIssue
  import opened PortRecovery

  const ATA_EH_MAX_REPEAT: nat := 5

  /** Where the error handler thread is: not running; at label repeat of ata_scsi_error; inside
      ->error_handler; waiting in ata_exec_internal (`before` is the port when that was called);
      inside the loop of ata_eh_finish; back from ->error_handler; about to flush eh_done_q. */
  datatype EhPc =
    | Off
    | Entered(left: nat)
    | Recovering(left: nat)
    | Waiting(left: nat, before: Port)
    | Finishing(left: nat, next: nat)
    | Leaving(left: nat)
    | Flushing

  datatype Sys = Sys(p: Port, dev: DevFlags, pc: EhPc)

  datatype Step =
    | Queue(isIo: bool, xlat: Xlat, err: ErrMask, tf: ResultTf, allowed: nat)
    | SetFlags(dev: DevFlags)
    | TimerFires(c: nat)
    | TimeoutRuns(c: nat)
    | Irq(tag: nat, err: ErrMask, tf: ResultTf)
    | IrqCharge(tag: nat, err: ErrMask)
    | IrqMultiple(active: set<nat>, tf: ResultTf)
    | IrqError(err: ErrMask, freeze: bool, tf: ResultTf)
    | SchedulePortEh
    | EhEnter
    | EhFetch
    | EhFreeze
    | EhThaw
    | EhAnalyze(tag: nat, err: ErrMask, sense: bool, result: ResultTf)
    | EhExec(ncq: bool, err: ErrMask, tf: ResultTf)
    | EhExecTimeout(tf: ResultTf)
    | EhExecEnd
    | EhStartFinish
    | EhFinishOne
    | EhLeave
    | EhFlush

  /** The C structures make sense; every reachable state is like that (SysInvSane). */
  ghost predicate Sane(p: Port) {
    && WellFormed(p) && ActiveOwned(p)
    && (forall c :: c in p.mid.ehCmdQ ==> c < |p.mid.scmds|)
    && (forall t: nat :: t < ATA_MAX_QUEUE && p.qcmd[t].failed && t < ATA_TAG_INTERNAL ==> t in p.tags)
  }

  /** Guards.  Besides where the thread stands they hold the midlayer's promises: no new command
      while the error handler runs; one command at a time for a device without NCQ; the handler
      starts only when every command that is not finished is on eh_cmd_q.  SetFlags is the one
      assumption about libata itself: the NCQ switch is not thrown while NCQ commands are in
      flight outside the handler (NcqOffBreaksExclusion shows what happens otherwise). */
  ghost predicate Enabled(s: Sys, st: Step) {
    Sane(s.p) &&
    match st
    case Queue(_, _, _, _, _) => s.pc.Off? && (!s.dev.ncq ==> s.p.regs.qcActive == {})
    case SetFlags(_) => s.pc.Off? ==> s.p.regs.sactive == {}
    case TimerFires(c) => c < |s.p.mid.scmds| && s.p.mid.scmds[c].phase == Armed
    case TimeoutRuns(c) => c < |s.p.mid.scmds| && s.p.mid.scmds[c].phase == Expired
    case Irq(_, _, _) => true
    case IrqCharge(_, _) => true
    case IrqMultiple(_, _) => true
    case IrqError(_, _, _) => true
    case SchedulePortEh => true
    case EhEnter => s.pc.Off? && NoTimers(s.p.mid.scmds) && (s.p.mid.ehCmdQ != [] || s.p.ehScheduled)
    case EhFetch => s.pc.Entered?
    case EhFreeze => s.pc.Recovering?
    case EhThaw => s.pc.Recovering?
    case EhAnalyze(t, _, _, _) => s.pc.Recovering? && t < ATA_TAG_INTERNAL && s.p.qcmd[t].failed
    case EhExec(_, _, _) => s.pc.Recovering?
    case EhExecTimeout(_) => s.pc.Waiting?
    case EhExecEnd => s.pc.Waiting? && !s.p.qcmd[ATA_TAG_INTERNAL].active && ATA_TAG_INTERNAL in s.p.tags
    case EhStartFinish => s.pc.Recovering?
    case EhFinishOne =>
      s.pc.Finishing? && s.pc.next < ATA_MAX_QUEUE && (s.p.qcmd[s.pc.next].failed ==> s.pc.next in s.p.tags)
    case EhLeave => s.pc.Leaving?
    case EhFlush => s.pc.Flushing?
  }

  /** Error bits on a qc that is not completed yet. */
  function Charge(p: Port, t: nat, err: ErrMask): (r: Port)
    requires WellFormed(p) && ActiveOwned(p)
    ensures WellFormed(r) && ActiveOwned(r)
  {
    if FromTag(p, t) then
      var r := SetQc(p, t, p.qcmd[t].(err := p.qcmd[t].err + err));
      assert forall i :: 0 <= i < |r.qcmd| && r.qcmd[i].active ==> p.qcmd[i].active;
      r
    else p
  }

  /** The end of ahci_error_intr: the active command is charged, everything is aborted. */
  function ErrorIntr(p: Port, err: ErrMask, freeze: bool, tf: ResultTf): (r: Port)
    requires WellFormed(p) && ActiveOwned(p)
    ensures WellFormed(r) && ActiveOwned(r)
  {
    if freeze then PortFreeze(Charge(p, p.regs.activeTag, err), tf)
    else PortAbort(Charge(p, p.regs.activeTag, err), tf)
  }

  /** ata_exec_internal up to the wait: AC_ERR_SYSTEM on a frozen port, BUG if the tag is taken. */
  function ExecBegin(s: Sys, ncq: bool, err: ErrMask, tf: ResultTf): Sys
    requires WellFormed(s.p) && s.pc.Recovering?
  {
    if s.p.frozen then s
    else if ATA_TAG_INTERNAL in s.p.tags then s.(p := s.p.(warned := true))
    else s.(p := QcIssue(InternalBegin(s.p), ATA_TAG_INTERNAL, ncq, err, tf), pc := Waiting(s.pc.left, s.p))
  }

  ghost function Next(s: Sys, st: Step): Sys
    requires Enabled(s, st)
  {
    match st
    case Queue(isIo, x, err, tf, allowed) => s.(p := Translate(s.p, s.dev, isIo, x, err, tf, allowed))
    case SetFlags(d) => s.(dev := d)
    case TimerFires(c) => s.(p := s.p.(mid := SetPhase(s.p.mid, c, Expired)))
    case TimeoutRuns(c) => s.(p := s.p.(mid := EhScmdAdd(s.p.mid, c)))
    case Irq(t, err, tf) => if FromTag(s.p, t) then s.(p := FailComplete(s.p, t, err, false, tf)) else s
    // An error noted on a command that goes on running (ata_host_intr, busy after a DMA error).
    case IrqCharge(t, err) => s.(p := Charge(s.p, t, err))
    // A register with a bit that was not active is an HSM error: the driver freezes the port.
    case IrqMultiple(active, tf) =>
      var (p', rc) := CompleteMultiple(s.p, active, tf);
      s.(p := if rc.None? then PortFreeze(p', tf) else p')
    case IrqError(err, freeze, tf) =>
      s.(p := ErrorIntr(s.p, err, freeze, tf))
    case SchedulePortEh => s.(p := PortScheduleEh(s.p))
    case EhEnter => s.(p := SortOut(s.p), pc := Entered(ATA_EH_MAX_REPEAT))
    case EhFetch => s.(p := s.p.(ehPending := false), pc := Recovering(s.pc.left))
    case EhFreeze => s.(p := s.p.(frozen := true))
    case EhThaw => s.(p := s.p.(frozen := false))
    case EhAnalyze(t, err, sense, result) =>
      s.(p := SetQc(s.p, t, s.p.qcmd[t].(err := err, sense := sense, result := result)))
    case EhExec(ncq, err, tf) => ExecBegin(s, ncq, err, tf)
    case EhExecTimeout(tf) => s.(p := InternalTimeout(s.p, tf))
    case EhExecEnd => s.(p := InternalEnd(s.p, s.pc.before.regs), pc := Recovering(s.pc.left))
    case EhStartFinish => s.(pc := Finishing(s.pc.left, 0))
    case EhFinishOne =>
      s.(p := EhFinishTag(s.p, s.pc.next),
         pc := if s.pc.next + 1 == ATA_MAX_QUEUE then Leaving(s.pc.left) else Finishing(s.pc.left, s.pc.next + 1))
    case EhLeave =>
      if s.p.ehPending && s.pc.left > 1 then s.(pc := Entered(s.pc.left - 1))
      else s.(p := s.p.(ehScheduled := false), pc := Flushing)
    case EhFlush =>
      s.(p := s.p.(warned := s.p.warned || s.p.mid.hostFailed != 0 || s.p.mid.ehCmdQ != [], mid := FlushDoneQ(s.p.mid)),
         pc := Off)
  }

  // ---- the invariant of the whole system ----

  ghost predicate NoneActive(p: Port, n: nat)
    requires n <= |p.qcmd|
  {
    forall i: nat :: i < n ==> !p.qcmd[i].active
  }

  /** While an internal command is outstanding everything but its own slot is as it was. */
  ghost predicate Preempted(before: Port, p: Port) {
    && |before.qcmd| == |p.qcmd| == ATA_MAX_QUEUE
    && (forall i: nat :: i < ATA_TAG_INTERNAL ==> p.qcmd[i] == before.qcmd[i])
    && p.tags == before.tags + {ATA_TAG_INTERNAL}
    && p.mid == before.mid
    && p.qcmd[ATA_TAG_INTERNAL].serial == |before.life|
  }

  ghost predicate SysInv(s: Sys) {
    match s.pc
    case Off => Inv(s.p, false, None) && s.p.mid.ehDoneQ == [] && (s.p.regs.sactive != {} ==> UsesNcq(s.dev))
    case Waiting(_, before) => Inv(before, true, None) && Inv(s.p, true, Some(before.regs)) && Preempted(before, s.p)
    case Finishing(_, next) => Inv(s.p, true, None) && next < ATA_MAX_QUEUE && NoneActive(s.p, next)
    case Leaving(_) => Inv(s.p, true, None) && NoneActive(s.p, ATA_MAX_QUEUE)
    case Flushing => Inv(s.p, true, None) && NoneActive(s.p, ATA_MAX_QUEUE)
    case _ => Inv(s.p, true, None)
  }

  function Saved(s: Sys): Option<Regs> {
    if s.pc.Waiting? then Some(s.pc.before.regs) else None
  }

  lemma SysInvInv(s: Sys)
    requires SysInv(s)
    ensures Inv(s.p, !s.pc.Off?, Saved(s))
  {
  }

  lemma SysInvSane(s: Sys)
    requires SysInv(s)
    ensures Sane(s.p)
  {
    SysInvInv(s);
    InvActiveOwned(s.p, !s.pc.Off?, Saved(s));
  }

  // ---- steps of interrupts ----

  /** Interrupt work may change the port only through completions; what that means for each place
      the error handler can be in. */
  ghost predicate IrqEffect(p: Port, r: Port) {
    && |p.qcmd| == |r.qcmd| == ATA_MAX_QUEUE
    && (forall i: nat :: i < ATA_TAG_INTERNAL && !FromTag(p, i) ==> r.qcmd[i] == p.qcmd[i] && !FromTag(r, i))
    && r.tags <= p.tags
    && (AllFailed(p.qcmd, ATA_TAG_INTERNAL) ==> r.mid == p.mid)
    && r.mid.ehDoneQ == p.mid.ehDoneQ
    && r.regs.sactive <= p.regs.sactive
    && r.qcmd[ATA_TAG_INTERNAL].serial == p.qcmd[ATA_TAG_INTERNAL].serial
  }

  lemma IrqEffectKeeps(s: Sys, r: Port)
    requires SysInv(s) && Inv(r, !s.pc.Off?, Saved(s)) && IrqEffect(s.p, r)
    ensures SysInv(s.(p := r))
  {
    match s.pc
    case Waiting(_, before) =>
      forall i: nat | i < ATA_TAG_INTERNAL ensures r.qcmd[i] == before.qcmd[i] { assert !FromTag(s.p, i); }
      forall i: nat ensures i in r.tags <==> i in before.tags + {ATA_TAG_INTERNAL} {
        if i < ATA_TAG_INTERNAL { assert r.qcmd[i].active == before.qcmd[i].active; }
      }
      assert r.tags == before.tags + {ATA_TAG_INTERNAL};
    case _ =>
      forall i: nat | i < ATA_TAG_INTERNAL && !s.p.qcmd[i].active ensures !r.qcmd[i].active { assert !FromTag(s.p, i); }
  }

  lemma CompleteEffect(p: Port, ehOn: bool, saved: Option<Regs>, t: nat, err: ErrMask, force: bool, tf: ResultTf)
    requires Inv(p, ehOn, saved) && FromTag(p, t) && t < ATA_MAX_QUEUE && Owned(p, t)
    ensures IrqEffect(p, FailComplete(p, t, err, force, tf))
  {
    var r := FailComplete(p, t, err, force, tf);
    forall i: nat | i < ATA_TAG_INTERNAL && !FromTag(p, i) ensures r.qcmd[i] == p.qcmd[i] && !FromTag(r, i) {}
    if AllFailed(p.qcmd, ATA_TAG_INTERNAL) { assert t == ATA_TAG_INTERNAL; }
  }

  lemma EffectTrans(p: Port, q: Port, r: Port)
    requires IrqEffect(p, q) && IrqEffect(q, r)
    ensures IrqEffect(p, r)
  {
    forall i: nat | i < ATA_TAG_INTERNAL && !FromTag(p, i) ensures r.qcmd[i] == p.qcmd[i] && !FromTag(r, i) {
      assert !FromTag(q, i);
    }
    if AllFailed(p.qcmd, ATA_TAG_INTERNAL) {
      forall i: nat | i < ATA_TAG_INTERNAL && q.qcmd[i].active ensures q.qcmd[i].failed { assert !FromTag(p, i); }
    }
  }

  lemma EffectSelf(p: Port)
    requires |p.qcmd| == ATA_MAX_QUEUE
    ensures IrqEffect(p, p)
  {
  }

  lemma {:induction false} CompleteTagsEffect(p: Port, ehOn: bool, saved: Option<Regs>, done: set<nat>, n: nat, tf: ResultTf)
    requires Inv(p, ehOn, saved) && (saved.Some? ==> ehOn) && n <= ATA_MAX_QUEUE && ActiveOwned(p)
    ensures IrqEffect(p, CompleteTags(p, done, n, tf))
  {
    hide FailComplete, InvTags, InvRegs, InvQuiet, InvLink, InvMid, InvLife, IrqEffect;
    if n == 0 {
      EffectSelf(p);
    } else {
      CompleteTagsEffect(p, ehOn, saved, done, n - 1, tf);
      var q := CompleteTags(p, done, n - 1, tf);
      CompleteTagsKeeps(p, ehOn, saved, done, n - 1, tf);
      if n - 1 in done && FromTag(q, n - 1) {
        CompleteEffect(q, ehOn, saved, n - 1, {}, false, tf);
        EffectTrans(p, q, FailComplete(q, n - 1, {}, false, tf));
      }
    }
  }

  lemma {:induction false} AbortTagsEffect(p: Port, ehOn: bool, saved: Option<Regs>, n: nat, tf: ResultTf)
    requires Inv(p, ehOn, saved) && (saved.Some? ==> ehOn) && n <= ATA_MAX_QUEUE && ActiveOwned(p)
    ensures IrqEffect(p, AbortTags(p, n, tf))
  {
    hide FailComplete, InvTags, InvRegs, InvQuiet, InvLink, InvMid, InvLife, IrqEffect;
    if n == 0 {
      EffectSelf(p);
    } else {
      AbortTagsEffect(p, ehOn, saved, n - 1, tf);
      var q := AbortTags(p, n - 1, tf);
      AbortTagsKeeps(p, ehOn, saved, n - 1, tf);
      AbortStepEffect(p, q, AbortTags(p, n, tf), ehOn, saved, n - 1, tf);
    }
  }

  lemma AbortStepEffect(p: Port, q: Port, r: Port, ehOn: bool, saved: Option<Regs>, t: nat, tf: ResultTf)
    requires IrqEffect(p, q) && Inv(q, ehOn, saved) && ActiveOwned(q) && t < ATA_MAX_QUEUE
    requires if FromTag(q, t) then Owned(q, t) && r == FailComplete(q, t, {}, true, tf) else r == q
    ensures IrqEffect(p, r)
  {
    hide FailComplete, Inv, IrqEffect;
    if FromTag(q, t) {
      CompleteEffect(q, ehOn, saved, t, {}, true, tf);
      EffectTrans(p, q, r);
    }
  }

  lemma ChargeKeeps(p: Port, ehOn: bool, saved: Option<Regs>, t: nat, err: ErrMask)
    requires Inv(p, ehOn, saved) && (saved.Some? ==> ehOn) && ActiveOwned(p)
    ensures Inv(Charge(p, t, err), ehOn, saved) && IrqEffect(p, Charge(p, t, err))
  {
    if FromTag(p, t) { ChargeParts(p, ehOn, saved, t, p.qcmd[t].(err := p.qcmd[t].err + err)); }
  }

  lemma ChargeParts(p: Port, ehOn: bool, saved: Option<Regs>, t: nat, qc: Qc)
    requires Inv(p, ehOn, saved) && (saved.Some? ==> ehOn) && FromTag(p, t) && qc == p.qcmd[t].(err := qc.err)
    ensures Inv(SetQc(p, t, qc), ehOn, saved) && IrqEffect(p, SetQc(p, t, qc))
  {
    var r := SetQc(p, t, qc);
    LifeSame(p.qcmd, r.qcmd, p.tags, p.life);
    if t == ATA_TAG_INTERNAL {
      LinkInternal(p.qcmd, r.qcmd, p.mid.scmds, saved.Some?, saved.Some?, ehOn);
    } else {
      assert Linked(p.qcmd, p.mid.scmds, t);
      LinkSame(p.qcmd, r.qcmd, p.mid.scmds, saved.Some?, ehOn, t);
    }
    match saved
    case None => RegsSame(p.regs, p.qcmd, r.qcmd, 0, ATA_MAX_QUEUE);
    case Some(s) =>
      RegsSame(s, p.qcmd, r.qcmd, 0, ATA_TAG_INTERNAL);
      RegsSame(p.regs, p.qcmd, r.qcmd, ATA_TAG_INTERNAL, ATA_MAX_QUEUE);
  }

  lemma LinkSame(q: Qcs, q': Qcs, s: seq<Scmd>, internal: bool, ehOn: bool, t: nat)
    requires InvLink(q, s, internal, ehOn) && t < ATA_TAG_INTERNAL && q' == q[t := q[t].(err := q'[t].err)]
    ensures InvLink(q', s, internal, ehOn)
  {
    forall i: nat | i < ATA_TAG_INTERNAL ensures Linked(q', s, i) { assert Linked(q, s, i); }
    forall d: nat | d < |s| && (s[d].phase == Armed || (ehOn && s[d].phase == OnEhQ)) ensures HasQc(q', s, d) {
      assert HasQc(q, s, d);
    }
  }

  lemma IrqKeeps(s: Sys, t: nat, err: ErrMask, tf: ResultTf)
    requires SysInv(s) && Sane(s.p)
    ensures SysInv(Next(s, Irq(t, err, tf)))
  {
    hide FailComplete, Inv, IrqEffect, SysInv;
    if FromTag(s.p, t) {
      SysInvInv(s);
      CompleteKeeps(s.p, !s.pc.Off?, Saved(s), t, err, false, tf);
      CompleteEffect(s.p, !s.pc.Off?, Saved(s), t, err, false, tf);
      IrqEffectKeeps(s, FailComplete(s.p, t, err, false, tf));
    }
  }

  lemma IrqChargeKeeps(s: Sys, t: nat, err: ErrMask)
    requires SysInv(s) && Sane(s.p)
    ensures SysInv(Next(s, IrqCharge(t, err)))
  {
    hide Charge, Inv, IrqEffect, SysInv;
    SysInvInv(s);
    ChargeKeeps(s.p, !s.pc.Off?, Saved(s), t, err);
    IrqEffectKeeps(s, Charge(s.p, t, err));
  }

  lemma IrqMultipleKeeps(s: Sys, active: set<nat>, tf: ResultTf)
    requires SysInv(s) && Sane(s.p)
    ensures SysInv(Next(s, IrqMultiple(active, tf)))
  {
    hide CompleteTags, PortFreeze, Inv, IrqEffect, SysInv;
    SysInvInv(s);
    var done := (s.p.regs.qcActive - active) + (active - s.p.regs.qcActive);
    if done * active == {} {
      CompleteTagsKeeps(s.p, !s.pc.Off?, Saved(s), done, ATA_MAX_QUEUE, tf);
      CompleteTagsEffect(s.p, !s.pc.Off?, Saved(s), done, ATA_MAX_QUEUE, tf);
      IrqEffectKeeps(s, CompleteTags(s.p, done, ATA_MAX_QUEUE, tf));
    } else {
      AbortOrFreezeEffect(s.p, !s.pc.Off?, Saved(s), true, tf);
      IrqEffectKeeps(s, PortFreeze(s.p, tf));
    }
  }

  lemma AbortOrFreezeEffect(p: Port, ehOn: bool, saved: Option<Regs>, freeze: bool, tf: ResultTf)
    requires Inv(p, ehOn, saved) && (saved.Some? ==> ehOn) && ActiveOwned(p)
    ensures var r := if freeze then PortFreeze(p, tf) else PortAbort(p, tf);
            Inv(r, ehOn, saved) && IrqEffect(p, r)
  {
    AbortKeeps(p, ehOn, saved, tf);
    FreezeKeeps(p, ehOn, saved, tf);
    AbortTagsEffect(p, ehOn, saved, ATA_MAX_QUEUE, tf);
    EffectOfSame(p, AbortTags(p, ATA_MAX_QUEUE, tf), PortAbort(p, tf));
    EffectOfSame(p, AbortTags(p, ATA_MAX_QUEUE, tf), PortFreeze(p, tf));
  }

  lemma EffectOfSame(p: Port, q: Port, r: Port)
    requires IrqEffect(p, q) && r.qcmd == q.qcmd && r.tags == q.tags && r.mid == q.mid && r.regs == q.regs
    ensures IrqEffect(p, r)
  {
    assert forall i: nat :: FromTag(r, i) == FromTag(q, i);
  }

  lemma ErrorIntrKeeps(p: Port, ehOn: bool, saved: Option<Regs>, err: ErrMask, freeze: bool, tf: ResultTf)
    requires Inv(p, ehOn, saved) && (saved.Some? ==> ehOn) && ActiveOwned(p)
    ensures Inv(ErrorIntr(p, err, freeze, tf), ehOn, saved) && IrqEffect(p, ErrorIntr(p, err, freeze, tf))
  {
    var q := Charge(p, p.regs.activeTag, err);
    ChargeKeeps(p, ehOn, saved, p.regs.activeTag, err);
    AbortOrFreezeEffect(q, ehOn, saved, freeze, tf);
    EffectTrans(p, q, ErrorIntr(p, err, freeze, tf));
  }

  lemma IrqErrorKeeps(s: Sys, err: ErrMask, freeze: bool, tf: ResultTf)
    requires SysInv(s) && Sane(s.p)
    ensures SysInv(Next(s, IrqError(err, freeze, tf)))
  {
    hide ErrorIntr, IrqEffect, Inv;
    SysInvInv(s);
    ErrorIntrKeeps(s.p, !s.pc.Off?, Saved(s), err, freeze, tf);
    IrqEffectKeeps(s, ErrorIntr(s.p, err, freeze, tf));
  }

  // ---- steps of the midlayer and its timers ----

  lemma QueueKeeps(s: Sys, isIo: bool, x: Xlat, err: ErrMask, tf: ResultTf, allowed: nat)
    requires SysInv(s) && Enabled(s, Queue(isIo, x, err, tf, allowed))
    ensures SysInv(Next(s, Queue(isIo, x, err, tf, allowed)))
  {
    TranslateKeeps(s.p, s.dev, isIo, x, err, tf, allowed);
    TranslateParts(s.p, s.dev, isIo, x, err, tf, allowed);
  }

  /** Translation starts an NCQ command only for a device that uses NCQ, and moves nothing to
      eh_done_q. */
  lemma TranslateParts(p: Port, d: DevFlags, isIo: bool, x: Xlat, err: ErrMask, tf: ResultTf, allowed: nat)
    requires Inv(p, false, None) && (p.regs.sactive != {} ==> UsesNcq(d))
    ensures var r := Translate(p, d, isIo, x, err, tf, allowed);
            r.mid.ehDoneQ == p.mid.ehDoneQ && (r.regs.sactive != {} ==> UsesNcq(d))
  {
    if !NeedDefer(d, p.regs, isIo) && QcNewTag(p).Some? {
      FirstFreeIsFree(p.tags, 0);
      var t := QcNewTag(p).value;
      if x == Early {
        BounceKeeps(p, t, allowed);
      } else {
        IssuedShape(p, t, isIo && UsesNcq(d), allowed);
        var q := Issued(p, t, isIo && UsesNcq(d), allowed);
        assert OnlyTag(q, if err == {} then q else FailComplete(q, t, err, false, tf), t);
      }
    }
  }

  lemma TimersKeep(s: Sys, c: nat)
    requires SysInv(s) && Sane(s.p)
    ensures Enabled(s, TimerFires(c)) ==> SysInv(Next(s, TimerFires(c)))
    ensures Enabled(s, TimeoutRuns(c)) ==> SysInv(Next(s, TimeoutRuns(c)))
  {
    SysInvInv(s);
    if Enabled(s, TimerFires(c)) { TimerKeeps(s.p, c); }
    if Enabled(s, TimeoutRuns(c)) { TimeoutKeeps(s.p, c); }
  }

  // ---- steps of the error handler ----

  lemma EnterKeeps(s: Sys)
    requires SysInv(s) && Enabled(s, EhEnter)
    ensures SysInv(Next(s, EhEnter))
  {
    SortOutKeeps(s.p);
  }

  lemma FreezeThawKeep(s: Sys)
    requires SysInv(s) && s.pc.Recovering?
    ensures SysInv(s.(p := s.p.(frozen := true))) && SysInv(s.(p := s.p.(frozen := false)))
  {
    assert AllFailed(s.p.qcmd, ATA_MAX_QUEUE);
  }

  lemma ExecKeeps(s: Sys, ncq: bool, err: ErrMask, tf: ResultTf)
    requires SysInv(s) && s.pc.Recovering?
    ensures SysInv(ExecBegin(s, ncq, err, tf))
  {
    if !s.p.frozen {
      InternalBeginKeeps(s.p, ncq, err, tf);
      InternalBeginShape(s.p, ncq);
      var a := Activate(InternalBegin(s.p), ATA_TAG_INTERNAL, ncq);
      var r := QcIssue(InternalBegin(s.p), ATA_TAG_INTERNAL, ncq, err, tf);
      assert OnlyTag(a, r, ATA_TAG_INTERNAL) && r.mid == a.mid;
      if err != {} { SerialStays(a, ATA_TAG_INTERNAL, err, tf); }
      ExecPreempts(s.p, a, r);
    }
  }

  /** Completing a command does not change which allocation it is. */
  lemma SerialStays(p: Port, t: nat, err: ErrMask, tf: ResultTf)
    requires Owned(p, t)
    ensures FailComplete(p, t, err, false, tf).qcmd[t].serial == p.qcmd[t].serial
  {
    hide OnlyTag, ScheduleEh, RawComplete;
    var q := SetQc(p, t, p.qcmd[t].(err := p.qcmd[t].err + err, failed := p.qcmd[t].failed || false));
    var failed := q.qcmd[t].failed || q.qcmd[t].err != {};
    var q' := SetQc(q, t, q.qcmd[t].(failed := failed, result := tf)).(warned := q.warned || q.frozen);
    EndSerial(q', t);
  }

  lemma EndSerial(p: Port, t: nat)
    requires Owned(p, t)
    ensures ScheduleEh(p, t).qcmd[t].serial == p.qcmd[t].serial
    ensures |RawComplete(p, t).qcmd| == |p.qcmd| && RawComplete(p, t).qcmd[t].serial == p.qcmd[t].serial
  {
    hide OnlyTag, MidDone, ReqAbort;
  }

  lemma ExecPreempts(p: Port, a: Port, r: Port)
    requires Inv(p, true, None) && Inv(r, true, Some(p.regs)) && a.mid == p.mid && OnlyTag(a, r, ATA_TAG_INTERNAL) && r.mid == a.mid
    requires |a.qcmd| == ATA_MAX_QUEUE && (forall i: nat :: i < ATA_TAG_INTERNAL ==> a.qcmd[i] == p.qcmd[i])
    requires a.tags == p.tags + {ATA_TAG_INTERNAL} && r.qcmd[ATA_TAG_INTERNAL].serial == |p.life|
    ensures Preempted(p, r)
  {
    assert r.tags == p.tags + {ATA_TAG_INTERNAL};
  }

  lemma TimeoutEffect(p: Port, saved: Regs, tf: ResultTf)
    requires Inv(p, true, Some(saved)) && ActiveOwned(p)
    ensures IrqEffect(p, InternalTimeout(p, tf))
  {
    hide PortFreeze, IrqEffect;
    EffectSelf(p);
    var qc := p.qcmd[ATA_TAG_INTERNAL];
    if qc.active {
      var q := Charge(p, ATA_TAG_INTERNAL, {Timeout});
      assert q == SetQc(p, ATA_TAG_INTERNAL, qc.(err := qc.err + {Timeout}));
      ChargeKeeps(p, true, Some(saved), ATA_TAG_INTERNAL, {Timeout});
      AbortOrFreezeEffect(q, true, Some(saved), true, tf);
      EffectTrans(p, q, PortFreeze(q, tf));
    }
  }

  lemma ExecTimeoutKeeps(s: Sys, tf: ResultTf)
    requires SysInv(s) && s.pc.Waiting? && Sane(s.p)
    ensures SysInv(Next(s, EhExecTimeout(tf)))
  {
    hide InternalTimeout, IrqEffect, Inv;
    SysInvInv(s);
    InternalTimeoutKeeps(s.p, s.pc.before.regs, tf);
    TimeoutEffect(s.p, s.pc.before.regs, tf);
    IrqEffectKeeps(s, InternalTimeout(s.p, tf));
  }

  lemma ExecEndKeeps(s: Sys)
    requires SysInv(s) && Enabled(s, EhExecEnd)
    ensures SysInv(Next(s, EhExecEnd))
    ensures var r := Next(s, EhExecEnd).p;
            var before := s.pc.before;
            && r.regs == before.regs && r.tags == before.tags && r.mid == before.mid
            && (forall i: nat :: i < ATA_TAG_INTERNAL ==> r.qcmd[i] == before.qcmd[i])
  {
    InternalEndKeeps(s.p, s.pc.before.regs);
    assert ATA_TAG_INTERNAL !in s.pc.before.tags;
  }

  lemma FinishOneKeeps(s: Sys)
    requires SysInv(s) && Enabled(s, EhFinishOne)
    ensures SysInv(Next(s, EhFinishOne))
  {
    EhFinishTagKeeps(s.p, s.pc.next);
  }

  lemma EhFlushKeeps(s: Sys)
    requires SysInv(s) && Enabled(s, EhFlush)
    ensures SysInv(Next(s, EhFlush))
  {
    NothingLeft(s.p);
    FlushKeeps(s.p);
  }

  lemma AnalyzeKeeps(s: Sys, t: nat, err: ErrMask, sense: bool, result: ResultTf)
    requires SysInv(s) && Enabled(s, EhAnalyze(t, err, sense, result))
    ensures SysInv(Next(s, EhAnalyze(t, err, sense, result)))
  {
    RewriteKeeps(s.p, t, s.p.qcmd[t].(err := err, sense := sense, result := result));
  }

  /** Every step keeps the invariant. */
  lemma StepKeeps(s: Sys, st: Step)
    requires SysInv(s) && Enabled(s, st)
    ensures SysInv(Next(s, st))
  {
    match st
    case Queue(isIo, x, err, tf, allowed) => QueueKeeps(s, isIo, x, err, tf, allowed);
    case SetFlags(_) =>
    case TimerFires(c) => TimersKeep(s, c);
    case TimeoutRuns(c) => TimersKeep(s, c);
    case Irq(t, err, tf) => IrqKeeps(s, t, err, tf);
    case IrqCharge(t, err) => IrqChargeKeeps(s, t, err);
    case IrqMultiple(active, tf) => IrqMultipleKeeps(s, active, tf);
    case IrqError(err, freeze, tf) => IrqErrorKeeps(s, err, freeze, tf);
    case SchedulePortEh =>
    case EhEnter => EnterKeeps(s);
    case EhFetch =>
    case EhFreeze => FreezeThawKeep(s);
    case EhThaw => FreezeThawKeep(s);
    case EhAnalyze(t, err, sense, result) => AnalyzeKeeps(s, t, err, sense, result);
    case EhExec(ncq, err, tf) => ExecKeeps(s, ncq, err, tf);
    case EhExecTimeout(tf) => ExecTimeoutKeeps(s, tf);
    case EhExecEnd => ExecEndKeeps(s);
    case EhStartFinish =>
    case EhFinishOne => FinishOneKeeps(s);
    case EhLeave =>
    case EhFlush => EhFlushKeeps(s);
  }
}
