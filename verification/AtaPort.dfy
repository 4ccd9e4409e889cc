/**
 The port as the source has it: a structure with an array of 32 queued commands, updated in
 place.  Every method is proved against the function of PortModel that describes it.
 */
module AtaPort {
  import opened Ata
  import opened PortModel
  import PortPreserve

  class Ap {
    const qcmd: array<Qc>
    var qcAllocated: set<nat>
    var qcActive: set<nat>
    var activeTag: nat
    var sactive: set<nat>
    var frozen: bool
    var ehPending: bool
    var ehScheduled: bool
    var mid: Mid
    var life: seq<Life>
    var warned: bool

    ghost function State(): Port
      reads this, qcmd
    {
      Port(qcmd[..], qcAllocated, Regs(activeTag, sactive, qcActive), frozen, ehPending, ehScheduled, mid, life, warned)
    }

    ghost predicate Valid()
      reads this, qcmd
    {
      qcmd.Length == ATA_MAX_QUEUE && WellFormed(State())
    }

    constructor ()
      ensures Valid() && fresh(qcmd)
      ensures qcAllocated == {} && State().regs == IDLE_REGS && mid == Mid([], [], [], 0) && life == [] && !warned
      ensures forall i: nat :: i < ATA_MAX_QUEUE ==> !State().qcmd[i].active && !State().qcmd[i].failed
    {
      qcmd := new Qc[ATA_MAX_QUEUE](_ => Qc(0, false, false, false, false, {}, None, ScsiDone, 0, TF_ZERO));
      qcAllocated, qcActive, sactive, activeTag := {}, {}, {}, ATA_TAG_POISON;
      frozen, ehPending, ehScheduled := false, false, false;
      mid, life, warned := Mid([], [], [], 0), [], false;
    }

    /** ata_qc_from_tag. */
    predicate Live(t: nat)
      requires t < qcmd.Length
      reads this, qcmd
    {
      qcmd[t].active && !qcmd[t].failed
    }

    /** ata_qc_new and ata_qc_new_init: the lowest free tag, none while frozen. */
    method QcNew(scsicmd: Option<nat>) returns (tag: Option<nat>)
      requires Valid() && (scsicmd.Some? ==> scsicmd.value < |mid.scmds|)
      modifies this, qcmd
      ensures Valid() && tag == QcNewTag(old(State()))
      ensures tag.None? ==> State() == old(State())
      ensures tag.Some? ==> tag.value < ATA_TAG_INTERNAL && tag.value !in old(qcAllocated)
                            && State() == QcTake(old(State()), tag.value, scsicmd)
    {
      tag := None;
      if !frozen {
        var i := 0;
        while i < ATA_TAG_INTERNAL && i in qcAllocated
          invariant 0 <= i <= ATA_TAG_INTERNAL
          invariant FirstFree(qcAllocated, 0) == FirstFree(qcAllocated, i)
        {
          i := i + 1;
        }
        if i < ATA_TAG_INTERNAL {
          qcAllocated := qcAllocated + {i};
          tag := Some(i);
          qcmd[i] := Qc(i, false, false, false, false, {}, scsicmd, ScsiDone, |life|, TF_CLEAN);
          life := life + [Life(i, false, 0, 0)];
        }
      }
    }

    /** ata_qc_free. */
    method QcFree(t: nat)
      requires Valid() && Owned(State(), t)
      modifies this, qcmd
      ensures Valid() && State() == PortModel.QcFree(old(State()), t)
    {
      var n := qcmd[t].serial;
      qcmd[t] := qcmd[t].(active := false, failed := false, sense := false, tag := ATA_TAG_POISON);
      qcAllocated := qcAllocated - {t};
      life := life[n := life[n].(frees := life[n].frees + 1)];
    }

    /** complete_fn of a SCSI command (ata_scsi_qc_complete) or of the internal one. */
    method CompleteFn(t: nat)
      requires Valid() && Owned(State(), t)
      modifies this, qcmd
      ensures Valid() && State() == PortModel.CompleteFn(old(State()), t)
    {
      match qcmd[t].scsicmd
      case None =>
      case Some(c) =>
        if qcmd[t].done == ScsiDone { mid := MidDone(mid, c); }
        QcFree(t);
    }

    /** __ata_qc_complete. */
    method RawComplete(t: nat)
      requires Valid() && Owned(State(), t)
      modifies this, qcmd
      ensures Valid() && State() == PortModel.RawComplete(old(State()), t)
    {
      warned := warned || !qcmd[t].active;
      if qcmd[t].ncq { sactive := sactive - {t}; } else { activeTag := ATA_TAG_POISON; }
      var n := qcmd[t].serial;
      qcmd[t] := qcmd[t].(active := false);
      qcActive := qcActive - {t};
      life := life[n := life[n].(completions := life[n].completions + 1)];
      assert State() == Deactivate(old(State()), t);
      CompleteFn(t);
    }

    /** ata_qc_schedule_eh. */
    method ScheduleEh(t: nat)
      requires Valid() && Owned(State(), t)
      modifies this, qcmd
      ensures Valid() && State() == PortModel.ScheduleEh(old(State()), t)
    {
      qcmd[t] := qcmd[t].(failed := true);
      ehPending := true;
      match qcmd[t].scsicmd
      case None =>
      case Some(c) => mid := ReqAbort(mid, c);
    }

    /** ata_qc_complete. */
    method QcComplete(t: nat, tf: ResultTf)
      requires Valid() && Owned(State(), t)
      modifies this, qcmd
      ensures Valid() && State() == PortModel.QcComplete(old(State()), t, tf)
    {
      hide PortModel.ScheduleEh, PortModel.RawComplete, OnlyTag, WellFormed;
      ghost var p := State();
      var failed := qcmd[t].failed || qcmd[t].err != {};
      ghost var qc := qcmd[t].(failed := failed, result := tf);
      SetQcOwned(p, t, qc);
      warned := warned || frozen;
      qcmd[t] := qcmd[t].(failed := failed, result := tf);
      assert State() == SetQc(p, t, qc).(warned := p.warned || p.frozen);
      if failed && t != ATA_TAG_INTERNAL { ScheduleEh(t); } else { RawComplete(t); }
    }

    /** The interrupt side's way of finishing a command: note errors, then ata_qc_complete. */
    method Finish(t: nat, err: ErrMask, force: bool, tf: ResultTf)
      requires Valid() && Owned(State(), t)
      modifies this, qcmd
      ensures Valid() && State() == FailComplete(old(State()), t, err, force, tf)
    {
      qcmd[t] := qcmd[t].(err := qcmd[t].err + err, failed := qcmd[t].failed || force);
      assert State() == SetQc(old(State()), t, old(State()).qcmd[t].(err := old(qcmd[t].err) + err, failed := old(qcmd[t].failed) || force));
      QcComplete(t, tf);
    }

    /** ata_qc_complete_multiple: None is -EINVAL. */
    method CompleteMultiple(active: set<nat>, tf: ResultTf) returns (nrDone: Option<nat>)
      requires Valid() && ActiveOwned(State())
      modifies this, qcmd
      ensures Valid() && (State(), nrDone) == PortModel.CompleteMultiple(old(State()), active, tf)
    {
      hide FailComplete, WellFormed, OnlyTag;
      ghost var p := State();
      var done := (qcActive - active) + (active - qcActive);
      if done * active != {} { return None; }
      var n, i := 0, 0;
      while i < ATA_MAX_QUEUE
        invariant i <= ATA_MAX_QUEUE && qcmd.Length == ATA_MAX_QUEUE
        invariant State() == CompleteTags(p, done, i, tf) && n == CountFromTag(p, done, i)
        invariant Valid() && ActiveOwned(State())
      {
        LaterUntouched(p, done, i, tf);
        if i in done && Live(i) {
          Finish(i, {}, false, tf);
          n := n + 1;
        }
        i := i + 1;
      }
      return Some(n);
    }

    /** ata_port_schedule_eh. */
    method PortScheduleEh()
      requires Valid()
      modifies this
      ensures Valid() && State() == PortModel.PortScheduleEh(old(State()))
    {
      ehPending, ehScheduled := true, true;
    }

    /** ata_port_abort. */
    method PortAbort(tf: ResultTf) returns (nrAborted: nat)
      requires Valid() && ActiveOwned(State())
      modifies this, qcmd
      ensures Valid() && State() == PortModel.PortAbort(old(State()), tf)
      ensures nrAborted == CountFromTag(old(State()), old(qcAllocated), ATA_MAX_QUEUE)
    {
      hide FailComplete, OnlyTag, WellFormed;
      ghost var p := State();
      nrAborted := 0;
      var tag := 0;
      while tag < ATA_MAX_QUEUE
        invariant tag <= ATA_MAX_QUEUE && qcmd.Length == ATA_MAX_QUEUE
        invariant State() == AbortTags(p, tag, tf) && nrAborted == CountFromTag(p, p.tags, tag)
        invariant Valid() && ActiveOwned(State())
        invariant nrAborted > 0 <==> exists t: nat :: t < tag && FromTag(p, t)
      {
        PortPreserve.AbortTagsGone(p, tag, tf);
        if Live(tag) {
          Finish(tag, {}, true, tf);
          nrAborted := nrAborted + 1;
        }
        tag := tag + 1;
      }
      if nrAborted == 0 { PortScheduleEh(); }
    }

    /** ata_port_freeze. */
    method PortFreeze(tf: ResultTf) returns (nrAborted: nat)
      requires Valid() && ActiveOwned(State())
      modifies this, qcmd
      ensures Valid() && State() == PortModel.PortFreeze(old(State()), tf)
    {
      nrAborted := PortAbort(tf);
      frozen := true;
    }

    /** ata_qc_issue. */
    method QcIssue(t: nat, ncq: bool, mapOk: bool, issueErr: ErrMask, tf: ResultTf)
      requires Valid() && Owned(State(), t) && qcmd[t].err == {}
      modifies this, qcmd
      ensures Valid() && State() == PortModel.QcIssue(old(State()), t, ncq, IssueErr(mapOk, issueErr), tf)
    {
      hide FailComplete, OnlyTag;
      warned := warned || TagValid(activeTag);
      if ncq {
        warned := warned || t in sactive;
        sactive := sactive + {t};
      } else {
        warned := warned || sactive != {};
        activeTag := t;
      }
      var n := qcmd[t].serial;
      qcmd[t] := qcmd[t].(active := true, ncq := ncq);
      qcActive := qcActive + {t};
      life := life[n := life[n].(issued := true)];
      assert State() == Activate(old(State()), t, ncq);
      if !mapOk {
        Finish(t, {System}, false, tf);
      } else if issueErr != {} {
        Finish(t, issueErr, false, tf);
      }
    }

    /** ata_scsi_translate; None means the midlayer is asked to try again later. */
    method Translate(d: DevFlags, isIo: bool, x: Xlat, mapOk: bool, issueErr: ErrMask, tf: ResultTf, allowed: nat)
      returns (deferred: bool)
      requires Valid()
      modifies this, qcmd
      ensures deferred == NeedDefer(d, old(State()).regs, isIo)
      ensures State() == PortModel.Translate(old(State()), d, isIo, x, IssueErr(mapOk, issueErr), tf, allowed)
      ensures Valid()
    {
      hide PortModel.QcIssue, PortModel.QcFree, QcTake, NeedDefer, OnlyTag, WellFormed;
      deferred := NeedDefer(d, Regs(activeTag, sactive, qcActive), isIo);
      if deferred { return; }
      var c := |mid.scmds|;
      // The midlayer's record of the command carries the tag its qc is about to get.
      var willGet := if frozen then None else FirstFree(qcAllocated, 0);
      mid := mid.(scmds := mid.scmds + [Scmd(Armed, if willGet.Some? then willGet.value else ATA_TAG_POISON, 0, 0, allowed)]);
      assert State() == StartScmd(old(State()), if willGet.Some? then willGet.value else ATA_TAG_POISON, allowed);
      var tag := QcNew(Some(c));
      match tag
      case None => mid := MidDone(mid, c);
      case Some(t) =>
        TakeFacts(StartScmd(old(State()), t, allowed), t, Some(c));
        if x == Early {
          QcFree(t);
          mid := MidDone(mid, c);
        } else {
          QcIssue(t, isIo && UsesNcq(d), mapOk, issueErr, tf);
        }
    }

    /** One command of eh_cmd_q: look for its qc; late is whether it has just been timed out. */
    method SortOutOne(c: nat) returns (late: bool)
      requires Valid() && c < |mid.scmds|
      modifies this, qcmd
      ensures Valid() && State() == PortModel.SortOutOne(old(State()), c) && late == TimedOut(old(State()), c)
      ensures |mid.scmds| == old(|mid.scmds|)
    {
      hide EhFinishCmd, SetRetries, OnlyTag;
      ghost var s := State();
      var i := 0;
      while i < ATA_MAX_QUEUE && !(qcmd[i].active && qcmd[i].scsicmd == Some(c))
        invariant i <= ATA_MAX_QUEUE && FindQc(s, c, 0) == FindQc(s, c, i)
      {
        i := i + 1;
      }
      late := false;
      if i < ATA_MAX_QUEUE {
        assert FindQc(s, c, 0) == Some(i);
        if !qcmd[i].failed {
          qcmd[i] := qcmd[i].(err := qcmd[i].err + {Timeout}, failed := true);
          late := true;
          assert State().qcmd == s.qcmd[i := s.qcmd[i].(err := s.qcmd[i].err + {Timeout}, failed := true)];
        }
      } else {
        mid := EhFinishCmd(SetRetries(mid, c, mid.scmds[c].allowed), c);
      }
    }

    /** Timeout sort-out on entry to the error handler (ata_scsi_error). */
    method SortOut()
      requires Valid() && forall c :: c in mid.ehCmdQ ==> c < |mid.scmds|
      modifies this, qcmd
      ensures Valid() && State() == PortModel.SortOut(old(State()))
    {
      hide PortModel.SortOutOne, TimedOut;
      ghost var p := State();
      var q := mid.ehCmdQ;
      var nrTimedout, k := 0, 0;
      while k < |q|
        invariant k <= |q| && qcmd.Length == ATA_MAX_QUEUE
        invariant (State(), nrTimedout) == SortOutQ(p, q, k)
        invariant Valid() && |mid.scmds| == |p.mid.scmds|
      {
        assert q[k] in q;
        var late := SortOutOne(q[k]);
        if late { nrTimedout := nrTimedout + 1; }
        k := k + 1;
      }
      if nrTimedout > 0 { frozen := true; }
    }

    /** __ata_eh_qc_complete. */
    method EhRawComplete(t: nat)
      requires Valid() && Owned(State(), t)
      modifies this, qcmd
      ensures Valid() && State() == PortModel.EhRawComplete(old(State()), t)
    {
      var scmd := qcmd[t].scsicmd;
      qcmd[t] := qcmd[t].(done := EhScsiDone);
      assert State() == SetQc(old(State()), t, old(State()).qcmd[t].(done := EhScsiDone));
      RawComplete(t);
      if scmd.Some? {
        warned := warned || TagValid(qcmd[t].tag);
        mid := EhFinishCmd(mid, scmd.value);
      }
    }

    /** ata_eh_finish: retry or finish every failed command. */
    method EhFinish()
      requires Valid() && FailedOwned(State())
      modifies this, qcmd
      ensures Valid() && State() == EhFinishTags(old(State()), ATA_MAX_QUEUE)
    {
      hide PortModel.EhRawComplete, FinishPrep;
      ghost var p := State();
      var tag := 0;
      while tag < ATA_MAX_QUEUE
        invariant tag <= ATA_MAX_QUEUE && qcmd.Length == ATA_MAX_QUEUE
        invariant State() == EhFinishTags(p, tag)
        invariant Valid() && FailedOwned(State())
      {
        if qcmd[tag].failed {
          assert State().qcmd[tag].failed;
          FinishTag(tag);
        }
        tag := tag + 1;
      }
    }

    /** One failed command of ata_eh_finish (ata_eh_qc_complete or ata_eh_qc_retry). */
    method FinishTag(t: nat)
      requires Valid() && Owned(State(), t)
      modifies this, qcmd
      ensures Valid() && State() == PortModel.EhRawComplete(FinishPrep(old(State()), t), t)
    {
      hide PortModel.EhRawComplete, FinishPrep, SetRetries;
      ghost var p := State();
      var qc := qcmd[t];
      if qc.scsicmd.Some? {
        var c := qc.scsicmd.value;
        if Invalid in qc.err || (qc.err == {} && qc.sense) {
          mid := SetRetries(mid, c, mid.scmds[c].allowed);
        } else if qc.err == {} && mid.scmds[c].retries > 0 {
          mid := SetRetries(mid, c, mid.scmds[c].retries - 1);
        }
      }
      if qc.err == {} && !qc.sense { qcmd[t] := qcmd[t].(result := TF_ZERO); }
      PrepIs(p, State(), t);
      EhRawComplete(t);
    }

    /** ata_exec_internal up to the wait.  None: no command is issued, because the port is frozen
        (AC_ERR_SYSTEM) or the internal tag is taken (BUG). */
    method InternalBegin(ncq: bool, mapOk: bool, issueErr: ErrMask, tf: ResultTf) returns (saved: Option<Regs>)
      requires Valid()
      modifies this, qcmd
      ensures Valid() && (saved.Some? <==> !old(frozen) && ATA_TAG_INTERNAL !in old(qcAllocated))
      ensures saved.None? ==> State() == old(State()).(warned := old(warned) || !old(frozen))
      ensures saved.Some? ==>
                saved.value == old(State()).regs
                && State() == PortModel.QcIssue(PortModel.InternalBegin(old(State())), ATA_TAG_INTERNAL, ncq, IssueErr(mapOk, issueErr), tf)
    {
      if frozen { return None; }
      if ATA_TAG_INTERNAL in qcAllocated {
        warned := true;
        return None;
      }
      qcAllocated := qcAllocated + {ATA_TAG_INTERNAL};
      qcmd[ATA_TAG_INTERNAL] := Qc(ATA_TAG_INTERNAL, false, false, false, false, {}, None, ScsiDone, |life|, TF_CLEAN);
      life := life + [Life(ATA_TAG_INTERNAL, false, 0, 0)];
      saved := Some(Regs(activeTag, sactive, qcActive));
      activeTag, sactive, qcActive := ATA_TAG_POISON, {}, {};
      assert State() == PortModel.InternalBegin(old(State()));
      QcIssue(ATA_TAG_INTERNAL, ncq, mapOk, issueErr, tf);
    }

    /** The timeout branch of ata_exec_internal. */
    method InternalTimeout(tf: ResultTf)
      requires Valid() && ActiveOwned(State())
      modifies this, qcmd
      ensures Valid() && State() == PortModel.InternalTimeout(old(State()), tf)
    {
      if qcmd[ATA_TAG_INTERNAL].active {
        ghost var p := State();
        qcmd[ATA_TAG_INTERNAL] := qcmd[ATA_TAG_INTERNAL].(err := qcmd[ATA_TAG_INTERNAL].err + {Timeout});
        assert State() == SetQc(p, ATA_TAG_INTERNAL, p.qcmd[ATA_TAG_INTERNAL].(err := p.qcmd[ATA_TAG_INTERNAL].err + {Timeout}));
        var _ := PortFreeze(tf);
      }
    }

    /** The end of ata_exec_internal. */
    method InternalEnd(saved: Regs) returns (err: ErrMask)
      requires Valid() && Owned(State(), ATA_TAG_INTERNAL)
      modifies this, qcmd
      ensures Valid() && State() == PortModel.InternalEnd(old(State()), saved)
      ensures err == (if old(qcmd[ATA_TAG_INTERNAL].failed) && old(qcmd[ATA_TAG_INTERNAL].err) == {} then {Other}
                      else old(qcmd[ATA_TAG_INTERNAL].err))
    {
      err := qcmd[ATA_TAG_INTERNAL].err;
      // An internal command that was aborted must not look successful.
      if qcmd[ATA_TAG_INTERNAL].failed && err == {} { err := {Other}; }
      QcFree(ATA_TAG_INTERNAL);
      activeTag, sactive, qcActive := saved.activeTag, saved.sactive, saved.qcActive;
    }
  }

  lemma SetQcOwned(p: Port, t: nat, qc: Qc)
    requires Owned(p, t) && qc.serial == p.qcmd[t].serial && qc.scsicmd == p.qcmd[t].scsicmd
    ensures Owned(SetQc(p, t, qc), t) && Owned(SetQc(p, t, qc).(warned := p.warned || p.frozen), t)
  {
  }

  lemma TakeFacts(p: Port, t: nat, scsicmd: Option<nat>)
    requires WellFormed(p) && t < ATA_MAX_QUEUE && t !in p.tags && (scsicmd.Some? ==> scsicmd.value < |p.mid.scmds|)
    ensures var r := QcTake(p, t, scsicmd);
            r.qcmd[t].err == {} && r.mid == p.mid && PortModel.QcFree(r, t).mid == p.mid
  {
  }

  /** Tags the loops have not reached are as they were. */
  lemma {:induction false} LaterUntouched(p: Port, done: set<nat>, n: nat, tf: ResultTf)
    requires WellFormed(p) && ActiveOwned(p) && n <= ATA_MAX_QUEUE
    ensures forall i: nat :: n <= i < ATA_MAX_QUEUE ==> CompleteTags(p, done, n, tf).qcmd[i] == p.qcmd[i]
  {
    if n > 0 { LaterUntouched(p, done, n - 1, tf); }
  }

  lemma PrepIs(p: Port, r: Port, t: nat)
    requires Owned(p, t)
    requires var qc := p.qcmd[t];
             && r.qcmd == (if qc.err == {} && !qc.sense then p.qcmd[t := qc.(result := TF_ZERO)] else p.qcmd)
             && r.mid == match qc.scsicmd
                         case None => p.mid
                         case Some(c) =>
                           if Invalid in qc.err || (qc.err == {} && qc.sense) then SetRetries(p.mid, c, p.mid.scmds[c].allowed)
                           else if qc.err == {} && p.mid.scmds[c].retries > 0 then SetRetries(p.mid, c, p.mid.scmds[c].retries - 1)
                           else p.mid
    requires r == p.(qcmd := r.qcmd, mid := r.mid)
    ensures r == FinishPrep(p, t)
  {
    match p.qcmd[t].scsicmd
    case None =>
    case Some(c) => assert SetRetries(p.mid, c, p.mid.scmds[c].retries) == p.mid;
  }
}
