/** Each port operation keeps the invariant, so none of its WARN_ONs fires. */
module PortPreserve {
  import opened Ata
  import opened PortModel
  import opened PortInvariant

  // ---- links between qcs and SCSI commands ----

  /** One SCSI command leaves the timer phase or the queue; its qc, if active, stays. */
  lemma LinkFail(q: Qcs, q': Qcs, s: seq<Scmd>, s': seq<Scmd>, internal: bool, ehOn: bool, t: nat, c: nat)
    requires InvLink(q, s, internal, ehOn) && t < ATA_TAG_INTERNAL && q[t].active
    requires q[t].scsicmd == Some(c) && c < |s|
    requires q' == q[t := q'[t]] && q'[t].active && q'[t].scsicmd == q[t].scsicmd && q'[t].done == q[t].done
    requires s' == s || s' == s[c := s[c].(phase := OnEhQ)]
    requires s'[c].phase != Armed
    ensures InvLink(q', s', internal, ehOn)
  {
    assert Linked(q, s, t);
    forall i: nat | i < ATA_TAG_INTERNAL ensures Linked(q', s', i) {
      assert Linked(q, s, i);
    }
    forall d: nat | d < |s'| && (s'[d].phase == Armed || (ehOn && s'[d].phase == OnEhQ)) ensures HasQc(q', s', d) {
      if d == c { assert HasQc(q', s', d); } else { assert HasQc(q, s, d); }
    }
  }

  /** A qc is completed and released; its SCSI command is not left on the timer, and not on
      eh_cmd_q while the error handler runs. */
  lemma LinkDrop(q: Qcs, q': Qcs, s: seq<Scmd>, s': seq<Scmd>, internal: bool, ehOn: bool, t: nat, c: nat)
    requires InvLink(q, s, internal, ehOn) && t < ATA_TAG_INTERNAL && q[t].active
    requires q[t].scsicmd == Some(c) && c < |s|
    requires q' == q[t := q'[t]] && !q'[t].active
    requires |s'| == |s| && (forall d: nat :: d < |s| && d != c ==> s'[d] == s[d])
             && s'[c].phase != Armed && (ehOn ==> s'[c].phase != OnEhQ && s'[c].phase != Expired)
    ensures InvLink(q', s', internal, ehOn)
  {
    assert Linked(q, s, t);
    forall i: nat | i < ATA_TAG_INTERNAL ensures Linked(q', s', i) {
      assert Linked(q, s, i);
    }
    forall d: nat | d < |s'| && (s'[d].phase == Armed || (ehOn && s'[d].phase == OnEhQ)) ensures HasQc(q', s', d) {
      assert HasQc(q, s, d);
    }
  }

  /** Only the internal qc changes. */
  lemma LinkInternal(q: Qcs, q': Qcs, s: seq<Scmd>, internal: bool, internal': bool, ehOn: bool)
    requires InvLink(q, s, internal, ehOn)
    requires forall i: nat :: i < ATA_TAG_INTERNAL ==> q'[i] == q[i]
    requires internal' ==> q'[ATA_TAG_INTERNAL].scsicmd == None
    ensures InvLink(q', s, internal', ehOn)
  {
    forall i: nat | i < ATA_TAG_INTERNAL ensures Linked(q', s, i) { assert Linked(q, s, i); }
    forall d: nat | d < |s| && (s[d].phase == Armed || (ehOn && s[d].phase == OnEhQ)) ensures HasQc(q', s, d) {
      assert HasQc(q, s, d);
    }
  }

  // ---- ata_qc_complete ----

  /** The failing half of ata_qc_complete: the qc now belongs to the error handler, still active. */
  lemma FailKeeps(p: Port, ehOn: bool, saved: Option<Regs>, t: nat, err: ErrMask, force: bool, tf: ResultTf)
    requires Inv(p, ehOn, saved) && t < ATA_TAG_INTERNAL && FromTag(p, t) && (force || p.qcmd[t].err + err != {})
    ensures Owned(p, t)
    ensures Inv(FailComplete(p, t, err, force, tf), ehOn, saved)
    ensures FailComplete(p, t, err, force, tf).qcmd ==
              p.qcmd[t := p.qcmd[t].(err := p.qcmd[t].err + err, failed := true, result := tf)]
    ensures FailComplete(p, t, err, force, tf).regs == p.regs
    ensures FailComplete(p, t, err, force, tf).tags == p.tags
  {
    assert t in p.tags;
    var r := FailComplete(p, t, err, force, tf);
    assert Linked(p.qcmd, p.mid.scmds, t);
    var c := p.qcmd[t].scsicmd.value;
    assert !p.frozen;
    assert r.qcmd == p.qcmd[t := p.qcmd[t].(err := p.qcmd[t].err + err, failed := true, result := tf)];
    assert r.mid == ReqAbort(p.mid, c);
    if p.mid.scmds[c].phase == Armed { MidAdd(p.mid, c); }
    FailParts(p, r, ehOn, saved, t, c);
  }

  lemma FailParts(p: Port, r: Port, ehOn: bool, saved: Option<Regs>, t: nat, c: nat)
    requires Inv(p, ehOn, saved) && t < ATA_TAG_INTERNAL && p.qcmd[t].active && p.qcmd[t].scsicmd == Some(c)
    requires |r.qcmd| == ATA_MAX_QUEUE && r.qcmd == p.qcmd[t := r.qcmd[t]]
    requires r.qcmd[t] == p.qcmd[t].(err := r.qcmd[t].err, failed := true, result := r.qcmd[t].result)
    requires c < |p.mid.scmds| && r.mid == ReqAbort(p.mid, c) && InvMid(r.mid)
    requires r == p.(qcmd := r.qcmd, mid := r.mid, ehPending := true)
    ensures Inv(r, ehOn, saved)
  {
    LifeSame(p.qcmd, r.qcmd, p.tags, p.life);
    LinkFail(p.qcmd, r.qcmd, p.mid.scmds, r.mid.scmds, saved.Some?, ehOn, t, c);
    match saved
    case None => RegsSame(p.regs, p.qcmd, r.qcmd, 0, ATA_MAX_QUEUE);
    case Some(s) =>
      RegsSame(s, p.qcmd, r.qcmd, 0, ATA_TAG_INTERNAL);
      RegsSame(p.regs, p.qcmd, r.qcmd, ATA_TAG_INTERNAL, ATA_MAX_QUEUE);
  }

  /** Releasing a completed SCSI command's qc, whatever becomes of the SCSI command. */
  lemma ReleaseParts(p: Port, r: Port, ehOn: bool, t: nat, c: nat)
    requires Inv(p, ehOn, None) && t < ATA_TAG_INTERNAL && p.qcmd[t].active && p.qcmd[t].scsicmd == Some(c)
    requires |r.qcmd| == ATA_MAX_QUEUE && r.qcmd == p.qcmd[t := r.qcmd[t]]
    requires !r.qcmd[t].active && !r.qcmd[t].failed
    requires c < |p.mid.scmds| && |r.mid.scmds| == |p.mid.scmds|
    requires forall d: nat :: d < |p.mid.scmds| && d != c ==> r.mid.scmds[d] == p.mid.scmds[d]
    requires r.mid.scmds[c].phase != Armed && (ehOn ==> r.mid.scmds[c].phase != OnEhQ && r.mid.scmds[c].phase != Expired)
    requires InvMid(r.mid)
    requires r.tags == p.tags - {t} && r.regs == RegsDone(p.regs, t, p.qcmd[t].ncq)
    requires var n := p.qcmd[t].serial;
             n < |p.life| && r.life == p.life[n := p.life[n].(completions := p.life[n].completions + 1, frees := p.life[n].frees + 1)]
    requires r.frozen == p.frozen && !r.warned
    ensures Inv(r, ehOn, None)
  {
    RegsDrop(p.regs, p.qcmd, r.qcmd, 0, ATA_MAX_QUEUE, t);
    LinkDrop(p.qcmd, r.qcmd, p.mid.scmds, r.mid.scmds, false, ehOn, t, c);
    var n := p.qcmd[t].serial;
    var q1 := p.qcmd[t := p.qcmd[t].(active := false)];
    LifeComplete(p.qcmd, q1, p.tags, p.life, t);
    var life1 := p.life[n := p.life[n].(completions := p.life[n].completions + 1)];
    LifeFree(q1, r.qcmd, p.tags, life1, t);
    assert r.life == life1[n := life1[n].(frees := life1[n].frees + 1)];
    WellFormedFromLife(r, ehOn);
  }

  lemma WellFormedFromLife(r: Port, ehOn: bool)
    requires |r.qcmd| == ATA_MAX_QUEUE
    requires InvLife(r.qcmd, r.tags, r.life) && InvLink(r.qcmd, r.mid.scmds, ATA_TAG_INTERNAL in r.tags, ehOn)
    requires forall i: nat :: i < ATA_TAG_INTERNAL && i in r.tags ==> r.qcmd[i].active
    ensures WellFormed(r)
  {
    forall i: nat | i < ATA_MAX_QUEUE && i in r.tags
      ensures r.qcmd[i].serial < |r.life| && (r.qcmd[i].scsicmd.Some? ==> r.qcmd[i].scsicmd.value < |r.mid.scmds|)
    {
      if i < ATA_TAG_INTERNAL { assert Linked(r.qcmd, r.mid.scmds, i); }
    }
  }

  /** What __ata_qc_complete does to a SCSI command's qc, in one step. */
  lemma RawShape(p: Port, t: nat, c: nat)
    requires Owned(p, t) && p.qcmd[t].scsicmd == Some(c)
    ensures var r := RawComplete(p, t);
            var n := p.qcmd[t].serial;
            && r.qcmd == p.qcmd[t := p.qcmd[t].(active := false, failed := false, sense := false, tag := ATA_TAG_POISON)]
            && r.tags == p.tags - {t} && r.regs == RegsDone(p.regs, t, p.qcmd[t].ncq)
            && r.life == p.life[n := p.life[n].(completions := p.life[n].completions + 1, frees := p.life[n].frees + 1)]
            && r.mid == (if p.qcmd[t].done == ScsiDone then MidDone(p.mid, c) else p.mid)
            && r.frozen == p.frozen && r.warned == (p.warned || !p.qcmd[t].active)
            && r.ehPending == p.ehPending && r.ehScheduled == p.ehScheduled
  {
    hide Deactivate, CompleteFn, OnlyTag;
    var d := Deactivate(p, t);
    DeactivateShape(p, t);
    CallbackShape(d, t, c);
    assert d.qcmd[t := d.qcmd[t].(failed := false, sense := false, tag := ATA_TAG_POISON)]
        == p.qcmd[t := p.qcmd[t].(active := false, failed := false, sense := false, tag := ATA_TAG_POISON)];
  }

  lemma DeactivateShape(p: Port, t: nat)
    requires Owned(p, t)
    ensures var r := Deactivate(p, t);
            var n := p.qcmd[t].serial;
            && r.qcmd == p.qcmd[t := p.qcmd[t].(active := false)]
            && r.regs == RegsDone(p.regs, t, p.qcmd[t].ncq)
            && r.life == p.life[n := p.life[n].(completions := p.life[n].completions + 1)]
            && r.warned == (p.warned || !p.qcmd[t].active)
            && r == p.(qcmd := r.qcmd, regs := r.regs, life := r.life, warned := r.warned)
  {
    hide OnlyTag;
  }

  lemma CallbackShape(p: Port, t: nat, c: nat)
    requires Owned(p, t) && p.qcmd[t].scsicmd == Some(c) && !p.qcmd[t].active
    ensures var r := CompleteFn(p, t);
            var n := p.qcmd[t].serial;
            && r.qcmd == p.qcmd[t := p.qcmd[t].(failed := false, sense := false, tag := ATA_TAG_POISON)]
            && r.tags == p.tags - {t}
            && r.life == p.life[n := p.life[n].(frees := p.life[n].frees + 1)]
            && r.mid == (if p.qcmd[t].done == ScsiDone then MidDone(p.mid, c) else p.mid)
            && r == p.(qcmd := r.qcmd, tags := r.tags, life := r.life, mid := r.mid)
  {
    hide OnlyTag, MidDone;
  }

  lemma DoneMid(m: Mid, c: nat)
    requires InvMid(m) && c < |m.scmds|
    ensures InvMid(MidDone(m, c)) && MidDone(m, c).scmds[c].phase != Armed
  {
  }

  lemma DoneIsRaw(p: Port, t: nat, tf: ResultTf)
    requires Owned(p, t) && FromTag(p, t) && p.qcmd[t].err == {} && !p.frozen
    ensures FailComplete(p, t, {}, false, tf) == RawComplete(SetQc(p, t, p.qcmd[t].(result := tf)), t)
  {
    var q := SetQc(p, t, p.qcmd[t].(err := p.qcmd[t].err + {}, failed := p.qcmd[t].failed || false));
    assert p.qcmd[t].err + {} == p.qcmd[t].err;
    assert p.qcmd[t := p.qcmd[t]] == p.qcmd;
    assert q == p;
  }

  /** The normal half of ata_qc_complete for a SCSI command: completed and released. */
  lemma DoneKeeps(p: Port, ehOn: bool, t: nat, tf: ResultTf)
    requires Inv(p, ehOn, None) && t < ATA_TAG_INTERNAL && FromTag(p, t) && p.qcmd[t].err == {}
    ensures Owned(p, t) && Inv(FailComplete(p, t, {}, false, tf), ehOn, None)
  {
    assert t in p.tags;
    hide RawComplete, FailComplete, OnlyTag;
    assert Linked(p.qcmd, p.mid.scmds, t);
    var c := p.qcmd[t].scsicmd.value;
    var q := SetQc(p, t, p.qcmd[t].(result := tf));
    assert !p.frozen && !ehOn;
    RawShape(q, t, c);
    DoneMid(p.mid, c);
    ReleaseParts(p, RawComplete(q, t), ehOn, t, c);
    DoneIsRaw(p, t, tf);
  }

  /** The internal command is completed at once, failed or not, and keeps its tag. */
  lemma InternalDoneKeeps(p: Port, ehOn: bool, saved: Option<Regs>, err: ErrMask, force: bool, tf: ResultTf)
    requires Inv(p, ehOn, saved) && FromTag(p, ATA_TAG_INTERNAL)
    ensures Owned(p, ATA_TAG_INTERNAL) && saved.Some?
    ensures Inv(FailComplete(p, ATA_TAG_INTERNAL, err, force, tf), ehOn, saved)
    ensures !FailComplete(p, ATA_TAG_INTERNAL, err, force, tf).qcmd[ATA_TAG_INTERNAL].active
  {
    var t := ATA_TAG_INTERNAL;
    assert saved.Some?;
    assert t in p.tags;
    var r := FailComplete(p, t, err, force, tf);
    assert !p.frozen;
    assert r.regs == RegsDone(p.regs, t, p.qcmd[t].ncq);
    RegsDrop(p.regs, p.qcmd, r.qcmd, t, ATA_MAX_QUEUE, t);
    RegsSame(saved.value, p.qcmd, r.qcmd, 0, t);
    LifeComplete(p.qcmd, r.qcmd, p.tags, p.life, t);
    LinkInternal(p.qcmd, r.qcmd, p.mid.scmds, true, true, ehOn);
    WellFormedFromLife(r, ehOn);
  }

  /** ata_qc_complete on any qc the interrupt side can find. */
  lemma CompleteKeeps(p: Port, ehOn: bool, saved: Option<Regs>, t: nat, err: ErrMask, force: bool, tf: ResultTf)
    requires Inv(p, ehOn, saved) && FromTag(p, t) && (saved.Some? ==> ehOn)
    ensures t < ATA_MAX_QUEUE && Owned(p, t) && Inv(FailComplete(p, t, err, force, tf), ehOn, saved)
    ensures force ==> !FromTag(FailComplete(p, t, err, force, tf), t)
  {
    if t == ATA_TAG_INTERNAL {
      InternalDoneKeeps(p, ehOn, saved, err, force, tf);
    } else if force || p.qcmd[t].err + err != {} {
      FailKeeps(p, ehOn, saved, t, err, force, tf);
    } else {
      assert err == {};
      DoneKeeps(p, ehOn, t, tf);
    }
  }

  // ---- completing many, aborting, freezing ----

  lemma InvActiveOwned(p: Port, ehOn: bool, saved: Option<Regs>)
    requires Inv(p, ehOn, saved)
    ensures ActiveOwned(p)
  {
    forall i: nat | i < ATA_MAX_QUEUE && p.qcmd[i].active ensures i in p.tags {
      if i == ATA_TAG_INTERNAL { assert saved.Some?; }
    }
  }

  lemma {:induction false} CompleteTagsKeeps(p: Port, ehOn: bool, saved: Option<Regs>, done: set<nat>, n: nat, tf: ResultTf)
    requires Inv(p, ehOn, saved) && (saved.Some? ==> ehOn) && n <= ATA_MAX_QUEUE && ActiveOwned(p)
    ensures Inv(CompleteTags(p, done, n, tf), ehOn, saved)
  {
    hide FailComplete, InvTags, InvRegs, InvQuiet, InvLink, InvMid, InvLife;
    if n > 0 {
      CompleteTagsKeeps(p, ehOn, saved, done, n - 1, tf);
      var q := CompleteTags(p, done, n - 1, tf);
      if n - 1 in done && FromTag(q, n - 1) {
        CompleteKeeps(q, ehOn, saved, n - 1, {}, false, tf);
      }
    }
  }

  /** After the abort loop no qc below n can be found any more. */
  lemma {:induction false} AbortTagsGone(p: Port, n: nat, tf: ResultTf)
    requires WellFormed(p) && ActiveOwned(p) && n <= ATA_MAX_QUEUE
    ensures forall i: nat :: i < n ==> !FromTag(AbortTags(p, n, tf), i)
    ensures forall i: nat :: n <= i < ATA_MAX_QUEUE ==> AbortTags(p, n, tf).qcmd[i] == p.qcmd[i]
  {
    if n > 0 {
      AbortTagsGone(p, n - 1, tf);
      var q := AbortTags(p, n - 1, tf);
      if FromTag(q, n - 1) {
        OnlyOthersStay(q, FailComplete(q, n - 1, {}, true, tf), n - 1);
      }
    }
  }

  lemma OnlyOthersStay(p: Port, r: Port, t: nat)
    requires OnlyTag(p, r, t)
    ensures forall i: nat :: i < |p.qcmd| && i != t ==> r.qcmd[i] == p.qcmd[i] && FromTag(r, i) == FromTag(p, i)
  {
  }

  lemma {:induction false} AbortTagsKeeps(p: Port, ehOn: bool, saved: Option<Regs>, n: nat, tf: ResultTf)
    requires Inv(p, ehOn, saved) && (saved.Some? ==> ehOn) && n <= ATA_MAX_QUEUE && ActiveOwned(p)
    ensures Inv(AbortTags(p, n, tf), ehOn, saved)
  {
    hide FailComplete, InvTags, InvRegs, InvQuiet, InvLink, InvMid, InvLife;
    if n > 0 {
      AbortTagsKeeps(p, ehOn, saved, n - 1, tf);
      var q := AbortTags(p, n - 1, tf);
      if FromTag(q, n - 1) {
        CompleteKeeps(q, ehOn, saved, n - 1, {}, true, tf);
      }
    }
  }

  lemma FoundIsQuiet(q: Port, t: nat)
    requires Inv(q, false, None) && FromTag(q, t)
    ensures t < ATA_TAG_INTERNAL && Owned(q, t) && !q.frozen && q.qcmd[t].scsicmd.Some?
  {
    assert Linked(q.qcmd, q.mid.scmds, t);
  }

  /** Aborting takes no SCSI command out of the queue fields: the commands stay active, as the error
      handler's. */
  lemma {:induction false} AbortRegs(p: Port, n: nat, tf: ResultTf)
    requires Inv(p, false, None) && ActiveOwned(p) && n <= ATA_MAX_QUEUE
    ensures AbortTags(p, n, tf).regs == p.regs
  {
    hide FailComplete, InvTags, InvRegs, InvQuiet, InvLink, InvMid, InvLife;
    if n > 0 {
      AbortRegs(p, n - 1, tf);
      AbortTagsKeeps(p, false, None, n - 1, tf);
      var q := AbortTags(p, n - 1, tf);
      if FromTag(q, n - 1) {
        FoundIsQuiet(q, n - 1);
        FailKeeps(q, false, None, n - 1, {}, true, tf);
      }
    }
  }

  /** Completing many leaves FROZEN alone and forgets no pending error. */
  lemma {:induction false} CompleteTagsFlags(p: Port, done: set<nat>, n: nat, tf: ResultTf)
    requires WellFormed(p) && ActiveOwned(p) && n <= ATA_MAX_QUEUE
    ensures CompleteTags(p, done, n, tf).frozen == p.frozen
    ensures p.ehPending ==> CompleteTags(p, done, n, tf).ehPending
  {
    hide FailComplete, WellFormed;
    if n > 0 { CompleteTagsFlags(p, done, n - 1, tf); }
  }

  lemma {:induction false} AbortTagsFlags(p: Port, n: nat, tf: ResultTf)
    requires WellFormed(p) && ActiveOwned(p) && n <= ATA_MAX_QUEUE
    ensures AbortTags(p, n, tf).frozen == p.frozen
    ensures p.ehPending ==> AbortTags(p, n, tf).ehPending
  {
    hide FailComplete, WellFormed;
    if n > 0 { AbortTagsFlags(p, n - 1, tf); }
  }

  /** What an abort makes of each qc outside the error handler: those that could be found are failed,
      keep the errors they had and get the taskfile that was read; all others are as they were. */
  lemma {:induction false} AbortQcs(p: Port, n: nat, tf: ResultTf)
    requires Inv(p, false, None) && ActiveOwned(p) && n <= ATA_MAX_QUEUE
    ensures forall i: nat :: i < ATA_MAX_QUEUE ==>
              AbortTags(p, n, tf).qcmd[i] ==
                if i < n && FromTag(p, i) then p.qcmd[i].(failed := true, result := tf) else p.qcmd[i]
  {
    hide FailComplete, InvTags, InvRegs, InvQuiet, InvLink, InvMid, InvLife;
    if n > 0 {
      AbortQcs(p, n - 1, tf);
      AbortTagsKeeps(p, false, None, n - 1, tf);
      var q := AbortTags(p, n - 1, tf);
      assert q.qcmd[n - 1] == p.qcmd[n - 1];
      if FromTag(q, n - 1) {
        FoundIsQuiet(q, n - 1);
        FailKeeps(q, false, None, n - 1, {}, true, tf);
        assert q.qcmd[n - 1].err + {} == q.qcmd[n - 1].err;
      }
    }
  }

  lemma AbortKeeps(p: Port, ehOn: bool, saved: Option<Regs>, tf: ResultTf)
    requires Inv(p, ehOn, saved) && (saved.Some? ==> ehOn) && ActiveOwned(p)
    ensures Inv(PortAbort(p, tf), ehOn, saved)
    ensures AllFailed(PortAbort(p, tf).qcmd, ATA_MAX_QUEUE)
  {
    AbortTagsKeeps(p, ehOn, saved, ATA_MAX_QUEUE, tf);
    AbortTagsGone(p, ATA_MAX_QUEUE, tf);
    var q := AbortTags(p, ATA_MAX_QUEUE, tf);
    assert PortAbort(p, tf).qcmd == q.qcmd;
    forall i: nat | i < ATA_MAX_QUEUE && q.qcmd[i].active ensures q.qcmd[i].failed { assert !FromTag(q, i); }
  }

  /** Freezing aborts first, so a frozen port has nothing left to complete. */
  lemma FreezeKeeps(p: Port, ehOn: bool, saved: Option<Regs>, tf: ResultTf)
    requires Inv(p, ehOn, saved) && (saved.Some? ==> ehOn) && ActiveOwned(p)
    ensures Inv(PortFreeze(p, tf), ehOn, saved) && PortFreeze(p, tf).frozen
    ensures forall t: nat :: !FromTag(PortFreeze(p, tf), t)
    ensures QcNewTag(PortFreeze(p, tf)) == None
  {
    AbortKeeps(p, ehOn, saved, tf);
  }
}
