/** Issuing commands: from the midlayer (ata_scsi_translate) and inside the error handler
    (ata_exec_internal). */
module PortIssue {
  import opened Ata
  import opened PortModel
  import opened PortInvariant
  import opened PortPreserve

  // ---- a fresh SCSI command ----

  lemma MidStart(m: Mid, t: nat, allowed: nat)
    requires InvMid(m)
    ensures InvMid(m.(scmds := m.scmds + [Scmd(Armed, t, 0, 0, allowed)]))
  {
    var c := |m.scmds|;
    assert c !in m.ehCmdQ && c !in m.ehDoneQ;
    CountIn(m.ehCmdQ, c);
    CountIn(m.ehDoneQ, c);
  }

  /** A new command linked to a new active qc. */
  lemma LinkStart(q: Qcs, q': Qcs, s: seq<Scmd>, s': seq<Scmd>, t: nat)
    requires InvLink(q, s, false, false) && t < ATA_TAG_INTERNAL && !q[t].active
    requires q' == q[t := q'[t]] && q'[t].active && q'[t].scsicmd == Some(|s|) && q'[t].done == ScsiDone && !q'[t].failed
    requires |s'| == |s| + 1 && s'[..|s|] == s && s'[|s|].tag == t && s'[|s|].phase == Armed
    ensures InvLink(q', s', false, false)
  {
    assert forall d: nat :: d < |s| ==> s'[d] == s'[..|s|][d] == s[d];
    forall i: nat | i < ATA_TAG_INTERNAL ensures Linked(q', s', i) {
      assert Linked(q, s, i);
    }
    forall d: nat | d < |s'| && s'[d].phase == Armed ensures HasQc(q', s', d) {
      if d < |s| { assert HasQc(q, s, d); }
    }
  }

  /** A new command that is over at once, served by no qc. */
  lemma LinkOver(q: Qcs, q': Qcs, s: seq<Scmd>, s': seq<Scmd>, t: nat)
    requires InvLink(q, s, false, false) && t <= ATA_MAX_QUEUE && (t < ATA_TAG_INTERNAL ==> !q[t].active && !q'[t].active)
    requires forall i: nat :: i < ATA_MAX_QUEUE && i != t ==> q'[i] == q[i]
    requires |s'| == |s| + 1 && s'[..|s|] == s && s'[|s|].phase == Finished
    ensures InvLink(q', s', false, false)
  {
    assert forall d: nat :: d < |s| ==> s'[d] == s'[..|s|][d] == s[d];
    forall i: nat | i < ATA_TAG_INTERNAL ensures Linked(q', s', i) {
      assert Linked(q, s, i);
    }
    forall d: nat | d < |s'| && s'[d].phase == Armed ensures HasQc(q', s', d) {
      assert HasQc(q, s, d);
    }
  }

  /** The state right after ata_qc_issue has marked the new command active. */
  function Issued(p: Port, t: nat, ncq: bool, allowed: nat): (r: Port)
    requires WellFormed(p) && t < ATA_TAG_INTERNAL && t !in p.tags
    ensures Owned(r, t)
  {
    Activate(QcTake(StartScmd(p, t, allowed), t, Some(|p.mid.scmds|)), t, ncq)
  }

  lemma IssuedShape(p: Port, t: nat, ncq: bool, allowed: nat)
    requires WellFormed(p) && t < ATA_TAG_INTERNAL && t !in p.tags
    ensures var r := Issued(p, t, ncq, allowed);
            && r.qcmd == p.qcmd[t := Qc(t, true, false, false, ncq, {}, Some(|p.mid.scmds|), ScsiDone, |p.life|, TF_CLEAN)]
            && r.tags == p.tags + {t} && r.regs == RegsIssue(p.regs, t, ncq)
            && r.mid == p.mid.(scmds := p.mid.scmds + [Scmd(Armed, t, 0, 0, allowed)])
            && r.life == p.life + [Life(t, true, 0, 0)]
            && r.frozen == p.frozen && r.warned == (p.warned || !MayIssue(p.regs, t, ncq))
  {
    var a := StartScmd(p, t, allowed);
    var b := QcTake(a, t, Some(|p.mid.scmds|));
    assert b.qcmd[t] == Qc(t, false, false, false, false, {}, Some(|p.mid.scmds|), ScsiDone, |p.life|, TF_CLEAN);
    assert (p.life + [Life(t, false, 0, 0)])[|p.life| := Life(t, true, 0, 0)] == p.life + [Life(t, true, 0, 0)];
  }

  /** Issuing keeps the invariant exactly when the queue bitmaps allow it. */
  lemma IssuedKeeps(p: Port, t: nat, ncq: bool, allowed: nat)
    requires Inv(p, false, None) && !p.frozen && t < ATA_TAG_INTERNAL && t !in p.tags
    ensures Inv(Issued(p, t, ncq, allowed), false, None) <==> MayIssue(p.regs, t, ncq)
  {
    IssuedShape(p, t, ncq, allowed);
    var r := Issued(p, t, ncq, allowed);
    if MayIssue(p.regs, t, ncq) {
      assert !p.qcmd[t].active;
      RegsAdd(p.regs, p.qcmd, r.qcmd, 0, ATA_MAX_QUEUE, t);
      LinkStart(p.qcmd, r.qcmd, p.mid.scmds, r.mid.scmds, t);
      MidStart(p.mid, t, allowed);
      LifeTake(p.qcmd, r.qcmd, p.tags, p.life, t);
    }
  }

  /** The command takes a tag but no ATA command comes of it. */
  lemma BounceKeeps(p: Port, t: nat, allowed: nat)
    requires Inv(p, false, None) && t < ATA_TAG_INTERNAL && t !in p.tags
    ensures var c := |p.mid.scmds|;
            var f := QcFree(QcTake(StartScmd(p, t, allowed), t, Some(c)), t);
            Inv(f.(mid := MidDone(f.mid, c)), false, None) && f.regs == p.regs
  {
    var c := |p.mid.scmds|;
    var b := QcTake(StartScmd(p, t, allowed), t, Some(c));
    var f := QcFree(b, t);
    var r := f.(mid := MidDone(f.mid, c));
    assert !p.qcmd[t].active;
    assert b.life[|p.life| := Life(t, false, 0, 1)] == p.life + [Life(t, false, 0, 1)];
    LifeBounce(p.qcmd, r.qcmd, p.tags, p.life, t);
    assert r.tags == p.tags;
    RegsSame(p.regs, p.qcmd, r.qcmd, 0, ATA_MAX_QUEUE);
    MidStart(p.mid, t, allowed);
    DoneMid(f.mid, c);
    LinkOver(p.qcmd, r.qcmd, p.mid.scmds, r.mid.scmds, t);
    WellFormedFromLife(r, false);
  }

  /** No tag can be had: the command is done with QUEUE_FULL. */
  lemma NoTagKeeps(p: Port, allowed: nat)
    requires Inv(p, false, None)
    ensures var s := StartScmd(p, ATA_TAG_POISON, allowed);
            Inv(s.(mid := MidDone(s.mid, |p.mid.scmds|)), false, None)
  {
    var s := StartScmd(p, ATA_TAG_POISON, allowed);
    var r := s.(mid := MidDone(s.mid, |p.mid.scmds|));
    MidStart(p.mid, ATA_TAG_POISON, allowed);
    DoneMid(s.mid, |p.mid.scmds|);
    LinkOver(p.qcmd, r.qcmd, p.mid.scmds, r.mid.scmds, ATA_MAX_QUEUE);
  }

  /** What the midlayer and the flag setters must respect: one command at a time without NCQ, and
      no switch away from NCQ while NCQ commands are in flight. */
  ghost predicate Admissible(p: Port, d: DevFlags) {
    (!d.ncq ==> p.regs.qcActive == {}) && (p.regs.sactive != {} ==> UsesNcq(d))
  }

  /** ata_scmd_need_defer keeps NCQ and non-NCQ commands apart, and defers no more than needed: for an
      NCQ device a command is deferred exactly when issuing it now would break the exclusion. */
  lemma DeferKeepsApart(p: Port, d: DevFlags, isIo: bool, t: nat)
    requires Inv(p, false, None) && Admissible(p, d) && t !in p.tags && t < ATA_TAG_INTERNAL
    ensures !NeedDefer(d, p.regs, isIo) ==> MayIssue(p.regs, t, isIo && UsesNcq(d))
    ensures d.ncq ==> (NeedDefer(d, p.regs, isIo) <==> !MayIssue(p.regs, t, isIo && UsesNcq(d)))
  {
    assert TagValid(p.regs.activeTag) ==> p.regs.activeTag in p.regs.qcActive;
    assert t in p.regs.sactive ==> t in p.tags;
    assert forall i: nat :: i in p.regs.sactive ==> i in p.regs.qcActive;
  }

  lemma TranslateKeeps(p: Port, d: DevFlags, isIo: bool, x: Xlat, err: ErrMask, tf: ResultTf, allowed: nat)
    requires Inv(p, false, None) && Admissible(p, d)
    ensures Inv(Translate(p, d, isIo, x, err, tf, allowed), false, None)
    ensures p.frozen ==> Translate(p, d, isIo, x, err, tf, allowed).tags == p.tags
  {
    if !NeedDefer(d, p.regs, isIo) {
      match QcNewTag(p)
      case None => NoTagKeeps(p, allowed);
      case Some(t) =>
        FirstFreeIsFree(p.tags, 0);
        if x == Early {
          BounceKeeps(p, t, allowed);
        } else {
          var ncq := isIo && UsesNcq(d);
          DeferKeepsApart(p, d, isIo, t);
          IssuedKeeps(p, t, ncq, allowed);
          var q := Issued(p, t, ncq, allowed);
          if err != {} {
            IssuedShape(p, t, ncq, allowed);
            CompleteKeeps(q, false, None, t, err, false, tf);
          }
        }
    }
  }

  /** What becomes of a fresh SCSI command, exit by exit.  It gets a qc exactly if it is not deferred, a
      tag is free, the port is not frozen and the translator makes a command of it; then mapping
      failure or a controller error fails it with that error and hands it to the error handler, and
      otherwise it is in flight.  A command that gets no qc is done at once, unless it is deferred. */
  lemma TranslateOutcome(p: Port, d: DevFlags, isIo: bool, x: Xlat, mapOk: bool, issueErr: ErrMask, tf: ResultTf, allowed: nat)
    requires Inv(p, false, None) && Admissible(p, d)
    ensures var r := Translate(p, d, isIo, x, IssueErr(mapOk, issueErr), tf, allowed);
            var c := |p.mid.scmds|;
            if NeedDefer(d, p.regs, isIo) then r == p
            else if p.frozen || (forall t: nat :: t < ATA_TAG_INTERNAL ==> t in p.tags) || x == Early then
              && |r.mid.scmds| == c + 1 && r.mid.scmds[c].phase == Finished && r.mid.scmds[c].dones == 1
              && r.tags == p.tags && r.regs == p.regs
            else
              exists t: nat ::
                && t < ATA_TAG_INTERNAL && t !in p.tags && r.tags == p.tags + {t}
                && InFlight(r, t, c, isIo && UsesNcq(d))
                && (mapOk && issueErr == {} ==> FromTag(r, t) && r.qcmd[t].err == {} && r.mid.scmds[c].phase == Armed)
                && (!(mapOk && issueErr == {}) ==>
                      && r.qcmd[t].failed && r.ehPending && r.mid.scmds[c].phase == OnEhQ
                      && r.qcmd[t].err == if !mapOk then {System} else issueErr)
  {
    hide FailComplete, InvTags, InvRegs, InvQuiet, InvLink, InvMid, InvLife, QcTake, QcFree, Activate, MayIssue, InFlight, OnlyTag;
    var err := IssueErr(mapOk, issueErr);
    if !NeedDefer(d, p.regs, isIo) {
      FirstFreeIsFree(p.tags, 0);
      var r := Translate(p, d, isIo, x, err, tf, allowed);
      match QcNewTag(p)
      case None =>
        if !p.frozen {
          forall t: nat | t < ATA_TAG_INTERNAL ensures t in p.tags {}
        }
      case Some(t) =>
        assert t !in p.tags;
        if x == Early {
          BounceTags(p, t, allowed);
          BounceKeeps(p, t, allowed);
        } else {
          IssueOutcome(p, t, isIo && UsesNcq(d), err, tf, allowed, d, isIo);
          assert InFlight(r, t, |p.mid.scmds|, isIo && UsesNcq(d));
        }
    }
  }

  /** Tag t's qc is active and works for SCSI command c. */
  ghost predicate InFlight(r: Port, t: nat, c: nat, ncq: bool) {
    && t < |r.qcmd| && c < |r.mid.scmds| && r.qcmd[t].active && r.qcmd[t].scsicmd == Some(c) && r.qcmd[t].ncq == ncq
    && t in r.regs.qcActive && (t in r.regs.sactive <==> ncq) && (!ncq ==> r.regs.activeTag == t)
  }

  lemma BounceTags(p: Port, t: nat, allowed: nat)
    requires WellFormed(p) && t < ATA_TAG_INTERNAL && t !in p.tags
    ensures var c := |p.mid.scmds|;
            var f := QcFree(QcTake(StartScmd(p, t, allowed), t, Some(c)), t);
            && f.tags == p.tags && |f.mid.scmds| == c + 1
            && MidDone(f.mid, c).scmds[c].phase == Finished && MidDone(f.mid, c).scmds[c].dones == 1
  {
  }

  lemma IssueOutcome(p: Port, t: nat, ncq: bool, err: ErrMask, tf: ResultTf, allowed: nat, d: DevFlags, isIo: bool)
    requires Inv(p, false, None) && Admissible(p, d) && !p.frozen && t < ATA_TAG_INTERNAL && t !in p.tags
    requires !NeedDefer(d, p.regs, isIo) && ncq == (isIo && UsesNcq(d))
    ensures var q := Issued(p, t, ncq, allowed);
            var r := if err == {} then q else FailComplete(q, t, err, false, tf);
            var c := |p.mid.scmds|;
            && InFlight(r, t, c, ncq) && r.tags == p.tags + {t}
            && (err == {} ==> FromTag(r, t) && r.qcmd[t].err == {} && r.mid.scmds[c].phase == Armed)
            && (err != {} ==> r.qcmd[t].failed && r.qcmd[t].err == err && r.ehPending && r.mid.scmds[c].phase == OnEhQ)
  {
    hide FailComplete, Issued, InvTags, InvQuiet, InvLink, InvMid, InvLife;
    DeferKeepsApart(p, d, isIo, t);
    IssuedShape(p, t, ncq, allowed);
    IssuedKeeps(p, t, ncq, allowed);
    var q := Issued(p, t, ncq, allowed);
    assert RegsOk(q.regs, q.qcmd, 0, ATA_MAX_QUEUE);
    if err != {} {
      FailKeeps(q, false, None, t, err, false, tf);
      FailMid(q, t, |p.mid.scmds|, err, tf);
      var none: ErrMask := {};
      assert none + err == err;
    }
  }

  lemma FailMid(q: Port, t: nat, c: nat, err: ErrMask, tf: ResultTf)
    requires Owned(q, t) && t < ATA_TAG_INTERNAL && q.qcmd[t].scsicmd == Some(c) && c < |q.mid.scmds|
    requires err != {} && q.mid.scmds[c].phase == Armed
    ensures var r := FailComplete(q, t, err, false, tf);
            && r.ehPending && |r.mid.scmds| == |q.mid.scmds| && r.mid.scmds[c].phase == OnEhQ
  {
    hide OnlyTag;
    assert q.qcmd[t].err + err != {};
  }

  // ---- internal commands ----

  /** ata_exec_internal takes the internal tag and sets the queue fields aside. */
  lemma InternalBeginShape(p: Port, ncq: bool)
    requires WellFormed(p) && ATA_TAG_INTERNAL !in p.tags
    ensures var r := Activate(InternalBegin(p), ATA_TAG_INTERNAL, ncq);
            && Owned(r, ATA_TAG_INTERNAL)
            && r.qcmd == p.qcmd[ATA_TAG_INTERNAL := Qc(ATA_TAG_INTERNAL, true, false, false, ncq, {}, None, ScsiDone, |p.life|, TF_CLEAN)]
            && r.tags == p.tags + {ATA_TAG_INTERNAL} && r.regs == RegsIssue(IDLE_REGS, ATA_TAG_INTERNAL, ncq)
            && r.mid == p.mid && r.life == p.life + [Life(ATA_TAG_INTERNAL, true, 0, 0)]
            && r.frozen == p.frozen && r.warned == p.warned
  {
    var b := InternalBegin(p);
    assert (p.life + [Life(ATA_TAG_INTERNAL, false, 0, 0)])[|p.life| := Life(ATA_TAG_INTERNAL, true, 0, 0)]
        == p.life + [Life(ATA_TAG_INTERNAL, true, 0, 0)];
  }

  lemma InternalBeginKeeps(p: Port, ncq: bool, err: ErrMask, tf: ResultTf)
    requires Inv(p, true, None) && !p.frozen
    ensures ATA_TAG_INTERNAL !in p.tags
    ensures Inv(QcIssue(InternalBegin(p), ATA_TAG_INTERNAL, ncq, err, tf), true, Some(p.regs))
  {
    var t := ATA_TAG_INTERNAL;
    var r := Activate(InternalBegin(p), t, ncq);
    InternalBeginShape(p, ncq);
    RegsAdd(IDLE_REGS, p.qcmd, r.qcmd, t, ATA_MAX_QUEUE, t);
    SplitRegs(p.regs, p.qcmd, r.qcmd);
    LifeTake(p.qcmd, r.qcmd, p.tags, p.life, t);
    LinkInternal(p.qcmd, r.qcmd, p.mid.scmds, false, true, true);
    assert Inv(r, true, Some(p.regs));
    if err != {} { CompleteKeeps(r, true, Some(p.regs), t, err, false, tf); }
  }

  lemma SplitRegs(r: Regs, q: Qcs, q': Qcs)
    requires RegsOk(r, q, 0, ATA_MAX_QUEUE) && !q[ATA_TAG_INTERNAL].active
    requires forall i: nat :: i < ATA_TAG_INTERNAL ==> q'[i] == q[i]
    ensures RegsOk(r, q', 0, ATA_TAG_INTERNAL)
  {
  }

  lemma JoinRegs(r: Regs, q: Qcs, q': Qcs)
    requires RegsOk(r, q, 0, ATA_TAG_INTERNAL) && !q'[ATA_TAG_INTERNAL].active
    requires forall i: nat :: i < ATA_TAG_INTERNAL ==> q'[i] == q[i]
    ensures RegsOk(r, q', 0, ATA_MAX_QUEUE)
  {
  }

  lemma InternalTimeoutKeeps(p: Port, saved: Regs, tf: ResultTf)
    requires Inv(p, true, Some(saved)) && ActiveOwned(p)
    ensures Inv(InternalTimeout(p, tf), true, Some(saved))
    ensures !InternalTimeout(p, tf).qcmd[ATA_TAG_INTERNAL].active
    ensures if p.qcmd[ATA_TAG_INTERNAL].active
            then InternalTimeout(p, tf).frozen
                 && InternalTimeout(p, tf).qcmd[ATA_TAG_INTERNAL].err == p.qcmd[ATA_TAG_INTERNAL].err + {Timeout}
            else InternalTimeout(p, tf) == p
  {
    var t := ATA_TAG_INTERNAL;
    var qc := p.qcmd[t];
    if qc.active {
      var q := SetQc(p, t, qc.(err := qc.err + {Timeout}));
      RegsSame(saved, p.qcmd, q.qcmd, 0, t);
      RegsSame(p.regs, p.qcmd, q.qcmd, t, ATA_MAX_QUEUE);
      LifeSame(p.qcmd, q.qcmd, p.tags, p.life);
      LinkInternal(p.qcmd, q.qcmd, p.mid.scmds, true, true, true);
      assert Inv(q, true, Some(saved));
      InvActiveOwned(q, true, Some(saved));
      FreezeKeeps(q, true, Some(saved), tf);
      InternalAborted(q, tf);
    }
  }

  /** The abort inside the freeze completes the internal command. */
  lemma InternalAborted(p: Port, tf: ResultTf)
    requires WellFormed(p) && ActiveOwned(p) && p.qcmd[ATA_TAG_INTERNAL].active && !p.qcmd[ATA_TAG_INTERNAL].failed
    ensures !PortFreeze(p, tf).qcmd[ATA_TAG_INTERNAL].active
    ensures PortFreeze(p, tf).qcmd[ATA_TAG_INTERNAL].err == p.qcmd[ATA_TAG_INTERNAL].err
  {
    AbortTagsGone(p, ATA_TAG_INTERNAL, tf);
    var q := AbortTags(p, ATA_TAG_INTERNAL, tf);
    assert q.qcmd[ATA_TAG_INTERNAL] == p.qcmd[ATA_TAG_INTERNAL];
    assert FromTag(q, ATA_TAG_INTERNAL);
    assert PortFreeze(p, tf).qcmd == AbortTags(p, ATA_MAX_QUEUE, tf).qcmd;
    InternalRaw(q, tf);
  }

  lemma InternalRaw(p: Port, tf: ResultTf)
    requires Owned(p, ATA_TAG_INTERNAL)
    ensures !FailComplete(p, ATA_TAG_INTERNAL, {}, true, tf).qcmd[ATA_TAG_INTERNAL].active
    ensures FailComplete(p, ATA_TAG_INTERNAL, {}, true, tf).qcmd[ATA_TAG_INTERNAL].err == p.qcmd[ATA_TAG_INTERNAL].err
  {
    assert p.qcmd[ATA_TAG_INTERNAL].err + {} == p.qcmd[ATA_TAG_INTERNAL].err;
  }

  lemma InternalEndKeeps(p: Port, saved: Regs)
    requires Inv(p, true, Some(saved)) && !p.qcmd[ATA_TAG_INTERNAL].active
    ensures Owned(p, ATA_TAG_INTERNAL) && Inv(InternalEnd(p, saved), true, None)
  {
    var r := InternalEnd(p, saved);
    LifeFree(p.qcmd, r.qcmd, p.tags, p.life, ATA_TAG_INTERNAL);
    JoinRegs(saved, p.qcmd, r.qcmd);
    LinkInternal(p.qcmd, r.qcmd, p.mid.scmds, true, false, true);
    WellFormedFromLife(r, true);
  }
}
