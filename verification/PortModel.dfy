/**
 The state of one libata port as a value, and what each port operation does to it.

 Tag bitmaps (qc_allocated, qc_active, sactive) are sets of tags; see module TagMask for the
 32-bit words they stand for.  The WARN_ON and BUG conditions of the operations modelled here raise
 the flag `warned`, so "none of them ever fires" is a property of the state.  `life` and
 `Scmd.dones` are bookkeeping: they count completion callbacks, tag releases and midlayer
 completions.
 */
module PortModel {
  import opened Ata

  // ---- the SCSI midlayer's side of a command ----

  /** Armed: timer running.  Expired: timer fired, handler not run yet.  OnEhQ: on host->eh_cmd_q.
      OnDoneQ: on ap->eh_done_q.  Finished: given back to the midlayer. */
  datatype Phase = Armed | Expired | OnEhQ | OnDoneQ | Finished

  datatype Scmd = Scmd(phase: Phase, tag: nat, dones: nat, retries: nat, allowed: nat)

  datatype Mid = Mid(scmds: seq<Scmd>, ehCmdQ: seq<nat>, ehDoneQ: seq<nat>, hostFailed: int)

  function SetPhase(m: Mid, c: nat, ph: Phase): (r: Mid)
    requires c < |m.scmds|
    ensures |r.scmds| == |m.scmds|
  {
    m.(scmds := m.scmds[c := m.scmds[c].(phase := ph)])
  }

  /** scsi_eh_scmd_add: the only way onto eh_cmd_q. */
  function EhScmdAdd(m: Mid, c: nat): (r: Mid)
    requires c < |m.scmds|
    ensures |r.scmds| == |m.scmds|
  {
    SetPhase(m, c, OnEhQ).(ehCmdQ := m.ehCmdQ + [c], hostFailed := m.hostFailed + 1)
  }

  /** scsi_req_abort_cmd: does nothing once the timer has fired. */
  function ReqAbort(m: Mid, c: nat): (r: Mid)
    requires c < |m.scmds|
    ensures |r.scmds| == |m.scmds|
  {
    if m.scmds[c].phase == Armed then EhScmdAdd(m, c) else m
  }

  /** The done callback of a command: dropped by the midlayer once the timer has fired. */
  function MidDone(m: Mid, c: nat): (r: Mid)
    requires c < |m.scmds|
    ensures |r.scmds| == |m.scmds|
  {
    if m.scmds[c].phase == Armed then
      m.(scmds := m.scmds[c := m.scmds[c].(phase := Finished, dones := m.scmds[c].dones + 1)])
    else m
  }

  function Without(q: seq<nat>, c: nat): seq<nat> {
    if q == [] then [] else if q[0] == c then q[1..] else [q[0]] + Without(q[1..], c)
  }

  /** scsi_eh_finish_cmd: list_move_tail from eh_cmd_q to eh_done_q. */
  function EhFinishCmd(m: Mid, c: nat): (r: Mid)
    requires c < |m.scmds|
    ensures |r.scmds| == |m.scmds|
  {
    SetPhase(m, c, OnDoneQ).(ehCmdQ := Without(m.ehCmdQ, c), ehDoneQ := m.ehDoneQ + [c],
                             hostFailed := m.hostFailed - 1)
  }

  function SetRetries(m: Mid, c: nat, n: nat): (r: Mid)
    requires c < |m.scmds|
    ensures |r.scmds| == |m.scmds|
  {
    m.(scmds := m.scmds[c := m.scmds[c].(retries := n)])
  }

  /** scsi_eh_flush_done_q: every command on eh_done_q is finished. */
  function FlushDoneQ(m: Mid): (r: Mid)
    ensures |r.scmds| == |m.scmds|
  {
    m.(ehDoneQ := [],
       scmds := seq(|m.scmds|, i requires 0 <= i < |m.scmds| =>
                      if i in m.ehDoneQ
                      then m.scmds[i].(phase := Finished, dones := m.scmds[i].dones + 1)
                      else m.scmds[i]))
  }

  // ---- queued commands ----

  /** qc->scsidone: the midlayer's callback, or ata_eh_scsidone, which does nothing. */
  datatype Done = ScsiDone | EhScsiDone

  /** One ata_queued_cmd.  scsicmd is None for the internal command; serial identifies one
      allocation of the slot. */
  datatype Qc = Qc(tag: nat, active: bool, failed: bool, sense: bool, ncq: bool, err: ErrMask,
                   scsicmd: Option<nat>, done: Done, serial: nat, result: ResultTf)

  /** What happened to one tags qc. */
  datatype Life = Life(tag: nat, issued: bool, completions: nat, frees: nat)

  /** The three fields ata_exec_internal saves and restores. */
  datatype Regs = Regs(activeTag: nat, sactive: set<nat>, qcActive: set<nat>)

  const IDLE_REGS := Regs(ATA_TAG_POISON, {}, {})

  datatype Port = Port(qcmd: seq<Qc>, tags: set<nat>, regs: Regs, frozen: bool,
                       ehPending: bool, ehScheduled: bool, mid: Mid, life: seq<Life>, warned: bool)

  predicate WellFormed(p: Port) {
    && |p.qcmd| == ATA_MAX_QUEUE
    && (forall i :: 0 <= i < ATA_MAX_QUEUE && i in p.tags ==>
          p.qcmd[i].serial < |p.life| && (p.qcmd[i].scsicmd.Some? ==> p.qcmd[i].scsicmd.value < |p.mid.scmds|))
  }

  predicate Owned(p: Port, t: nat) { WellFormed(p) && t < ATA_MAX_QUEUE && t in p.tags }

  /** ata_qc_from_tag finds a qc: it is ACTIVE and not FAILED. */
  predicate FromTag(p: Port, t: nat) {
    t < |p.qcmd| && p.qcmd[t].active && !p.qcmd[t].failed
  }

  /** Going from p to r, an operation on tag t touches no other qc, no other tag, not FROZEN; it
      takes no tag, starts no NCQ command, fills no eh_done_q, forgets no pending error. */
  predicate OnlyTag(p: Port, r: Port, t: nat) {
    && t < |p.qcmd| == |r.qcmd|
    && (forall i :: 0 <= i < |p.qcmd| && i != t ==> r.qcmd[i] == p.qcmd[i])
    && r.tags - {t} == p.tags - {t} && r.tags <= p.tags
    && r.frozen == p.frozen && r.regs.sactive <= p.regs.sactive
    && (p.ehPending ==> r.ehPending)
    && r.mid.ehDoneQ == p.mid.ehDoneQ && (p.qcmd[t].scsicmd == None ==> r.mid == p.mid)
  }

  function SetQc(p: Port, t: nat, qc: Qc): (r: Port)
    requires t < |p.qcmd|
    ensures OnlyTag(p, r, t)
  {
    p.(qcmd := p.qcmd[t := qc])
  }

  /** ata_qc_free. */
  function QcFree(p: Port, t: nat): (r: Port)
    requires Owned(p, t)
    ensures WellFormed(r) && OnlyTag(p, r, t)
    ensures !r.qcmd[t].active
  {
    var n := p.qcmd[t].serial;
    SetQc(p, t, p.qcmd[t].(active := false, failed := false, sense := false, tag := ATA_TAG_POISON))
      .(tags := p.tags - {t},
        life := p.life[n := p.life[n].(frees := p.life[n].frees + 1)])
  }

  /** complete_fn: ata_scsi_qc_complete calls scsidone and frees the tag; the internal command's
      callback only wakes the waiter. */
  function CompleteFn(p: Port, t: nat): (r: Port)
    requires Owned(p, t)
    ensures WellFormed(r) && OnlyTag(p, r, t)
    ensures !p.qcmd[t].active ==> !r.qcmd[t].active
  {
    match p.qcmd[t].scsicmd
    case None => p
    case Some(c) =>
      QcFree(if p.qcmd[t].done == ScsiDone then p.(mid := MidDone(p.mid, c)) else p, t)
  }

  /** __ata_qc_complete up to the callback: mark the command inactive. */
  function Deactivate(p: Port, t: nat): (r: Port)
    requires Owned(p, t)
    ensures Owned(r, t) && OnlyTag(p, r, t)
    ensures !r.qcmd[t].active
  {
    var qc := p.qcmd[t];
    SetQc(p, t, qc.(active := false))
      .(warned := p.warned || !qc.active,
        regs := Regs(if qc.ncq then p.regs.activeTag else ATA_TAG_POISON,
                     if qc.ncq then p.regs.sactive - {t} else p.regs.sactive,
                     p.regs.qcActive - {t}),
        life := p.life[qc.serial := p.life[qc.serial].(completions := p.life[qc.serial].completions + 1)])
  }

  /** __ata_qc_complete. */
  function RawComplete(p: Port, t: nat): (r: Port)
    requires Owned(p, t)
    ensures WellFormed(r) && OnlyTag(p, r, t)
    ensures !r.qcmd[t].active
  {
    CompleteFn(Deactivate(p, t), t)
  }

  /** ata_qc_schedule_eh. */
  function ScheduleEh(p: Port, t: nat): (r: Port)
    requires Owned(p, t)
    ensures Owned(r, t) && OnlyTag(p, r, t)
    ensures r.qcmd[t].failed
  {
    var p' := SetQc(p, t, p.qcmd[t].(failed := true)).(ehPending := true);
    match p.qcmd[t].scsicmd
    case None => p'
    case Some(c) => p'.(mid := ReqAbort(p.mid, c))
  }

  /** ata_qc_complete; tf is what tf_read returns. */
  function QcComplete(p: Port, t: nat, tf: ResultTf): (r: Port)
    requires Owned(p, t)
    ensures WellFormed(r) && OnlyTag(p, r, t)
    ensures p.qcmd[t].failed ==> !FromTag(r, t)
  {
    var failed := p.qcmd[t].failed || p.qcmd[t].err != {};
    var p' := SetQc(p, t, p.qcmd[t].(failed := failed, result := tf)).(warned := p.warned || p.frozen);
    var r := if failed && t != ATA_TAG_INTERNAL then ScheduleEh(p', t) else RawComplete(p', t);
    OnlyTagTrans(p, p', r, t);
    r
  }

  lemma OnlyTagTrans(p: Port, q: Port, r: Port, t: nat)
    requires t < |p.qcmd| == |q.qcmd| && q == p.(qcmd := q.qcmd, warned := q.warned) && q.qcmd == p.qcmd[t := q.qcmd[t]]
    requires q.qcmd[t].scsicmd == p.qcmd[t].scsicmd && OnlyTag(q, r, t)
    ensures OnlyTag(p, r, t)
  {
  }

  /** Add error bits, optionally set FAILED, then ata_qc_complete. */
  function FailComplete(p: Port, t: nat, err: ErrMask, force: bool, tf: ResultTf): (r: Port)
    requires Owned(p, t)
    ensures WellFormed(r) && OnlyTag(p, r, t)
    ensures force ==> !FromTag(r, t)
  {
    QcComplete(SetQc(p, t, p.qcmd[t].(err := p.qcmd[t].err + err, failed := p.qcmd[t].failed || force)), t, tf)
  }

  // ---- completing many, aborting, freezing ----

  /** The loop of ata_qc_complete_multiple over tags below n. */
  function CompleteTags(p: Port, done: set<nat>, n: nat, tf: ResultTf): (r: Port)
    requires WellFormed(p) && n <= ATA_MAX_QUEUE && ActiveOwned(p)
    ensures WellFormed(r) && ActiveOwned(r)
  {
    if n == 0 then p else
    var q := CompleteTags(p, done, n - 1, tf);
    if n - 1 in done && FromTag(q, n - 1) then
      ActiveOwnedKept(q, n - 1, {}, false, tf);
      FailComplete(q, n - 1, {}, false, tf)
    else q
  }

  /** Active qcs hold their tags. */
  predicate ActiveOwned(p: Port) {
    forall i :: 0 <= i < |p.qcmd| && p.qcmd[i].active ==> i in p.tags
  }

  lemma ActiveOwnedKept(p: Port, t: nat, err: ErrMask, force: bool, tf: ResultTf)
    requires Owned(p, t) && ActiveOwned(p)
    ensures ActiveOwned(FailComplete(p, t, err, force, tf))
  {
    var r := FailComplete(p, t, err, force, tf);
    forall i | 0 <= i < |r.qcmd| && r.qcmd[i].active
      ensures i in r.tags
    {
      if i != t { assert i in p.tags - {t}; }
    }
  }

  function CountFromTag(p: Port, done: set<nat>, n: nat): nat
    requires WellFormed(p) && n <= ATA_MAX_QUEUE
  {
    if n == 0 then 0 else
    CountFromTag(p, done, n - 1) + if n - 1 in done && FromTag(p, n - 1) then 1 else 0
  }

  /** ata_qc_complete_multiple: -EINVAL (None) if a tag appears that was not active. */
  function CompleteMultiple(p: Port, active: set<nat>, tf: ResultTf): (r: (Port, Option<nat>))
    requires WellFormed(p) && ActiveOwned(p)
    ensures WellFormed(r.0) && ActiveOwned(r.0)
  {
    var done := (p.regs.qcActive - active) + (active - p.regs.qcActive);
    if done * active != {} then (p, None)
    else (CompleteTags(p, done, ATA_MAX_QUEUE, tf), Some(CountFromTag(p, done, ATA_MAX_QUEUE)))
  }

  /** The loop of ata_port_abort over tags below n. */
  function AbortTags(p: Port, n: nat, tf: ResultTf): (r: Port)
    requires WellFormed(p) && n <= ATA_MAX_QUEUE && ActiveOwned(p)
    ensures WellFormed(r) && ActiveOwned(r)
  {
    if n == 0 then p else
    var q := AbortTags(p, n - 1, tf);
    if FromTag(q, n - 1) then
      ActiveOwnedKept(q, n - 1, {}, true, tf);
      FailComplete(q, n - 1, {}, true, tf)
    else q
  }

  /** ata_port_schedule_eh. */
  function PortScheduleEh(p: Port): Port { p.(ehPending := true, ehScheduled := true) }

  /** ata_port_abort. */
  function PortAbort(p: Port, tf: ResultTf): (r: Port)
    requires WellFormed(p) && ActiveOwned(p)
    ensures WellFormed(r) && ActiveOwned(r)
  {
    var q := AbortTags(p, ATA_MAX_QUEUE, tf);
    if exists t: nat :: t < ATA_MAX_QUEUE && FromTag(p, t) then q else PortScheduleEh(q)
  }

  /** ata_port_freeze: abort, then set FROZEN. */
  function PortFreeze(p: Port, tf: ResultTf): (r: Port)
    requires WellFormed(p) && ActiveOwned(p)
    ensures WellFormed(r) && ActiveOwned(r)
  {
    PortAbort(p, tf).(frozen := true)
  }

  // ---- issuing ----

  /** The scan of ata_qc_new: the first free tag from n on, never the internal one. */
  function FirstFree(tags: set<nat>, n: nat): Option<nat>
    decreases ATA_TAG_INTERNAL - n
  {
    if n >= ATA_TAG_INTERNAL then None
    else if n !in tags then Some(n)
    else FirstFree(tags, n + 1)
  }

  function QcNewTag(p: Port): Option<nat> {
    if p.frozen then None else FirstFree(p.tags, 0)
  }

  /** Take tag t and initialise its qc (ata_qc_new, ata_qc_new_init, ata_qc_reinit). */
  function QcTake(p: Port, t: nat, scsicmd: Option<nat>): (r: Port)
    requires WellFormed(p) && t < ATA_MAX_QUEUE && t !in p.tags
    requires scsicmd.Some? ==> scsicmd.value < |p.mid.scmds|
    ensures Owned(r, t)
  {
    SetQc(p, t, Qc(t, false, false, false, false, {}, scsicmd, ScsiDone, |p.life|, TF_CLEAN))
      .(tags := p.tags + {t}, life := p.life + [Life(t, false, 0, 0)])
  }

  /** ata_qc_issue up to the point where the command is marked active. */
  function Activate(p: Port, t: nat, ncq: bool): (r: Port)
    requires Owned(p, t)
    ensures Owned(r, t)
  {
    var n := p.qcmd[t].serial;
    SetQc(p, t, p.qcmd[t].(active := true, ncq := ncq))
      .(warned := p.warned || TagValid(p.regs.activeTag) || (if ncq then t in p.regs.sactive else p.regs.sactive != {}),
        regs := Regs(if ncq then p.regs.activeTag else t,
                     if ncq then p.regs.sactive + {t} else p.regs.sactive,
                     p.regs.qcActive + {t}),
        life := p.life[n := p.life[n].(issued := true)])
  }

  /** What ata_qc_issue meets: err is empty when mapping and the controller accept the command. */
  function IssueErr(mapOk: bool, issueErr: ErrMask): ErrMask {
    if !mapOk then {System} else issueErr
  }

  /** ata_qc_issue. */
  function QcIssue(p: Port, t: nat, ncq: bool, err: ErrMask, tf: ResultTf): (r: Port)
    requires Owned(p, t)
    ensures WellFormed(r)
  {
    var q := Activate(p, t, ncq);
    if err == {} then q else FailComplete(q, t, err, false, tf)
  }

  /** ata_scmd_need_defer. */
  predicate NeedDefer(d: DevFlags, regs: Regs, isIo: bool) {
    d.ncq && !(if isIo then !TagValid(regs.activeTag) else !TagValid(regs.activeTag) && regs.sactive == {})
  }

  /** Outcome of the translator: an ATA command, or finished without one (error or nothing to do). */
  datatype Xlat = Command | Early

  /** ata_scsi_translate for a fresh SCSI command. */
  function Translate(p: Port, d: DevFlags, isIo: bool, x: Xlat, err: ErrMask, tf: ResultTf, allowed: nat): (r: Port)
    requires WellFormed(p)
    ensures WellFormed(r)
  {
    if NeedDefer(d, p.regs, isIo) then p else
    var c := |p.mid.scmds|;
    match QcNewTag(p)
    case None =>
      StartScmd(p, ATA_TAG_POISON, allowed).(mid := MidDone(StartScmd(p, ATA_TAG_POISON, allowed).mid, c))
    case Some(t) =>
      FirstFreeIsFree(p.tags, 0);
      var q := QcTake(StartScmd(p, t, allowed), t, Some(c));
      if x == Early then
        var f := QcFree(q, t);
        f.(mid := MidDone(f.mid, c))
      else QcIssue(q, t, isIo && UsesNcq(d), err, tf)
  }

  /** The midlayer starts a command: its timer runs. */
  function StartScmd(p: Port, t: nat, allowed: nat): (r: Port)
    ensures |r.mid.scmds| == |p.mid.scmds| + 1
    ensures WellFormed(p) ==> WellFormed(r)
  {
    p.(mid := p.mid.(scmds := p.mid.scmds + [Scmd(Armed, t, 0, 0, allowed)]))
  }

  lemma {:induction false} FirstFreeIsFree(tags: set<nat>, n: nat)
    ensures FirstFree(tags, n).Some? ==>
              var t := FirstFree(tags, n).value;
              n <= t < ATA_TAG_INTERNAL && t !in tags && forall k :: n <= k < t ==> k in tags
    ensures FirstFree(tags, n).None? ==> forall k :: n <= k < ATA_TAG_INTERNAL ==> k in tags
    decreases ATA_TAG_INTERNAL - n
  {
    if n < ATA_TAG_INTERNAL && n in tags { FirstFreeIsFree(tags, n + 1); }
  }

  // ---- error handler ----

  /** The qc of a timed-out command, as ata_scsi_error looks for it from tag n on. */
  function FindQc(p: Port, c: nat, n: nat): Option<nat>
    requires WellFormed(p)
    decreases ATA_MAX_QUEUE - n
  {
    if n >= ATA_MAX_QUEUE then None
    else if p.qcmd[n].active && p.qcmd[n].scsicmd == Some(c) then Some(n)
    else FindQc(p, c, n + 1)
  }

  /** One command of eh_cmd_q in ata_scsi_error: mark its qc timed out, or finish a command whose
      qc completed between the timeout and now. */
  function SortOutOne(p: Port, c: nat): (r: Port)
    requires WellFormed(p) && c < |p.mid.scmds|
    ensures WellFormed(r) && |r.mid.scmds| == |p.mid.scmds|
  {
    match FindQc(p, c, 0)
    case Some(t) =>
      FindQcFound(p, c, 0);
      if p.qcmd[t].failed then p
      else SetQc(p, t, p.qcmd[t].(err := p.qcmd[t].err + {Timeout}, failed := true))
    case None => p.(mid := EhFinishCmd(SetRetries(p.mid, c, p.mid.scmds[c].allowed), c))
  }

  lemma {:induction false} FindQcFound(p: Port, c: nat, n: nat)
    requires WellFormed(p)
    ensures FindQc(p, c, n).Some? ==>
              var t := FindQc(p, c, n).value;
              t < ATA_MAX_QUEUE && p.qcmd[t].active && p.qcmd[t].scsicmd == Some(c)
    ensures FindQc(p, c, n).None? ==>
              forall k :: n <= k < ATA_MAX_QUEUE ==> !(p.qcmd[k].active && p.qcmd[k].scsicmd == Some(c))
    decreases ATA_MAX_QUEUE - n
  {
    if n < ATA_MAX_QUEUE && !(p.qcmd[n].active && p.qcmd[n].scsicmd == Some(c)) { FindQcFound(p, c, n + 1); }
  }

  predicate TimedOut(p: Port, c: nat)
    requires WellFormed(p)
  {
    FindQc(p, c, 0).Some? && FindQc(p, c, 0).value < ATA_MAX_QUEUE && !p.qcmd[FindQc(p, c, 0).value].failed
  }

  /** The walk of ata_scsi_error over the first n commands of the queue it found, with nr_timedout. */
  function SortOutQ(p: Port, q: seq<nat>, n: nat): (r: (Port, nat))
    requires WellFormed(p) && n <= |q| && forall c :: c in q ==> c < |p.mid.scmds|
    ensures WellFormed(r.0) && |r.0.mid.scmds| == |p.mid.scmds|
  {
    if n == 0 then (p, 0) else
    var (s, nr) := SortOutQ(p, q, n - 1);
    assert q[n - 1] in q;
    (SortOutOne(s, q[n - 1]), if TimedOut(s, q[n - 1]) then nr + 1 else nr)
  }

  /** Timeout sort-out of ata_scsi_error: freeze when a command really timed out. */
  function SortOut(p: Port): (r: Port)
    requires WellFormed(p) && forall c :: c in p.mid.ehCmdQ ==> c < |p.mid.scmds|
    ensures WellFormed(r)
  {
    var (s, nr) := SortOutQ(p, p.mid.ehCmdQ, |p.mid.ehCmdQ|);
    if nr > 0 then s.(frozen := true) else s
  }

  /** __ata_eh_qc_complete. */
  function EhRawComplete(p: Port, t: nat): (r: Port)
    requires Owned(p, t)
    ensures WellFormed(r) && |r.qcmd| == |p.qcmd| && r.tags - {t} == p.tags - {t}
    ensures forall i :: 0 <= i < |p.qcmd| && i != t ==> r.qcmd[i] == p.qcmd[i]
    ensures r.qcmd[t].failed ==> t in r.tags
  {
    var q := RawComplete(SetQc(p, t, p.qcmd[t].(done := EhScsiDone)), t);
    match p.qcmd[t].scsicmd
    case None => q
    case Some(c) => q.(warned := q.warned || TagValid(q.qcmd[t].tag), mid := EhFinishCmd(q.mid, c))
  }

  /** ata_eh_qc_complete before it completes the qc: no retries left. */
  function NoRetries(p: Port, t: nat): (r: Port)
    requires Owned(p, t)
    ensures Owned(r, t)
  {
    match p.qcmd[t].scsicmd
    case None => p
    case Some(c) => p.(mid := SetRetries(p.mid, c, p.mid.scmds[c].allowed))
  }

  /** ata_eh_qc_retry before it completes the qc: a command without error of its own gives one
      retry back. */
  function GiveBack(p: Port, t: nat): (r: Port)
    requires Owned(p, t)
    ensures Owned(r, t)
  {
    match p.qcmd[t].scsicmd
    case None => p
    case Some(c) =>
      var n := p.mid.scmds[c].retries;
      p.(mid := SetRetries(p.mid, c, if p.qcmd[t].err == {} && n > 0 then n - 1 else n))
  }

  /** The decision of ata_eh_finish for one failed qc. */
  function FinishPrep(p: Port, t: nat): (r: Port)
    requires Owned(p, t)
    ensures Owned(r, t) && r.tags == p.tags && |r.qcmd| == |p.qcmd|
    ensures forall i :: 0 <= i < |p.qcmd| && i != t ==> r.qcmd[i] == p.qcmd[i]
  {
    if Invalid in p.qcmd[t].err then NoRetries(p, t)
    else if p.qcmd[t].err != {} then GiveBack(p, t)
    else if p.qcmd[t].sense then NoRetries(p, t)
    else GiveBack(SetQc(p, t, p.qcmd[t].(result := TF_ZERO)), t)
  }

  /** One tag of ata_eh_finish. */
  function EhFinishTag(p: Port, t: nat): (r: Port)
    requires WellFormed(p) && t < ATA_MAX_QUEUE && (p.qcmd[t].failed ==> t in p.tags)
    ensures WellFormed(r)
  {
    if !p.qcmd[t].failed then p else EhRawComplete(FinishPrep(p, t), t)
  }

  /** Failed qcs hold their tags. */
  predicate FailedOwned(p: Port) {
    forall i :: 0 <= i < |p.qcmd| && p.qcmd[i].failed ==> i in p.tags
  }

  /** The loop of ata_eh_finish over tags below n. */
  function EhFinishTags(p: Port, n: nat): (r: Port)
    requires WellFormed(p) && n <= ATA_MAX_QUEUE && FailedOwned(p)
    ensures WellFormed(r) && FailedOwned(r)
  {
    if n == 0 then p else
    var q := EhFinishTags(p, n - 1);
    FinishKeepsOwned(q, n - 1);
    EhFinishTag(q, n - 1)
  }

  lemma FinishKeepsOwned(p: Port, t: nat)
    requires WellFormed(p) && t < ATA_MAX_QUEUE && FailedOwned(p)
    ensures FailedOwned(EhFinishTag(p, t))
  {
    hide EhRawComplete, FinishPrep;
    var r := EhFinishTag(p, t);
    if p.qcmd[t].failed {
      forall i | 0 <= i < |r.qcmd| && r.qcmd[i].failed ensures i in r.tags {
        if i != t { assert i in p.tags - {t}; }
      }
    }
  }

  // ---- internal commands ----

  /** ata_exec_internal up to ata_qc_issue, on a port that is not frozen. */
  function InternalBegin(p: Port): (r: Port)
    requires WellFormed(p) && ATA_TAG_INTERNAL !in p.tags
    ensures Owned(r, ATA_TAG_INTERNAL)
  {
    QcTake(p, ATA_TAG_INTERNAL, None).(regs := IDLE_REGS)
  }

  /** The timeout branch of ata_exec_internal: if the command is still active, charge it and freeze. */
  function InternalTimeout(p: Port, tf: ResultTf): (r: Port)
    requires WellFormed(p) && ActiveOwned(p)
    ensures WellFormed(r)
  {
    var qc := p.qcmd[ATA_TAG_INTERNAL];
    if qc.active then PortFreeze(SetQc(p, ATA_TAG_INTERNAL, qc.(err := qc.err + {Timeout})), tf) else p
  }

  /** The end of ata_exec_internal: free the tag, restore the saved fields. */
  function InternalEnd(p: Port, saved: Regs): (r: Port)
    requires Owned(p, ATA_TAG_INTERNAL)
    ensures WellFormed(r)
  {
    QcFree(p, ATA_TAG_INTERNAL).(regs := saved)
  }
}
