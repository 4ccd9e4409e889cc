/**
 The AHCI side of multi-command completion: the PxCI and PxSACT registers shadow qc_active and
 sactive.  An error handling session is one step here.
 */
module Ahci {
  import opened Ata
  import opened PortModel
  import opened PortInvariant
  import opened PortPreserve
  import opened PortIssue
  import opened PortRecovery
  import PortSystem
  import AtaPort

  /** A port with its device flags and the registers PxCI and PxSACT. */
  datatype Hw = Hw(p: Port, dev: DevFlags, ci: set<nat>, sact: set<nat>)

  // ---- the driver ----

  /** ahci_qc_issue: PxSACT for NCQ, then PxCI. */
  function IssueRegs(h: Hw, t: nat, ncq: bool): Hw {
    h.(sact := if ncq then h.sact + {t} else h.sact, ci := h.ci + {t})
  }

  /** The tag ata_scsi_translate issues to the controller, if it gets that far. */
  function IssuedTag(p: Port, d: DevFlags, isIo: bool, x: Xlat, mapOk: bool): Option<nat> {
    if NeedDefer(d, p.regs, isIo) || x == Early || !mapOk then None else QcNewTag(p)
  }

  /** A command from the midlayer; the controller itself refuses nothing. */
  function Queue(h: Hw, isIo: bool, x: Xlat, mapOk: bool, tf: ResultTf, allowed: nat): Hw
    requires WellFormed(h.p)
  {
    var p' := Translate(h.p, h.dev, isIo, x, IssueErr(mapOk, {}), tf, allowed);
    match IssuedTag(h.p, h.dev, isIo, x, mapOk)
    case None => h.(p := p')
    case Some(t) => IssueRegs(h, t, isIo && UsesNcq(h.dev)).(p := p')
  }

  /** The register ahci_host_intr reads. */
  function ReadActive(h: Hw): set<nat> { if h.p.regs.sactive != {} then h.sact else h.ci }

  /** ahci_host_intr without error bits; the result is ata_qc_complete_multiple's. */
  function HostIntr(h: Hw, tf: ResultTf): (r: (Hw, Option<nat>))
    requires PortSystem.Sane(h.p)
  {
    var (p', rc) := CompleteMultiple(h.p, ReadActive(h), tf);
    (h.(p := if rc.None? then PortFreeze(p', tf) else p'), rc)
  }

  // ---- shadow agreement ----

  /** The registers hold active commands only, and PxCI shows an NCQ command only while PxSACT does. */
  ghost predicate Shadows(h: Hw) {
    && h.sact <= h.p.regs.sactive && h.ci <= h.p.regs.qcActive
    && forall t :: t in h.ci && t in h.p.regs.sactive ==> t in h.sact
  }

  /** A qc the interrupt side can still find has no error on record. */
  ghost predicate NoHiddenErrors(p: Port) {
    forall t: nat :: FromTag(p, t) ==> p.qcmd[t].err == {}
  }

  ghost predicate HwInv(h: Hw) {
    && Inv(h.p, false, None) && Shadows(h) && NoHiddenErrors(h.p)
    && (h.p.regs.sactive != {} ==> UsesNcq(h.dev))
  }

  ghost predicate NoneFailed(p: Port) { forall t: nat :: t < |p.qcmd| ==> !p.qcmd[t].failed }

  /** The loop of ata_qc_complete_multiple takes the found qcs of the done mask out and leaves the
      others exactly as they were. */
  lemma {:induction false} CompletedQcs(p: Port, done: set<nat>, n: nat, tf: ResultTf)
    requires Inv(p, false, None) && ActiveOwned(p) && NoHiddenErrors(p) && n <= ATA_MAX_QUEUE
    ensures var r := CompleteTags(p, done, n, tf);
            Inv(r, false, None) && forall i: nat :: i < ATA_MAX_QUEUE ==>
              if i < n && i in done && FromTag(p, i) then !r.qcmd[i].active && !r.qcmd[i].failed else r.qcmd[i] == p.qcmd[i]
    decreases n
  {
    hide FailComplete, InvTags, InvRegs, InvQuiet, InvLink, InvMid, InvLife;
    CompleteTagsKeeps(p, false, None, done, n, tf);
    if n > 0 {
      CompletedQcs(p, done, n - 1, tf);
      CompletedNext(p, CompleteTags(p, done, n - 1, tf), CompleteTags(p, done, n, tf), done, n - 1, tf);
    }
  }

  lemma CompletedNext(p: Port, q: Port, r: Port, done: set<nat>, t: nat, tf: ResultTf)
    requires Inv(p, false, None) && Inv(q, false, None) && NoHiddenErrors(p) && t < ATA_MAX_QUEUE && |r.qcmd| == ATA_MAX_QUEUE
    requires forall i: nat :: i < ATA_MAX_QUEUE ==>
               if i < t && i in done && FromTag(p, i) then !q.qcmd[i].active && !q.qcmd[i].failed else q.qcmd[i] == p.qcmd[i]
    requires if t in done && FromTag(q, t) then Owned(q, t) && r == FailComplete(q, t, {}, false, tf) else r == q
    ensures forall i: nat :: i < ATA_MAX_QUEUE ==>
              if i < t + 1 && i in done && FromTag(p, i) then !r.qcmd[i].active && !r.qcmd[i].failed else r.qcmd[i] == p.qcmd[i]
  {
    hide FailComplete, InvTags, InvRegs, InvQuiet, InvLink, InvMid, InvLife;
    assert q.qcmd[t] == p.qcmd[t];
    if t in done && FromTag(q, t) {
      assert FromTag(p, t);
      CompletedOne(q, t, tf);
    }
  }

  lemma CompletedOne(q: Port, t: nat, tf: ResultTf)
    requires Inv(q, false, None) && FromTag(q, t) && q.qcmd[t].err == {} && t < ATA_MAX_QUEUE
    ensures Owned(q, t)
    ensures var r := FailComplete(q, t, {}, false, tf);
            !r.qcmd[t].active && !r.qcmd[t].failed && forall i: nat :: i < ATA_MAX_QUEUE && i != t ==> r.qcmd[i] == q.qcmd[i]
  {
    hide RawComplete, FailComplete;
    FoundIsQuiet(q, t);
    DoneIsRaw(q, t, tf);
    var q' := SetQc(q, t, q.qcmd[t].(result := tf));
    RawShape(q', t, q.qcmd[t].scsicmd.value);
  }

  /** The tags a completion run takes out. */
  ghost function Taken(p: Port, done: set<nat>, n: nat): set<nat> {
    set i: nat | i < n && i in done && FromTag(p, i)
  }

  lemma {:induction false} CountIsSize(p: Port, done: set<nat>, n: nat)
    requires WellFormed(p) && n <= ATA_MAX_QUEUE
    ensures CountFromTag(p, done, n) == |Taken(p, done, n)|
  {
    hide FromTag;
    if n == 0 {
      assert Taken(p, done, 0) == {};
    } else {
      CountIsSize(p, done, n - 1);
      assert n - 1 !in Taken(p, done, n - 1);
      if n - 1 in done && FromTag(p, n - 1) {
        assert Taken(p, done, n) == Taken(p, done, n - 1) + {n - 1};
      } else {
        assert Taken(p, done, n) == Taken(p, done, n - 1);
      }
    }
  }

  /** What a non-error interrupt does to the queue fields: exactly the active commands that the
      register no longer shows, failed ones excepted, leave qc_active. */
  lemma HostIntrRegs(h: Hw, tf: ResultTf)
    requires HwInv(h) && PortSystem.Sane(h.p)
    ensures var (r, rc) := HostIntr(h, tf);
            && rc.Some?
            && (forall t: nat :: t in r.p.regs.qcActive <==> t in h.p.regs.qcActive && (t in ReadActive(h) || h.p.qcmd[t].failed))
            && (forall t: nat :: t in r.p.regs.sactive <==> t in h.p.regs.sactive && t in r.p.regs.qcActive)
            && rc.value == |h.p.regs.qcActive| - |r.p.regs.qcActive|
            && Inv(r.p, false, None) && NoHiddenErrors(r.p)
  {
    hide Inv, CompleteTags, CountFromTag, NoHiddenErrors;
    var active := ReadActive(h);
    var was := h.p.regs.qcActive;
    SactiveIsActive(h.p);
    var done := (was - active) + (active - was);
    assert done * active == {};
    assert done == was - active;
    CompletedQcs(h.p, done, ATA_MAX_QUEUE, tf);
    CountIsSize(h.p, done, ATA_MAX_QUEUE);
    TakenRegs(h.p, CompleteTags(h.p, done, ATA_MAX_QUEUE, tf), done);
  }

  /** Taking the found qcs of `done` out, seen in the queue fields. */
  lemma TakenRegs(p: Port, r: Port, done: set<nat>)
    requires Inv(p, false, None) && Inv(r, false, None) && NoHiddenErrors(p) && done <= p.regs.qcActive
    requires forall i: nat :: i < ATA_MAX_QUEUE ==>
               if i in done && FromTag(p, i) then !r.qcmd[i].active && !r.qcmd[i].failed else r.qcmd[i] == p.qcmd[i]
    ensures forall t: nat :: t in r.regs.qcActive <==> t in p.regs.qcActive && (t !in done || p.qcmd[t].failed)
    ensures forall t: nat :: t in r.regs.sactive <==> t in p.regs.sactive && t in r.regs.qcActive
    ensures |Taken(p, done, ATA_MAX_QUEUE)| == |p.regs.qcActive| - |r.regs.qcActive|
    ensures NoHiddenErrors(r)
  {
    hide InvTags, InvQuiet, InvLink, InvMid, InvLife;
    var was := p.regs.qcActive;
    var gone := Taken(p, done, ATA_MAX_QUEUE);
    forall t: nat ensures t in r.regs.qcActive <==> t in was && t !in gone {
      assert t in was <==> t < ATA_MAX_QUEUE && p.qcmd[t].active;
    }
    assert r.regs.qcActive == was - gone;
    assert gone <= was;
    CardDiff(was, gone);
    forall t: nat | FromTag(r, t) ensures r.qcmd[t].err == {} { assert FromTag(p, t); }
  }

  lemma SactiveIsActive(p: Port)
    requires Inv(p, false, None)
    ensures p.regs.sactive <= p.regs.qcActive
    ensures p.regs.sactive != {} ==> p.regs.qcActive == p.regs.sactive
  {
    if p.regs.sactive != {} {
      forall t: nat ensures t in p.regs.qcActive <==> t in p.regs.sactive {}
    }
  }

  lemma CardDiff(a: set<nat>, b: set<nat>)
    requires b <= a
    ensures |a - b| == |a| - |b|
  {
    assert a == (a - b) + b;
  }

  /** A non-error interrupt keeps the agreement.  -EINVAL is not returned; with no failed command
      qc_active afterwards is the register that was read, and the result is the number of tags
      completed. */
  lemma HostIntrAgrees(h: Hw, tf: ResultTf)
    requires HwInv(h) && PortSystem.Sane(h.p)
    ensures HwInv(HostIntr(h, tf).0)
    ensures HostIntr(h, tf).1 == Some(|h.p.regs.qcActive| - |HostIntr(h, tf).0.p.regs.qcActive|)
    ensures NoneFailed(h.p) ==> HostIntr(h, tf).0.p.regs.qcActive == ReadActive(h)
  {
    hide Inv, HostIntr, NoHiddenErrors;
    HostIntrRegs(h, tf);
    SactiveIsActive(h.p);
    var r := HostIntr(h, tf).0;
    HostIntrFrame(h, tf);
    if NoneFailed(h.p) { ActiveInRange(h.p); }
    if h.p.regs.sactive == {} { assert r.p.regs.sactive == {}; }
  }

  lemma HostIntrFrame(h: Hw, tf: ResultTf)
    requires PortSystem.Sane(h.p)
    ensures var r := HostIntr(h, tf).0; r.dev == h.dev && r.ci == h.ci && r.sact == h.sact
  {
  }

  lemma ActiveInRange(p: Port)
    requires Inv(p, false, None)
    ensures forall t: nat :: t in p.regs.qcActive ==> t < |p.qcmd|
  {
  }

  // ---- steps ----

  datatype Step =
    | QueueCmd(isIo: bool, xlat: Xlat, mapOk: bool, tf: ResultTf, allowed: nat)
    | SetFlags(dev: DevFlags)
    | HwClears(ci: set<nat>, sact: set<nat>)
    | IrqOk(tf: ResultTf)
    | IrqError(err: ErrMask, freeze: bool, tf: ResultTf)
    | TimerFires(c: nat)
    | TimeoutRuns(c: nat)
    | EhSession(p: Port, dev: DevFlags)

  /** The hardware clears bits and sets none; it does not clear PxSACT for a command whose PxCI bit
      is still set (sections 3.3.13 and 3.3.14 of the AHCI specification 1.1). */
  ghost predicate Enabled(h: Hw, st: Step) {
    PortSystem.Sane(h.p) &&
    match st
    case QueueCmd(_, _, _, _, _) => !h.dev.ncq ==> h.p.regs.qcActive == {}
    case SetFlags(_) => h.p.regs.sactive == {}
    case HwClears(ci, sact) => ci <= h.ci && sact <= h.sact && forall t :: t in h.sact && t in ci ==> t in sact
    case TimerFires(c) => c < |h.p.mid.scmds| && h.p.mid.scmds[c].phase == Armed
    case TimeoutRuns(c) => c < |h.p.mid.scmds| && h.p.mid.scmds[c].phase == Expired
    // A whole error handling session: it leaves the port as PortRuns.SessionEnds and
    // PortRecovery.FlushKeeps say; the reset or engine restart empties the registers.
    case EhSession(p, _) =>
      Inv(p, false, None) && p.regs == IDLE_REGS && forall t: nat :: t < |p.qcmd| ==> !p.qcmd[t].active
    case _ => true
  }

  ghost function Next(h: Hw, st: Step): Hw
    requires Enabled(h, st)
  {
    match st
    case QueueCmd(isIo, x, mapOk, tf, allowed) => Queue(h, isIo, x, mapOk, tf, allowed)
    case SetFlags(d) => h.(dev := d)
    case HwClears(ci, sact) => h.(ci := ci, sact := sact)
    case IrqOk(tf) => HostIntr(h, tf).0
    case IrqError(err, freeze, tf) => h.(p := PortSystem.ErrorIntr(h.p, err, freeze, tf))
    case TimerFires(c) => h.(p := h.p.(mid := SetPhase(h.p.mid, c, Expired)))
    case TimeoutRuns(c) => h.(p := h.p.(mid := EhScmdAdd(h.p.mid, c)))
    case EhSession(p, dev) => Hw(p, dev, {}, {})
  }

  /** What translation does to the queue fields. */
  lemma QueueRegs(p: Port, d: DevFlags, isIo: bool, x: Xlat, mapOk: bool, tf: ResultTf, allowed: nat)
    requires Inv(p, false, None) && Admissible(p, d) && NoHiddenErrors(p)
    ensures var r := Translate(p, d, isIo, x, IssueErr(mapOk, {}), tf, allowed);
            && NoHiddenErrors(r)
            && match IssuedTag(p, d, isIo, x, mapOk)
               case Some(t) =>
                 t !in p.regs.qcActive && MayIssue(p.regs, t, isIo && UsesNcq(d)) && r.regs == RegsIssue(p.regs, t, isIo && UsesNcq(d))
               case None =>
                 p.regs.sactive <= r.regs.sactive && p.regs.qcActive <= r.regs.qcActive
                 && forall t :: t in p.regs.qcActive && t in r.regs.sactive ==> t in p.regs.sactive
  {
    hide FailComplete, Inv, QcTake, QcFree, Activate, NoHiddenErrors, MayIssue;
    if !NeedDefer(d, p.regs, isIo) && QcNewTag(p).Some? {
      FirstFreeIsFree(p.tags, 0);
      var t := QcNewTag(p).value;
      FreeIsIdle(p, t);
      if x == Early {
        BounceKeeps(p, t, allowed);
        BounceQcs(p, t, allowed);
      } else {
        DeferKeepsApart(p, d, isIo, t);
        IssueRegsOf(p, t, isIo && UsesNcq(d), mapOk, tf, allowed);
      }
    } else {
      NoTagQcs(p, allowed);
    }
  }

  lemma NoTagQcs(p: Port, allowed: nat)
    requires NoHiddenErrors(p)
    ensures var s := StartScmd(p, ATA_TAG_POISON, allowed);
            NoHiddenErrors(s.(mid := MidDone(s.mid, |p.mid.scmds|)))
  {
    var s := StartScmd(p, ATA_TAG_POISON, allowed);
    SameQcs(p, s.(mid := MidDone(s.mid, |p.mid.scmds|)));
  }

  lemma IssueRegsOf(p: Port, t: nat, ncq: bool, mapOk: bool, tf: ResultTf, allowed: nat)
    requires Inv(p, false, None) && !p.frozen && NoHiddenErrors(p) && t < ATA_TAG_INTERNAL && t !in p.tags
    requires MayIssue(p.regs, t, ncq)
    ensures var q := Issued(p, t, ncq, allowed);
            && q.regs == RegsIssue(p.regs, t, ncq) && NoHiddenErrors(q)
            && (!mapOk ==> FailComplete(q, t, {System}, false, tf).regs == q.regs
                           && NoHiddenErrors(FailComplete(q, t, {System}, false, tf)))
  {
    hide FailComplete, InvTags, InvRegs, InvQuiet, InvLink, InvMid, InvLife, Issued;
    IssuedShape(p, t, ncq, allowed);
    IssuedKeeps(p, t, ncq, allowed);
    if !mapOk { FailKeeps(Issued(p, t, ncq, allowed), false, None, t, {System}, false, tf); }
  }

  lemma FreeIsIdle(p: Port, t: nat)
    requires Inv(p, false, None) && t !in p.tags && t < ATA_TAG_INTERNAL
    ensures WellFormed(p) && !p.qcmd[t].active && t !in p.regs.qcActive
  {
  }

  lemma BounceQcs(p: Port, t: nat, allowed: nat)
    requires WellFormed(p) && t < ATA_TAG_INTERNAL && t !in p.tags && NoHiddenErrors(p)
    ensures var c := |p.mid.scmds|;
            var f := QcFree(QcTake(StartScmd(p, t, allowed), t, Some(c)), t);
            NoHiddenErrors(f.(mid := MidDone(f.mid, c)))
  {
    var f := QcFree(QcTake(StartScmd(p, t, allowed), t, Some(|p.mid.scmds|)), t);
    forall i: nat | FromTag(f, i) ensures f.qcmd[i].err == {} { assert FromTag(p, i); }
  }

  lemma QueueKeeps(h: Hw, isIo: bool, x: Xlat, mapOk: bool, tf: ResultTf, allowed: nat)
    requires HwInv(h) && (!h.dev.ncq ==> h.p.regs.qcActive == {})
    ensures HwInv(Queue(h, isIo, x, mapOk, tf, allowed))
  {
    hide Translate, Inv, NoHiddenErrors;
    TranslateKeeps(h.p, h.dev, isIo, x, IssueErr(mapOk, {}), tf, allowed);
    PortSystem.TranslateParts(h.p, h.dev, isIo, x, IssueErr(mapOk, {}), tf, allowed);
    QueueRegs(h.p, h.dev, isIo, x, mapOk, tf, allowed);
  }

  /** After an error interrupt every command is left to the error handler, still active. */
  lemma ErrorKeeps(h: Hw, err: ErrMask, freeze: bool, tf: ResultTf)
    requires HwInv(h) && PortSystem.Sane(h.p)
    ensures HwInv(h.(p := PortSystem.ErrorIntr(h.p, err, freeze, tf)))
  {
    hide Inv;
    PortSystem.ErrorIntrKeeps(h.p, false, None, err, freeze, tf);
    ErrorLeavesFailed(h.p, err, freeze, tf);
  }

  /** Aborting with errors on record loses no active command: all of them stay, failed. */
  lemma ErrorLeavesFailed(p: Port, err: ErrMask, freeze: bool, tf: ResultTf)
    requires Inv(p, false, None) && ActiveOwned(p)
    ensures var r := PortSystem.ErrorIntr(p, err, freeze, tf);
            NoHiddenErrors(r) && r.regs == p.regs
  {
    hide InvTags, InvRegs, InvQuiet, InvLink, InvMid, InvLife, FailComplete, AbortTags;
    var q := PortSystem.Charge(p, p.regs.activeTag, err);
    PortSystem.ChargeKeeps(p, false, None, p.regs.activeTag, err);
    AbortRegs(q, ATA_MAX_QUEUE, tf);
    AbortTagsGone(q, ATA_MAX_QUEUE, tf);
    var r := PortSystem.ErrorIntr(p, err, freeze, tf);
    assert r.qcmd == AbortTags(q, ATA_MAX_QUEUE, tf).qcmd;
    assert forall t: nat :: FromTag(r, t) == FromTag(AbortTags(q, ATA_MAX_QUEUE, tf), t);
  }

  lemma StepKeeps(h: Hw, st: Step)
    requires HwInv(h) && Enabled(h, st)
    ensures HwInv(Next(h, st))
  {
    hide Inv, NoHiddenErrors, Translate, PortSystem.ErrorIntr, HostIntr;
    match st
    case QueueCmd(isIo, x, mapOk, tf, allowed) => QueueKeeps(h, isIo, x, mapOk, tf, allowed);
    case SetFlags(_) =>
    case HwClears(_, _) =>
    case IrqOk(tf) => HostIntrAgrees(h, tf);
    case IrqError(err, freeze, tf) => ErrorKeeps(h, err, freeze, tf);
    case TimerFires(c) => TimerKeeps(h.p, c); SameQcs(h.p, Next(h, st).p);
    case TimeoutRuns(c) => TimeoutKeeps(h.p, c); SameQcs(h.p, Next(h, st).p);
    case EhSession(p, dev) => IdleKeeps(Hw(p, dev, {}, {}));
  }

  lemma IdleKeeps(h: Hw)
    requires Init(h)
    ensures HwInv(h)
  {
  }

  lemma SameQcs(p: Port, r: Port)
    requires NoHiddenErrors(p) && r.qcmd == p.qcmd
    ensures NoHiddenErrors(r)
  {
    assert forall t: nat :: FromTag(r, t) == FromTag(p, t);
  }

  // ---- whole runs ----

  /** A run starts with an idle port and empty registers, as a reset or an engine restart leaves them. */
  ghost predicate Init(h: Hw) {
    && Inv(h.p, false, None) && h.p.regs == IDLE_REGS && h.ci == {} && h.sact == {}
    && forall t: nat :: t < |h.p.qcmd| ==> !h.p.qcmd[t].active
  }

  ghost predicate IsRun(run: seq<Hw>, steps: seq<Step>) {
    && |run| == |steps| + 1 && Init(run[0])
    && forall k: nat :: k < |steps| ==> Enabled(run[k], steps[k]) && run[k + 1] == Next(run[k], steps[k])
  }

  lemma {:induction false} RunKeeps(run: seq<Hw>, steps: seq<Step>, k: nat)
    requires IsRun(run, steps) && k < |run|
    ensures HwInv(run[k])
  {
    if k > 0 {
      hide HwInv, Next, Enabled, Init;
      RunKeeps(run, steps, k - 1);
      StepKeeps(run[k - 1], steps[k - 1]);
    }
  }

  /** In every reachable state the registers show active commands only; whenever an interrupt
      without error bits comes, ata_qc_complete_multiple does not return -EINVAL, returns the number
      of tags it completed, and, if no command has failed, leaves qc_active equal to the register. */
  lemma ShadowAgreement(run: seq<Hw>, steps: seq<Step>, k: nat, tf: ResultTf)
    requires IsRun(run, steps) && k < |steps| && steps[k] == IrqOk(tf)
    ensures run[k].ci <= run[k].p.regs.qcActive && run[k].sact <= run[k].p.regs.qcActive
    ensures var rc := CompleteMultiple(run[k].p, ReadActive(run[k]), tf).1;
            rc == Some(|run[k].p.regs.qcActive| - |run[k + 1].p.regs.qcActive|)
    ensures NoneFailed(run[k].p) ==> run[k + 1].p.regs.qcActive == ReadActive(run[k])
  {
    hide Inv, NoHiddenErrors;
    RunKeeps(run, steps, k);
    HostIntrAgrees(run[k], tf);
    SactiveIsActive(run[k].p);
  }

  /** Why the order of clearing matters: an NCQ command leaves PxSACT first, is completed, and the
      next command, without NCQ, finds the stale PxCI bit: -EINVAL, an HSM error, a frozen port.
      For a controller state that shows a bit of a command that is not active, that always happens
      when PxCI is read. */
  lemma StaleCiIsFatal(h: Hw, tf: ResultTf)
    requires PortSystem.Sane(h.p) && h.p.regs.sactive == {}
    ensures HostIntr(h, tf).1.None? <==> !(h.ci <= h.p.regs.qcActive)
  {
    var was := h.p.regs.qcActive;
    var done := (was - h.ci) + (h.ci - was);
    if !(h.ci <= was) {
      var t :| t in h.ci && t !in was;
      assert t in done * h.ci;
    } else {
      assert done * h.ci == {};
    }
  }

  // ---- the driver in place ----

  class Hba {
    const ap: AtaPort.Ap
    var dev: DevFlags
    var ci: set<nat>
    var sact: set<nat>

    ghost function Now(): Hw
      reads this, ap, ap.qcmd
    {
      Hw(ap.State(), dev, ci, sact)
    }

    constructor (port: AtaPort.Ap, flags: DevFlags)
      ensures ap == port && Now() == Hw(port.State(), flags, {}, {})
    {
      ap, dev, ci, sact := port, flags, {}, {};
    }

    /** ahci_qc_issue. */
    method QcIssue(tag: nat, ncq: bool)
      modifies this`ci, this`sact
      ensures Now() == IssueRegs(old(Now()), tag, ncq)
    {
      if ncq { sact := sact + {tag}; }
      ci := ci + {tag};
    }

    /** ahci_host_intr when the interrupt status shows no error. */
    method HandleIntr(tf: ResultTf) returns (rc: Option<nat>)
      requires ap.Valid() && PortSystem.Sane(ap.State())
      modifies ap, ap.qcmd
      ensures ap.Valid() && (Now(), rc) == HostIntr(old(Now()), tf)
    {
      hide CompleteTags, PortAbort, CountFromTag;
      var qcActive := if ap.sactive != {} then sact else ci;
      rc := ap.CompleteMultiple(qcActive, tf);
      if rc.None? { var _ := ap.PortFreeze(tf); }
    }
  }
}
