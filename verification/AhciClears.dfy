/** The other half of the shadow agreement: a command given to the controller stays in the register
    that is read until the hardware takes it out, so no interrupt completes a command early. */
module AhciClears {
  import opened Ata
  import opened PortModel
  import opened PortInvariant
  import opened PortIssue
  import opened PortPreserve
  import PortSystem
  import PortFrozen
  import opened Ahci

  // ---- what issue shows ----

  /** The qc of tag t becomes active between h and r and is not a failed one. */
  ghost predicate Starts(h: Hw, r: Hw, t: nat) {
    && t in r.p.regs.qcActive && t !in h.p.regs.qcActive
    && t < |r.p.qcmd| && !r.p.qcmd[t].failed
  }

  /** The qcs that become active, seen in the array. */
  ghost predicate NewQcs(p: Port, r: Port, t: Option<nat>) {
    && |r.qcmd| == |p.qcmd| == ATA_MAX_QUEUE
    && (forall i: nat :: i < ATA_MAX_QUEUE && p.qcmd[i].active ==> r.qcmd[i] == p.qcmd[i])
    && (forall i: nat :: i < ATA_MAX_QUEUE && !p.qcmd[i].active ==>
          (t == Some(i) <==> r.qcmd[i].active && !r.qcmd[i].failed))
  }

  lemma QueueQcs(p: Port, d: DevFlags, isIo: bool, x: Xlat, mapOk: bool, tf: ResultTf, allowed: nat)
    requires Inv(p, false, None) && Admissible(p, d)
    ensures NewQcs(p, Translate(p, d, isIo, x, IssueErr(mapOk, {}), tf, allowed), IssuedTag(p, d, isIo, x, mapOk))
  {
    hide FailComplete, Inv, QcTake, QcFree, Activate, MayIssue;
    ActiveOrFree(p);
    if !NeedDefer(d, p.regs, isIo) && QcNewTag(p).Some? {
      FirstFreeIsFree(p.tags, 0);
      var t := QcNewTag(p).value;
      FreeIsIdle(p, t);
      if x == Early {
        BounceNew(p, t, allowed);
      } else {
        DeferKeepsApart(p, d, isIo, t);
        IssueNew(p, t, isIo && UsesNcq(d), mapOk, tf, allowed);
      }
    }
  }

  lemma ActiveOrFree(p: Port)
    requires Inv(p, false, None)
    ensures |p.qcmd| == ATA_MAX_QUEUE
  {
  }

  lemma BounceNew(p: Port, t: nat, allowed: nat)
    requires WellFormed(p) && t < ATA_TAG_INTERNAL && t !in p.tags && !p.qcmd[t].active
    ensures var c := |p.mid.scmds|;
            var f := QcFree(QcTake(StartScmd(p, t, allowed), t, Some(c)), t);
            NewQcs(p, f.(mid := MidDone(f.mid, c)), None)
  {
    hide OnlyTag;
    var f := QcFree(QcTake(StartScmd(p, t, allowed), t, Some(|p.mid.scmds|)), t);
    assert forall i: nat :: i < ATA_MAX_QUEUE && i != t ==> f.qcmd[i] == p.qcmd[i];
  }

  lemma IssueNew(p: Port, t: nat, ncq: bool, mapOk: bool, tf: ResultTf, allowed: nat)
    requires Inv(p, false, None) && !p.frozen && t < ATA_TAG_INTERNAL && t !in p.tags && MayIssue(p.regs, t, ncq)
    requires |p.qcmd| == ATA_MAX_QUEUE && !p.qcmd[t].active
    ensures var q := Issued(p, t, ncq, allowed);
            && NewQcs(p, q, Some(t)) && (!mapOk ==> NewQcs(p, FailComplete(q, t, {System}, false, tf), None))
  {
    hide FailComplete, InvTags, InvRegs, InvQuiet, InvLink, InvMid, InvLife, Issued;
    IssuedShape(p, t, ncq, allowed);
    IssuedKeeps(p, t, ncq, allowed);
    if !mapOk { FailKeeps(Issued(p, t, ncq, allowed), false, None, t, {System}, false, tf); }
  }

  /** Issue shows every command it hands over, and nothing else: PxCI gains exactly the commands that
      start, PxSACT those of them that use NCQ. */
  lemma IssueShows(h: Hw, isIo: bool, x: Xlat, mapOk: bool, tf: ResultTf, allowed: nat)
    requires HwInv(h) && (!h.dev.ncq ==> h.p.regs.qcActive == {})
    ensures var r := Queue(h, isIo, x, mapOk, tf, allowed);
            && (forall t: nat :: t in r.ci <==> t in h.ci || Starts(h, r, t))
            && (forall t: nat :: t in r.sact <==> t in h.sact || (Starts(h, r, t) && t in r.p.regs.sactive))
  {
    var r := Queue(h, isIo, x, mapOk, tf, allowed);
    hide Translate, Inv, NoHiddenErrors, NewQcs;
    QueueRegs(h.p, h.dev, isIo, x, mapOk, tf, allowed);
    QueueQcs(h.p, h.dev, isIo, x, mapOk, tf, allowed);
    TranslateKeeps(h.p, h.dev, isIo, x, IssueErr(mapOk, {}), tf, allowed);
    StartsIs(h, r, IssuedTag(h.p, h.dev, isIo, x, mapOk));
  }

  lemma StartsIs(h: Hw, r: Hw, t: Option<nat>)
    requires Inv(h.p, false, None) && Inv(r.p, false, None) && NewQcs(h.p, r.p, t)
    requires t.Some? ==> t.value in r.p.regs.qcActive && t.value !in h.p.regs.qcActive
    ensures forall i: nat :: Starts(h, r, i) <==> t == Some(i)
  {
    hide InvTags, InvQuiet, InvLink, InvMid, InvLife;
  }

  // ---- the port underneath ----

  /** The step of the port system that a step here is; hardware progress and whole sessions are none. */
  function PortStep(h: Hw, st: Step): Option<PortSystem.Step> {
    match st
    case QueueCmd(isIo, x, mapOk, tf, allowed) => Some(PortSystem.Queue(isIo, x, IssueErr(mapOk, {}), tf, allowed))
    case SetFlags(d) => Some(PortSystem.SetFlags(d))
    case HwClears(_, _) => None
    case IrqOk(tf) => Some(PortSystem.IrqMultiple(ReadActive(h), tf))
    case IrqError(err, freeze, tf) => Some(PortSystem.IrqError(err, freeze, tf))
    case TimerFires(c) => Some(PortSystem.TimerFires(c))
    case TimeoutRuns(c) => Some(PortSystem.TimeoutRuns(c))
    case EhSession(_, _) => None
  }

  /** Apart from the registers this is the port system: each step but those two is one of its steps, on
      the same port, while the error handler is not running; hardware progress leaves the port alone,
      and only it and the issue of commands change the registers. */
  lemma SimulatesPort(h: Hw, st: Step)
    requires Enabled(h, st) && !st.EhSession?
    ensures var r := Next(h, st);
            var s := PortSystem.Sys(h.p, h.dev, PortSystem.Off);
            && (if st.HwClears? then r.ci == st.ci && r.sact == st.sact else st.QueueCmd? || (r.ci == h.ci && r.sact == h.sact))
            && match PortStep(h, st)
            case None => r.p == h.p && r.dev == h.dev
            case Some(x) => PortSystem.Enabled(s, x) && PortSystem.Next(s, x) == PortSystem.Sys(r.p, r.dev, PortSystem.Off)
  {
    hide Translate, CompleteMultiple, PortFreeze, PortSystem.ErrorIntr, PortSystem.Sane;
  }

  // ---- runs ----

  /** Every active command that has not failed is still in the register that is read, or hardware has
      cleared it. */
  ghost predicate Lower(h: Hw, cleared: set<nat>) {
    forall t: nat :: t in h.p.regs.qcActive && t < |h.p.qcmd| && !h.p.qcmd[t].failed ==> t in ReadActive(h) || t in cleared
  }

  /** The commands that were active before step k - 1 and are still, and that the hardware has taken
      out of the register that is read while they were. */
  ghost function Cleared(run: seq<Hw>, steps: seq<Step>, k: nat): set<nat>
    requires k < |run| && |run| == |steps| + 1
  {
    if k == 0 then {} else
    var now := if steps[k - 1].HwClears? then ReadActive(run[k - 1]) - ReadActive(run[k]) else {};
    (Cleared(run, steps, k - 1) + now) * run[k - 1].p.regs.qcActive * run[k].p.regs.qcActive
  }

  /** One step, for any set of commands known to be cleared. */
  lemma StepLower(h: Hw, st: Step, cleared: set<nat>)
    requires HwInv(h) && Enabled(h, st) && Lower(h, cleared)
    ensures var r := Next(h, st);
            var now := if st.HwClears? then ReadActive(h) - ReadActive(r) else {};
            Lower(r, (cleared + now) * h.p.regs.qcActive * r.p.regs.qcActive)
  {
    hide Inv, NoHiddenErrors, PortSystem.ErrorIntr, Translate, HostIntr, CompleteTags, FailComplete;
    match st
    case QueueCmd(isIo, x, mapOk, tf, allowed) => QueueLower(h, isIo, x, mapOk, tf, allowed, cleared);
    case SetFlags(_) =>
    case HwClears(_, _) =>
    case IrqOk(tf) => IrqLower(h, tf, cleared);
    case IrqError(err, freeze, tf) => ErrorLower(h, err, freeze, tf);
    case TimerFires(_) =>
    case TimeoutRuns(_) =>
    case EhSession(p, _) =>
  }

  lemma QueueLower(h: Hw, isIo: bool, x: Xlat, mapOk: bool, tf: ResultTf, allowed: nat, cleared: set<nat>)
    requires HwInv(h) && (!h.dev.ncq ==> h.p.regs.qcActive == {}) && Lower(h, cleared)
    ensures var r := Queue(h, isIo, x, mapOk, tf, allowed);
            Lower(r, cleared * h.p.regs.qcActive * r.p.regs.qcActive)
  {
    var r := Queue(h, isIo, x, mapOk, tf, allowed);
    hide Translate, Inv, NoHiddenErrors, NewQcs, Shadows, Starts;
    QueueRegs(h.p, h.dev, isIo, x, mapOk, tf, allowed);
    QueueQcs(h.p, h.dev, isIo, x, mapOk, tf, allowed);
    QueueKeeps(h, isIo, x, mapOk, tf, allowed);
    IssueShows(h, isIo, x, mapOk, tf, allowed);
    LowerAfter(h, r, IssuedTag(h.p, h.dev, isIo, x, mapOk), cleared);
  }

  lemma LowerAfter(h: Hw, r: Hw, t: Option<nat>, cleared: set<nat>)
    requires Inv(h.p, false, None) && Inv(r.p, false, None) && NewQcs(h.p, r.p, t) && Lower(h, cleared)
    requires forall i: nat :: i in r.ci <==> i in h.ci || Starts(h, r, i)
    requires forall i: nat :: i in r.sact <==> i in h.sact || (Starts(h, r, i) && i in r.p.regs.sactive)
    requires h.p.regs.sactive <= r.p.regs.sactive
    requires forall i :: i in h.p.regs.qcActive && i in r.p.regs.sactive ==> i in h.p.regs.sactive
    ensures Lower(r, cleared * h.p.regs.qcActive * r.p.regs.qcActive)
  {
    hide InvTags, InvRegs, InvQuiet, InvLink, InvMid, InvLife;
    SactiveIsActive(r.p);
    QcsRegs(h.p);
    QcsRegs(r.p);
  }

  lemma QcsRegs(p: Port)
    requires Inv(p, false, None)
    ensures forall t: nat :: t in p.regs.qcActive <==> t < |p.qcmd| && p.qcmd[t].active
  {
  }

  lemma IrqLower(h: Hw, tf: ResultTf, cleared: set<nat>)
    requires HwInv(h) && PortSystem.Sane(h.p) && Lower(h, cleared)
    ensures var r := HostIntr(h, tf).0; Lower(r, cleared * h.p.regs.qcActive * r.p.regs.qcActive)
  {
    hide Inv, HostIntr, NoHiddenErrors;
    HostIntrRegs(h, tf);
    HostIntrFrame(h, tf);
    HostIntrAgrees(h, tf);
    var r := HostIntr(h, tf).0;
    SactiveIsActive(h.p);
    SactiveIsActive(r.p);
    forall t: nat | t in r.p.regs.qcActive && t < |r.p.qcmd| && !r.p.qcmd[t].failed
      ensures t in ReadActive(r) || t in cleared * h.p.regs.qcActive * r.p.regs.qcActive
    {
      IrqQc(h, tf, t);
    }
  }

  /** A command that an interrupt leaves active is as it was. */
  lemma IrqQc(h: Hw, tf: ResultTf, t: nat)
    requires HwInv(h) && PortSystem.Sane(h.p)
    ensures var r := HostIntr(h, tf).0;
            t in r.p.regs.qcActive ==> t < |h.p.qcmd| == |r.p.qcmd| && r.p.qcmd[t] == h.p.qcmd[t]
  {
    hide CompleteTags, CountFromTag, InvTags, InvQuiet, InvLink, InvMid, InvLife, NoHiddenErrors;
    SactiveIsActive(h.p);
    var active := ReadActive(h);
    var was := h.p.regs.qcActive;
    var done := (was - active) + (active - was);
    assert done * active == {};
    CompletedQcs(h.p, done, ATA_MAX_QUEUE, tf);
    HostIntrRegs(h, tf);
  }

  lemma ErrorLower(h: Hw, err: ErrMask, freeze: bool, tf: ResultTf)
    requires HwInv(h) && PortSystem.Sane(h.p)
    ensures Lower(h.(p := PortSystem.ErrorIntr(h.p, err, freeze, tf)), {})
  {
    hide InvTags, InvRegs, InvQuiet, InvLink, InvMid, InvLife, PortSystem.ErrorIntr, NoHiddenErrors;
    PortFrozen.ErrorOutcome(h.p, err, freeze, tf);
    PortSystem.ErrorIntrKeeps(h.p, false, None, err, freeze, tf);
    QcsRegs(h.p);
    QcsRegs(PortSystem.ErrorIntr(h.p, err, freeze, tf));
  }

  lemma {:induction false} LowerKeeps(run: seq<Hw>, steps: seq<Step>, k: nat)
    requires IsRun(run, steps) && k < |run|
    ensures Lower(run[k], Cleared(run, steps, k))
  {
    if k == 0 {
    } else {
      hide HwInv, Next, Enabled, Init, Lower;
      LowerKeeps(run, steps, k - 1);
      RunKeeps(run, steps, k - 1);
      StepLower(run[k - 1], steps[k - 1], Cleared(run, steps, k - 1));
    }
  }

  /** At step j the hardware takes t out of the register that is read, and t's command stays active
      from then on up to state k. */
  ghost predicate TakenOut(run: seq<Hw>, steps: seq<Step>, j: nat, k: nat, t: nat)
    requires j < k < |run| && |run| == |steps| + 1
  {
    && steps[j].HwClears? && t in ReadActive(run[j]) && t !in ReadActive(run[j + 1])
    && forall i: nat :: j <= i <= k ==> t in run[i].p.regs.qcActive
  }

  lemma {:induction false} ClearedMeans(run: seq<Hw>, steps: seq<Step>, k: nat, t: nat)
    requires k < |run| && |run| == |steps| + 1 && t in Cleared(run, steps, k)
    ensures exists j: nat :: j < k && TakenOut(run, steps, j, k, t)
  {
    hide ReadActive;
    if k > 0 {
      if t in Cleared(run, steps, k - 1) {
        ClearedMeans(run, steps, k - 1, t);
        var j: nat :| j < k - 1 && TakenOut(run, steps, j, k - 1, t);
        assert TakenOut(run, steps, j, k, t);
      } else {
        assert TakenOut(run, steps, k - 1, k, t);
      }
    }
  }

  /** Nothing completes early.  An interrupt without error bits completes a command only if the
      hardware has taken it out of the register since the command was issued; failed commands, which
      are the error handler's, it never completes. */
  lemma OnlyClearedComplete(run: seq<Hw>, steps: seq<Step>, k: nat, tf: ResultTf, t: nat)
    requires IsRun(run, steps) && k < |steps| && steps[k] == IrqOk(tf)
    requires t in run[k].p.regs.qcActive && t !in run[k + 1].p.regs.qcActive
    ensures exists j: nat :: j < k && TakenOut(run, steps, j, k, t)
    ensures t < |run[k].p.qcmd| && !run[k].p.qcmd[t].failed
  {
    hide Inv, NoHiddenErrors, HostIntr;
    RunKeeps(run, steps, k);
    LowerKeeps(run, steps, k);
    HostIntrRegs(run[k], tf);
    QcsRegs(run[k].p);
    ClearedMeans(run, steps, k, t);
  }

  /** And none is forgotten: what the hardware has taken out, the next such interrupt completes. */
  lemma ClearedComplete(run: seq<Hw>, steps: seq<Step>, k: nat, tf: ResultTf, t: nat)
    requires IsRun(run, steps) && k < |steps| && steps[k] == IrqOk(tf)
    requires t in run[k].p.regs.qcActive && t !in ReadActive(run[k])
    ensures t < |run[k].p.qcmd|
    ensures t !in run[k + 1].p.regs.qcActive <==> !run[k].p.qcmd[t].failed
  {
    hide Inv, NoHiddenErrors, HostIntr, ReadActive;
    RunKeeps(run, steps, k);
    HostIntrRegs(run[k], tf);
    QcsRegs(run[k].p);
  }
}
