/**
 Who is blamed for an error: ata_eh_analyze_ncq_error, ata_eh_analyze_tf and the per-command part
 of ata_eh_autopsy, on the port state of PortModel, up to the retries the midlayer sees.
 */
module NcqBlame {
  import opened Ata
  import opened PortModel
  import opened PortInvariant
  import opened PortRecovery
  import AtaPort

  datatype DevClass = AtaDisk | Atapi

  /** Log page 10h: the NQ bit says that the error was no NCQ command's. */
  datatype LogPage = LogPage(nq: bool, tag: nat, tf: ResultTf)

  /** What the driver gets from the device while it looks for causes: log page 10h (None if the read
      failed) and, per tag, the outcome of REQUEST SENSE. */
  datatype SenseRes = SenseOk | SenseFailed(err: ErrMask) | NoMemory

  // ---- ata_eh_analyze_ncq_error ----

  /** An LLDD that has analysed the error itself has marked some failed qc. */
  predicate Analyzed(p: Port) {
    exists t: nat :: t < |p.qcmd| && p.qcmd[t].failed && p.qcmd[t].err != {}
  }

  /** The error is an NCQ device error nobody has analysed yet. */
  predicate NcqDevError(p: Port, ehErr: ErrMask) {
    !p.frozen && p.regs.sactive != {} && Dev in ehErr && !Analyzed(p)
  }

  predicate LogNames(p: Port, log: Option<LogPage>) {
    log.Some? && !log.value.nq && log.value.tag in p.regs.sactive && log.value.tag < |p.qcmd|
  }

  /** ata_eh_analyze_ncq_error: new port and new ehc->i.err_mask. */
  function AnalyzeNcq(p: Port, ehErr: ErrMask, log: Option<LogPage>): (r: (Port, ErrMask))
    ensures |r.0.qcmd| == |p.qcmd|
  {
    if !NcqDevError(p, ehErr) || !LogNames(p, log) then (p, ehErr)
    else
      var t := log.value.tag;
      (SetQc(p, t, p.qcmd[t].(err := p.qcmd[t].err + {Dev}, result := log.value.tf)), ehErr - {Dev})
  }

  // ---- ata_eh_analyze_tf ----

  /** The device came back idle and ready. */
  predicate OnlyReady(status: bv8) { status & (ATA_BUSY | ATA_DRQ | ATA_DRDY) == ATA_DRDY }

  function TfErrors(error: bv8): ErrMask {
    (if error & ATA_ICRC != 0 then {AtaBus} else {})
    + (if error & ATA_UNC != 0 then {Media} else {})
    + (if error & ATA_IDNF != 0 then {Invalid} else {})
  }

  function AnalyzeTf(qc: Qc, cls: DevClass, sense: SenseRes): Qc {
    if !OnlyReady(qc.result.status) then qc.(err := qc.err + {Hsm})
    else if Dev !in qc.err then qc
    else
      match cls
      case AtaDisk => qc.(err := qc.err + TfErrors(qc.result.error))
      case Atapi =>
        match sense
        case SenseOk => qc.(sense := true)
        case SenseFailed(e) => qc.(err := qc.err + e)
        case NoMemory => qc
  }

  // ---- ata_eh_autopsy ----

  function DropOther(e: ErrMask): ErrMask { if e - {Other} != {} then e - {Other} else e }

  /** What ata_eh_autopsy makes of one failed qc. */
  function AutopsyQc(qc: Qc, ehErr: ErrMask, cls: DevClass, sense: SenseRes): Qc {
    var a := AnalyzeTf(qc.(err := qc.err + ehErr), cls, sense);
    var e1 := if AtaBus in a.err then a.err - {Dev, Media, Invalid} else a.err;
    var e2 := DropOther(e1);
    a.(err := if a.sense then e2 - {Dev, Other} else e2)
  }

  /** The loop of ata_eh_autopsy over tags below n. */
  function AutopsyTags(p: Port, ehErr: ErrMask, cls: DevClass, sense: seq<SenseRes>, n: nat): (r: Port)
    requires n <= |p.qcmd| <= |sense|
    ensures |r.qcmd| == |p.qcmd|
  {
    if n == 0 then p else
    var q := AutopsyTags(p, ehErr, cls, sense, n - 1);
    if q.qcmd[n - 1].failed then SetQc(q, n - 1, AutopsyQc(q.qcmd[n - 1], ehErr, cls, sense[n - 1])) else q
  }

  /** ata_eh_autopsy, as far as the queued commands go; ehErr is ehc->i.err_mask with SError folded in. */
  function Autopsy(p: Port, ehErr: ErrMask, log: Option<LogPage>, cls: DevClass, sense: seq<SenseRes>): (r: Port)
    requires |p.qcmd| <= |sense|
    ensures |r.qcmd| == |p.qcmd|
  {
    var (q, e) := AnalyzeNcq(p, ehErr, log);
    AutopsyTags(q, DropOther(e), cls, sense, |q.qcmd|)
  }

  /** The loop touches failed qcs only, each on its own. */
  lemma {:induction false} AutopsyTagsEach(p: Port, ehErr: ErrMask, cls: DevClass, sense: seq<SenseRes>, n: nat)
    requires n <= |p.qcmd| <= |sense|
    ensures var r := AutopsyTags(p, ehErr, cls, sense, n);
            && r == p.(qcmd := r.qcmd)
            && forall i: nat :: i < |p.qcmd| ==>
                 r.qcmd[i] == if i < n && p.qcmd[i].failed then AutopsyQc(p.qcmd[i], ehErr, cls, sense[i]) else p.qcmd[i]
  {
    hide AutopsyQc;
    if n > 0 { AutopsyTagsEach(p, ehErr, cls, sense, n - 1); }
  }

  /** The autopsy works on the port in place. */
  method RunAutopsy(ap: AtaPort.Ap, ehErr: ErrMask, log: Option<LogPage>, cls: DevClass, sense: seq<SenseRes>)
    requires ap.Valid() && |sense| >= ATA_MAX_QUEUE
    modifies ap.qcmd
    ensures ap.State() == Autopsy(old(ap.State()), ehErr, log, cls, sense)
  {
    hide AutopsyQc, OnlyTag, WellFormed;
    ghost var p := ap.State();
    assert |p.qcmd| == ATA_MAX_QUEUE by { assert ap.Valid(); }
    var e := ehErr;
    if !ap.frozen && ap.sactive != {} && Dev in e {
      var tag := 0;
      while tag < ATA_MAX_QUEUE && !(ap.qcmd[tag].failed && ap.qcmd[tag].err != {})
        invariant tag <= ATA_MAX_QUEUE
        invariant forall i: nat :: i < tag ==> !(p.qcmd[i].failed && p.qcmd[i].err != {})
      {
        tag := tag + 1;
      }
      if tag == ATA_MAX_QUEUE {
        match log
        case None =>
        case Some(page) =>
          if !page.nq && page.tag in ap.sactive && page.tag < ATA_MAX_QUEUE {
            ap.qcmd[page.tag] := ap.qcmd[page.tag].(err := ap.qcmd[page.tag].err + {Dev}, result := page.tf);
            e := e - {Dev};
          }
      }
    }
    assert (ap.State(), e) == AnalyzeNcq(p, ehErr, log);
    ghost var q := ap.State();
    e := DropOther(e);
    var tag := 0;
    while tag < ATA_MAX_QUEUE
      invariant tag <= ATA_MAX_QUEUE && ap.State() == AutopsyTags(q, e, cls, sense, tag)
    {
      if ap.qcmd[tag].failed {
        ap.qcmd[tag] := AutopsyQc(ap.qcmd[tag], e, cls, sense[tag]);
      }
      tag := tag + 1;
    }
  }

  /** Ready, not busy, no data wanted: bits 6, 7 and 3 of the status. */
  predicate IdleReady(status: bv8) { status & 0x40 != 0 && status & 0x80 == 0 && status & 0x08 == 0 }

  lemma IdleReadyIs(status: bv8)
    ensures OnlyReady(status) <==> IdleReady(status)
  {
  }

  /** The final verdict on a command of an ATA disk, bit by bit: each error stands exactly for what was
      charged to the command or the port, or seen in its taskfile (bits 7, 6 and 4 of the error register); a bus error overrides device, media
      and address errors, and any real error overrides AC_ERR_OTHER. */
  lemma VerdictExact(qc: Qc, ehErr: ErrMask, sense: SenseRes)
    requires !qc.sense
    ensures var e := AutopsyQc(qc, ehErr, AtaDisk, sense).err;
            var charged := qc.err + ehErr;
            var seen := IdleReady(qc.result.status) && AcErr.Dev in charged;
            var bus := AtaBus in charged || (seen && qc.result.error & 0x80 != 0);
            && (AtaBus in e <==> bus)
            && (AcErr.Hsm in e <==> AcErr.Hsm in charged || !IdleReady(qc.result.status))
            && (AcErr.Dev in e <==> AcErr.Dev in charged && !bus)
            && (Media in e <==> (Media in charged || (seen && qc.result.error & 0x40 != 0)) && !bus)
            && (Invalid in e <==> (Invalid in charged || (seen && qc.result.error & 0x10 != 0)) && !bus)
            && (Timeout in e <==> Timeout in charged) && (HostBus in e <==> HostBus in charged)
            && (System in e <==> System in charged)
            && (Other in e <==> Other in charged && e == {Other})
            && (e == {} <==> charged == {} && IdleReady(qc.result.status))
  {
    hide OnlyReady, IdleReady, TfErrors, DropOther, AnalyzeTf;
    IdleReadyIs(qc.result.status);
    var q := qc.(err := qc.err + ehErr);
    AnalyzeExact(q, sense);
    FoldExact(AnalyzeTf(q, AtaDisk, sense).err);
  }

  /** What the taskfile adds, bit by bit. */
  lemma AnalyzeExact(qc: Qc, sense: SenseRes)
    ensures var a := AnalyzeTf(qc, AtaDisk, sense);
            var seen := OnlyReady(qc.result.status) && AcErr.Dev in qc.err;
            && a.sense == qc.sense && (a.err == {} <==> qc.err == {} && OnlyReady(qc.result.status))
            && (AcErr.Hsm in a.err <==> AcErr.Hsm in qc.err || !OnlyReady(qc.result.status))
            && (AtaBus in a.err <==> AtaBus in qc.err || (seen && qc.result.error & ATA_ICRC != 0))
            && (Media in a.err <==> Media in qc.err || (seen && qc.result.error & ATA_UNC != 0))
            && (Invalid in a.err <==> Invalid in qc.err || (seen && qc.result.error & ATA_IDNF != 0))
            && (AcErr.Dev in a.err <==> AcErr.Dev in qc.err) && (Timeout in a.err <==> Timeout in qc.err)
            && (HostBus in a.err <==> HostBus in qc.err) && (System in a.err <==> System in qc.err)
            && (Other in a.err <==> Other in qc.err)
  {
    hide OnlyReady;
    var a := AnalyzeTf(qc, AtaDisk, sense);
    if !OnlyReady(qc.result.status) { assert AcErr.Hsm in a.err; }
    if e: AcErr :| e in qc.err { assert e in a.err; }
  }

  /** Overriding, bit by bit. */
  lemma FoldExact(x: ErrMask)
    ensures var e := DropOther(if AtaBus in x then x - {AcErr.Dev, Media, Invalid} else x);
            && (AtaBus in e <==> AtaBus in x) && (AcErr.Hsm in e <==> AcErr.Hsm in x) && (Timeout in e <==> Timeout in x)
            && (HostBus in e <==> HostBus in x) && (System in e <==> System in x)
            && (AcErr.Dev in e <==> AcErr.Dev in x && AtaBus !in x)
            && (Media in e <==> Media in x && AtaBus !in x) && (Invalid in e <==> Invalid in x && AtaBus !in x)
            && (Other in e <==> Other in x && e == {Other})
            && (e == {} <==> x == {})
  {
    var y := if AtaBus in x then x - {AcErr.Dev, Media, Invalid} else x;
    if y - {Other} == {} && Other in y { assert y == {Other}; }
    if y - {Other} != {} { assert Other !in DropOther(y); }
    if AtaBus in x { assert AtaBus in y; }
  }

  /** An ATAPI command whose sense data was fetched keeps no device error: the sense data tells. */
  lemma SenseTrumps(qc: Qc, ehErr: ErrMask)
    requires IdleReady(qc.result.status) && AcErr.Dev in qc.err + ehErr
    ensures var a := AutopsyQc(qc, ehErr, Atapi, SenseOk);
            a.sense && AcErr.Dev !in a.err && Other !in a.err
            && (qc.err + ehErr == {AcErr.Dev} ==> a.err == {})
  {
    IdleReadyIs(qc.result.status);
    if qc.err + ehErr == {AcErr.Dev} {
      var d: ErrMask := {AcErr.Dev};
      assert d - {Other} == d && d - {AcErr.Dev, Other} == {};
    }
  }

  /** An ATAPI command: REQUEST SENSE is sent exactly if the device is idle and ready and a device error
      is charged.  Sense data that arrives is noted; an attempt that fails adds its own errors.  As long
      as there is no sense data the errors override each other as they do for a disk. */
  lemma AtapiVerdict(qc: Qc, ehErr: ErrMask, sense: SenseRes)
    requires !qc.sense
    ensures var a := AutopsyQc(qc, ehErr, Atapi, sense);
            var charged := qc.err + ehErr;
            var asked := IdleReady(qc.result.status) && AcErr.Dev in charged;
            var x := charged + if !IdleReady(qc.result.status) then {AcErr.Hsm} else if asked && sense.SenseFailed? then sense.err else {};
            && (a.sense <==> asked && sense.SenseOk?)
            && (!a.sense ==>
                  && (AtaBus in a.err <==> AtaBus in x) && (AcErr.Hsm in a.err <==> AcErr.Hsm in x)
                  && (Timeout in a.err <==> Timeout in x) && (HostBus in a.err <==> HostBus in x) && (System in a.err <==> System in x)
                  && (AcErr.Dev in a.err <==> AcErr.Dev in x && AtaBus !in x) && (Media in a.err <==> Media in x && AtaBus !in x)
                  && (Invalid in a.err <==> Invalid in x && AtaBus !in x) && (a.err == {} <==> x == {}))
  {
    hide OnlyReady, IdleReady, DropOther;
    IdleReadyIs(qc.result.status);
    var charged := qc.err + ehErr;
    var asked := IdleReady(qc.result.status) && AcErr.Dev in charged;
    var none: ErrMask := {};
    var x := charged + if !IdleReady(qc.result.status) then {AcErr.Hsm} else if asked && sense.SenseFailed? then sense.err else none;
    assert charged + none == charged;
    FoldExact(x);
  }

  // ---- isolation ----

  /** An innocent qc: aborted without an error of its own while the device was idle and ready. */
  predicate Innocent(qc: Qc) { qc.failed && qc.err == {} && !qc.sense && IdleReady(qc.result.status) }

  /** The port as the error handler finds it after an NCQ device error. */
  ghost predicate AfterNcqError(p: Port, ehErr: ErrMask) {
    Inv(p, true, None) && NcqDevError(p, ehErr)
  }

  lemma InnocentStays(qc: Qc, cls: DevClass, sense: SenseRes)
    requires Innocent(qc)
    ensures AutopsyQc(qc, {}, cls, sense) == qc
  {
    IdleReadyIs(qc.result.status);
    assert qc.err + {} == {};
  }

  lemma ResultStays(qc: Qc, ehErr: ErrMask, cls: DevClass, sense: SenseRes)
    ensures AutopsyQc(qc, ehErr, cls, sense).result == qc.result
  {
  }

  /** Without a port-level device error nobody new is charged with one. */
  lemma NoNewDev(qc: Qc, ehErr: ErrMask, sense: SenseRes)
    requires Dev !in qc.err && Dev !in ehErr
    ensures Dev !in AutopsyQc(qc, ehErr, AtaDisk, sense).err
  {
  }

  /** A device error stays on the record unless the taskfile shows a bus error; some error always
      stays. */
  lemma DevSticks(qc: Qc, ehErr: ErrMask, sense: SenseRes)
    requires Dev in qc.err + ehErr && !qc.sense
    ensures var e := AutopsyQc(qc, ehErr, AtaDisk, sense).err;
            (Dev in e || AtaBus in e) && (AtaBus !in qc.err + ehErr && (!IdleReady(qc.result.status) || qc.result.error & 0x80 == 0) ==> Dev in e)
  {
    IdleReadyIs(qc.result.status);
  }

  /** Blame isolation.  When log page 10h names an active NCQ command, whatever the result
      taskfiles say: only that command can be charged with a device error, and it does end up with an
      error, its result taskfile the one of the log page; commands that have not failed are left alone.
      With no other port-level error the innocent ones come out exactly as they went in. */
  lemma BlameIsolated(p: Port, ehErr: ErrMask, log: Option<LogPage>, sense: seq<SenseRes>)
    requires AfterNcqError(p, ehErr) && LogNames(p, log) && |sense| >= ATA_MAX_QUEUE
    ensures var r := Autopsy(p, ehErr, log, AtaDisk, sense);
            var t := log.value.tag;
            && p.qcmd[t].active && p.qcmd[t].ncq
            && (forall i: nat :: i < ATA_MAX_QUEUE && p.qcmd[i].failed && Dev in r.qcmd[i].err ==> i == t)
            && (!p.qcmd[t].sense ==> Dev in r.qcmd[t].err || AtaBus in r.qcmd[t].err)
            && r.qcmd[t].result == log.value.tf
            && (forall i: nat :: i < ATA_MAX_QUEUE && !p.qcmd[i].failed ==> r.qcmd[i] == p.qcmd[i])
            && (forall i: nat :: i < ATA_MAX_QUEUE && i != t ==> r.qcmd[i].result == p.qcmd[i].result)
            && (ehErr == {Dev} ==> forall i: nat :: i < ATA_MAX_QUEUE && i != t && Innocent(p.qcmd[i]) ==> r.qcmd[i] == p.qcmd[i])
  {
    hide AutopsyQc;
    var t := log.value.tag;
    assert p.qcmd[t].active && p.qcmd[t].ncq && t < ATA_TAG_INTERNAL;
    assert p.qcmd[t].failed;
    var (q, e) := AnalyzeNcq(p, ehErr, log);
    AutopsyTagsEach(q, DropOther(e), AtaDisk, sense, |q.qcmd|);
    forall i: nat | i < ATA_MAX_QUEUE && i != t && p.qcmd[i].failed
      ensures Dev !in AutopsyQc(p.qcmd[i], DropOther(e), AtaDisk, sense[i]).err
    {
      assert p.qcmd[i].err == {};
      NoNewDev(p.qcmd[i], DropOther(e), sense[i]);
    }
    if !p.qcmd[t].sense { DevSticks(q.qcmd[t], DropOther(e), sense[t]); }
    forall i: nat | i < ATA_MAX_QUEUE ensures AutopsyQc(q.qcmd[i], DropOther(e), AtaDisk, sense[i]).result == q.qcmd[i].result {
      ResultStays(q.qcmd[i], DropOther(e), AtaDisk, sense[i]);
    }
    if ehErr == {Dev} {
      assert e == {};
      forall i: nat | i < ATA_MAX_QUEUE && i != t && Innocent(p.qcmd[i]) ensures AutopsyQc(p.qcmd[i], {}, AtaDisk, sense[i]) == p.qcmd[i] {
        InnocentStays(p.qcmd[i], AtaDisk, sense[i]);
      }
    }
  }

  /** The exact condition.  When the port's only error is a device error and a command looks innocent
      and shows no interface CRC error, it keeps a clean record if and only if the port is not frozen,
      no failed command has been charged by the driver already, and log page 10h could be read and
      names an active NCQ command (another one); in all other cases it is charged. */
  lemma CleanIffLogNames(p: Port, log: Option<LogPage>, sense: seq<SenseRes>, i: nat)
    requires Inv(p, true, None) && |sense| >= ATA_MAX_QUEUE
    requires i < ATA_MAX_QUEUE && Innocent(p.qcmd[i]) && p.qcmd[i].result.error & 0x80 == 0
    requires log.Some? && !log.value.nq && log.value.tag in p.regs.sactive ==> i != log.value.tag
    ensures Autopsy(p, {Dev}, log, AtaDisk, sense).qcmd[i].err == {} <==>
              && !p.frozen && (forall t: nat :: t < ATA_MAX_QUEUE && p.qcmd[t].failed ==> p.qcmd[t].err == {})
              && log.Some? && !log.value.nq && log.value.tag in p.regs.sactive
  {
    hide AutopsyQc;
    var e: ErrMask := {Dev};
    if NcqDevError(p, e) && LogNames(p, log) {
      BlameIsolated(p, e, log, sense);
    } else {
      assert e - {Other} == e;
      AutopsyTagsEach(p, e, AtaDisk, sense, |p.qcmd|);
      DevSticks(p.qcmd[i], e, sense[i]);
    }
  }

  // ---- what the midlayer sees ----

  /** The autopsy is a sequence of rewrites of failed qcs, so it keeps the invariant. */
  lemma AutopsyKeeps(p: Port, ehErr: ErrMask, log: Option<LogPage>, cls: DevClass, sense: seq<SenseRes>)
    requires Inv(p, true, None) && |sense| >= ATA_MAX_QUEUE
    ensures Inv(Autopsy(p, ehErr, log, cls, sense), true, None)
    ensures Autopsy(p, ehErr, log, cls, sense).mid == p.mid
    ensures forall i: nat :: i < ATA_MAX_QUEUE ==>
              && Autopsy(p, ehErr, log, cls, sense).qcmd[i].failed == p.qcmd[i].failed
              && Autopsy(p, ehErr, log, cls, sense).qcmd[i].scsicmd == p.qcmd[i].scsicmd
  {
    hide AutopsyQc, InvTags, InvRegs, InvQuiet, InvLink, InvMid, InvLife, AutopsyTags;
    var (q, e) := AnalyzeNcq(p, ehErr, log);
    NamedKeeps(p, ehErr, log);
    AutopsyTagsKeeps(q, DropOther(e), cls, sense, |q.qcmd|);
  }

  lemma NamedKeeps(p: Port, ehErr: ErrMask, log: Option<LogPage>)
    requires Inv(p, true, None)
    ensures Inv(AnalyzeNcq(p, ehErr, log).0, true, None) && AnalyzeNcq(p, ehErr, log).0.mid == p.mid
    ensures forall i: nat :: i < ATA_MAX_QUEUE ==>
              && AnalyzeNcq(p, ehErr, log).0.qcmd[i].failed == p.qcmd[i].failed
              && AnalyzeNcq(p, ehErr, log).0.qcmd[i].scsicmd == p.qcmd[i].scsicmd
  {
    if NcqDevError(p, ehErr) && LogNames(p, log) {
      var t := log.value.tag;
      SactiveFailed(p, t);
      RewriteKeeps(p, t, p.qcmd[t].(err := p.qcmd[t].err + {Dev}, result := log.value.tf));
    }
  }

  lemma SactiveFailed(p: Port, t: nat)
    requires Inv(p, true, None) && t in p.regs.sactive
    ensures t < ATA_TAG_INTERNAL && p.qcmd[t].failed && p.qcmd[t].active
  {
  }

  lemma {:induction false} AutopsyTagsKeeps(p: Port, ehErr: ErrMask, cls: DevClass, sense: seq<SenseRes>, n: nat)
    requires Inv(p, true, None) && n <= ATA_MAX_QUEUE <= |sense|
    ensures var r := AutopsyTags(p, ehErr, cls, sense, n);
            && Inv(r, true, None) && r.mid == p.mid
            && forall i: nat :: i < ATA_MAX_QUEUE ==> r.qcmd[i].failed == p.qcmd[i].failed && r.qcmd[i].scsicmd == p.qcmd[i].scsicmd
  {
    hide AutopsyQc, InvRegs, InvQuiet, InvLink, InvMid, InvLife;
    if n > 0 {
      AutopsyTagsKeeps(p, ehErr, cls, sense, n - 1);
      var q := AutopsyTags(p, ehErr, cls, sense, n - 1);
      var qc := q.qcmd[n - 1];
      if qc.failed {
        AutopsyFrame(qc, ehErr, cls, sense[n - 1]);
        RewriteKeeps(q, n - 1, AutopsyQc(qc, ehErr, cls, sense[n - 1]));
      }
    }
  }

  lemma AutopsyFrame(qc: Qc, ehErr: ErrMask, cls: DevClass, sense: SenseRes)
    ensures var a := AutopsyQc(qc, ehErr, cls, sense); a == qc.(err := a.err, sense := a.sense, result := qc.result)
  {
  }

  /** ata_eh_finish over the first n tags: exactly the failed qcs' commands go to eh_done_q, each
      with the retries FinalRetries says; the others are left alone. */
  lemma {:induction false} FinishAll(p: Port, n: nat)
    requires Inv(p, true, None) && n <= ATA_MAX_QUEUE && FailedOwned(p)
    ensures var r := EhFinishTags(p, n);
            && Inv(r, true, None) && |r.mid.scmds| == |p.mid.scmds|
            && (forall i: nat :: n <= i < ATA_MAX_QUEUE ==> r.qcmd[i] == p.qcmd[i])
            && (forall c: nat :: c < |p.mid.scmds| ==> r.mid.scmds[c] == Finished1(p, n, c))
  {
    hide InvTags, InvRegs, InvQuiet, InvLink, InvMid, InvLife, EhFinishTag, FinalRetries;
    if n > 0 {
      FinishAll(p, n - 1);
      var q := EhFinishTags(p, n - 1);
      EhFinishTagKeeps(q, n - 1);
      if !q.qcmd[n - 1].failed { CleanSkipped(q, n - 1); }
      FinishOne(p, q, EhFinishTag(q, n - 1), n - 1);
    }
  }

  lemma CleanSkipped(q: Port, t: nat)
    requires WellFormed(q) && t < ATA_MAX_QUEUE && !q.qcmd[t].failed
    ensures EhFinishTag(q, t) == q
  {
  }

  /** The record of command c once tags below n are finished. */
  function Finished1(p: Port, n: nat, c: nat): Scmd
    requires c < |p.mid.scmds| && n <= |p.qcmd|
  {
    var s := p.mid.scmds[c];
    if s.tag < n && p.qcmd[s.tag].failed && p.qcmd[s.tag].scsicmd == Some(c)
    then s.(phase := OnDoneQ, retries := FinalRetries(p.qcmd[s.tag], s)) else s
  }

  lemma FinishOne(p: Port, q: Port, r: Port, t: nat)
    requires Inv(p, true, None) && Inv(q, true, None) && t < ATA_MAX_QUEUE && |q.mid.scmds| == |p.mid.scmds|
    requires q.qcmd[t] == p.qcmd[t]
    requires forall c: nat :: c < |p.mid.scmds| ==> q.mid.scmds[c] == Finished1(p, t, c)
    requires |r.qcmd| == ATA_MAX_QUEUE
    requires !q.qcmd[t].failed ==> r == q
    requires q.qcmd[t].failed ==>
               && t < ATA_TAG_INTERNAL && q.qcmd[t].scsicmd.Some? && q.qcmd[t].scsicmd.value < |q.mid.scmds|
               && var c := q.qcmd[t].scsicmd.value;
                  r.mid == EhFinishCmd(SetRetries(q.mid, c, FinalRetries(q.qcmd[t], q.mid.scmds[c])), c)
    ensures |r.mid.scmds| == |p.mid.scmds|
    ensures forall c: nat :: c < |p.mid.scmds| ==> r.mid.scmds[c] == Finished1(p, t + 1, c)
  {
    hide InvTags, InvRegs, InvQuiet, InvLink, InvMid, InvLife;
    if p.qcmd[t].failed {
      var c := p.qcmd[t].scsicmd.value;
      LinkOfFailed(p, t);
      assert q.mid.scmds[c] == p.mid.scmds[c];
    }
  }

  lemma LinkOfFailed(p: Port, t: nat)
    requires Inv(p, true, None) && t < ATA_TAG_INTERNAL && p.qcmd[t].failed
    ensures p.qcmd[t].scsicmd.Some? && p.qcmd[t].scsicmd.value < |p.mid.scmds|
    ensures p.mid.scmds[p.qcmd[t].scsicmd.value].tag == t
  {
    assert Linked(p.qcmd, p.mid.scmds, t);
  }

  /** The whole path, from NCQ error to the midlayer: an innocent command is handed back for retry
      and gets the retry back, while the culprit's retry is used up (or it is not retried at all,
      if the device called its address invalid). */
  lemma InnocentRetriedFree(p: Port, log: Option<LogPage>, sense: seq<SenseRes>, i: nat)
    requires AfterNcqError(p, {Dev}) && LogNames(p, log) && |sense| >= ATA_MAX_QUEUE
    requires i < ATA_TAG_INTERNAL && p.qcmd[i].failed
    ensures var a := Autopsy(p, {Dev}, log, AtaDisk, sense);
            && p.qcmd[i].scsicmd.Some? && p.qcmd[i].scsicmd.value < |p.mid.scmds| && WellFormed(a) && FailedOwned(a)
            && var c := p.qcmd[i].scsicmd.value;
               var s := p.mid.scmds[c];
               var r := EhFinishTags(a, ATA_MAX_QUEUE);
               && c < |r.mid.scmds| && r.mid.scmds[c].phase == OnDoneQ
               && (i != log.value.tag && Innocent(p.qcmd[i]) ==>
                     r.mid.scmds[c].retries == if s.retries > 0 then s.retries - 1 else 0)
               && (i == log.value.tag && !p.qcmd[i].sense ==>
                     r.mid.scmds[c].retries == if Invalid in a.qcmd[i].err then s.allowed else s.retries)
  {
    hide Autopsy, EhFinishTags, InvTags, InvRegs, InvQuiet, InvLink, InvMid, InvLife, AutopsyQc;
    var a := Autopsy(p, {Dev}, log, AtaDisk, sense);
    AutopsyKeeps(p, {Dev}, log, AtaDisk, sense);
    BlameIsolated(p, {Dev}, log, sense);
    OwnedFromInv(a);
    FinishAll(a, ATA_MAX_QUEUE);
    LinkOfFailed(p, i);
  }

  lemma OwnedFromInv(p: Port)
    requires Inv(p, true, None)
    ensures FailedOwned(p)
  {
    forall i: nat | i < ATA_MAX_QUEUE && p.qcmd[i].failed ensures i in p.tags { assert i < ATA_TAG_INTERNAL; }
  }
}
