/**
 The two drivers of the host state machine, interrupt handler (ata_interrupt, ata_host_intr) and
 workqueue (ata_pio_task), interleaved step by step.  The interrupt handler works under the host
 lock, so its steps are atomic; the workqueue holds the lock only while it sends the first block
 or the CDB and while it completes the command, so an interrupt may come between any two of its
 passes through ata_hsm_move.
 */
module HsmDriver {
  import opened Ata
  import opened Hsm
  import opened ScatterList
  import AtapiBytes

  /** ap->port_task: no task; queued; in ata_pio_task reading the status; inside ata_hsm_move at
      fsm_start; past HSM_ST_IDLE and about to take the lock in ata_hsm_qc_complete. */
  datatype Wq = NoTask | Queued | Reading | Moving(status: bv8, i: In) | Completing

  /** The latest command, its run, and whether its qc can be found from its tag.  internal: the
      command is one of ata_exec_internal.  active: ATA_QCFLAG_ACTIVE.  ehAtWork: the error handler
      has aborted the command or flushed the PIO task since it was issued.  bad: some call violated
      a WARN_ON about drivers or an idle machine. */
  datatype Sys = Sys(c: Cmd, internal: bool, run: Run, live: bool, active: bool, wq: Wq, ehAtWork: bool, bad: bool)

  /** ata_hsm_ok_in_wq. */
  predicate OkInWq(c: Cmd, st: State) {
    c.polling || (st == First && ((c.proto == Pio && c.write) || (Atapi(c) && !c.cdbIntr)))
  }

  /** ata_qc_issue_prot queues the PIO task for these. */
  predicate NeedsTask(c: Cmd) {
    match c.proto
    case Nodata => c.polling
    case Dma => false
    case Pio => c.write || c.polling
    case AtapiPio => !c.cdbIntr || c.polling
    case AtapiNodata => !c.cdbIntr || c.polling
    case AtapiDma => !c.cdbIntr
  }

  /** ATA_DFLAG_CDB_INTR is set on ATAPI devices only, which get no ATA_PROT_PIO writes; DMA
      protocols are not polled. */
  predicate Assumed(c: Cmd) {
    (c.cdbIntr ==> !(c.proto == Pio && c.write)) && (DmaProto(c) ==> !c.polling)
  }

  function IssueSys(c: Cmd, internal: bool): Sys {
    Sys(c, internal, Start(c), true, true, if NeedsTask(c) then Queued else NoTask, false, false)
  }

  /** The command has ended: a failed SCSI command stays active, as the error handler's; an internal
      one is completed at once, failed or not. */
  function Ended(s: Sys): Sys { s.(live := false, active := s.run.err != {} && !s.internal) }

  /** What the interrupt handler reads: host_stat when it looks at the DMA engine, and whether BSY
      is still set. */
  datatype Intr = Intr(i: In, dmaIntr: bool, dmaErr: bool, busy: bool)

  datatype Step =
    | Issue(c: Cmd, internal: bool)
    | TaskStarts
    | TaskBusy
    | TaskEntersMove(i: In)
    | TaskPass
    | TaskCompletes
    | Irq(intr: Intr)
    | Abort
    | FlushTask

  ghost predicate Enabled(s: Sys, st: Step) {
    match st
    // The qc is free again; after error handling the PIO task has been flushed (ata_port_flush_task).
    case Issue(c, _) => Proper(c) && Assumed(c) && !s.live && (s.ehAtWork ==> s.wq == NoTask)
    case TaskStarts => s.wq == Queued
    case TaskBusy => s.wq == Reading
    case TaskEntersMove(_) => s.wq == Reading
    case TaskPass => s.wq.Moving?
    case TaskCompletes => s.wq == Completing
    case Irq(_) => true
    case Abort => s.live
    case FlushTask => s.wq == Queued || s.wq == Reading
  }

  /** ata_interrupt and ata_host_intr. */
  function HandleIrq(s: Sys, x: Intr): Sys
    requires AtapiBytes.InList(s.c.sg, s.run.cur)
  {
    if !s.live || s.c.polling then s
    else
      match s.run.st
      case First => if !s.c.cdbIntr || x.busy then s else IrqMove(s, x.i)
      case St => if x.busy then s else IrqMove(s, x.i)
      case Last =>
        if !DmaProto(s.c) then (if x.busy then s else IrqMove(s, x.i))
        else if !x.dmaIntr then s
        else
          var s' := if x.dmaErr then s.(run := DmaFail(s.run)) else s;
          if x.busy then s' else IrqMove(s', x.i)
      case _ => s
  }

  /** ata_hsm_move with in_wq == 0: a command that ends is completed or the port is frozen. */
  function IrqMove(s: Sys, i: In): Sys
    requires AtapiBytes.InList(s.c.sg, s.run.cur)
  {
    var s' := s.(run := Move(s.c, s.run, i).0, bad := s.bad || OkInWq(s.c, s.run.st));
    if s'.run.st == Idle then Ended(s') else s'
  }

  /** One pass of the PIO task through the switch; leaving ata_hsm_move it polls on or is done. */
  function TaskPassed(s: Sys): Sys
    requires s.wq.Moving? && AtapiBytes.InList(s.c.sg, s.run.cur)
  {
    var (r, next) := Pass(s.c, s.run, s.wq.status, s.wq.i);
    s.(run := r,
       wq := match next
             case Again(status) => Moving(status, s.wq.i)
             case Stop(poll) => if r.st == Idle then Completing else if poll then Reading else NoTask)
  }

  ghost function Next(s: Sys, st: Step): Sys
    requires Enabled(s, st) && AtapiBytes.InList(s.c.sg, s.run.cur)
  {
    match st
    case Issue(c, internal) => IssueSys(c, internal).(bad := s.bad)
    case TaskStarts => s.(wq := Reading, bad := s.bad || s.run.st == Idle)
    case TaskBusy => s.(wq := Queued)
    case TaskEntersMove(i) => s.(wq := Moving(i.status, i), bad := s.bad || !OkInWq(s.c, s.run.st) || s.run.st == Idle)
    case TaskPass => TaskPassed(s)
    // ata_hsm_qc_complete with in_wq: ata_qc_from_tag may find nothing any more.
    case TaskCompletes => (if s.live then Ended(s) else s).(wq := NoTask)
    case Irq(x) => HandleIrq(s, x)
    case Abort => s.(live := false, active := !s.internal, ehAtWork := true)
    case FlushTask => s.(wq := NoTask, ehAtWork := true)
  }

  // ---- who drives ----

  /** The interrupt handler would move the machine on its next interrupt. */
  predicate IrqDrives(s: Sys) {
    s.live && !s.c.polling && (s.run.st in {St, Last} || (s.run.st == First && s.c.cdbIntr))
  }

  predicate TaskDrives(s: Sys) { s.wq != NoTask }

  /** The one dead end: the DMA engine failed while the device was still busy. */
  predicate DmaStuck(s: Sys) { s.run.st == Err && HostBus in s.run.err && DmaProto(s.c) }

  ghost predicate SysInv(s: Sys) {
    && Proper(s.c) && Assumed(s.c) && Inv(s.c, s.run) && !s.bad
    && (!s.live && !s.ehAtWork ==> s.wq == NoTask)
    && (s.live && !s.ehAtWork ==> IrqDrives(s) || TaskDrives(s) || DmaStuck(s))
    && (s.live && s.run.st == Idle ==> s.wq == Completing)
    && (HostBus in s.run.err ==> s.wq == NoTask)
    && (s.live ==> s.active) && (s.wq != NoTask ==> (s.active <==> s.live || !s.internal))
    && (match s.wq
        case NoTask => true
        case Queued => OkInWq(s.c, s.run.st) && s.run.st != Idle && NeedsTask(s.c)
        case Reading => OkInWq(s.c, s.run.st) && s.run.st != Idle && NeedsTask(s.c)
        case Moving(_, _) => (OkInWq(s.c, s.run.st) || s.run.st == Err) && s.run.st != Idle && NeedsTask(s.c)
        case Completing => s.run.st == Idle)
  }

  /** While the PIO task is at work an interrupt changes nothing. */
  lemma IrqKeepsOff(s: Sys, x: Intr)
    requires SysInv(s) && TaskDrives(s) && AtapiBytes.InList(s.c.sg, s.run.cur)
    ensures HandleIrq(s, x) == s
  {
    hide Inv;
  }

  lemma IrqKeeps(s: Sys, x: Intr)
    requires SysInv(s) && AtapiBytes.InList(s.c.sg, s.run.cur)
    ensures SysInv(HandleIrq(s, x))
  {
    hide PosOk, Move, AtapiBytes.Sound;
    if TaskDrives(s) {
      IrqKeepsOff(s, x);
    } else if HandleIrq(s, x) != s {
      var s' := if s.run.st == Last && DmaProto(s.c) && x.dmaErr then s.(run := DmaFail(s.run)) else s;
      if !x.busy { IrqMoveKeeps(s', x.i); }
    }
  }

  lemma IrqMoveKeeps(s: Sys, i: In)
    requires Proper(s.c) && Assumed(s.c) && Inv(s.c, s.run) && !s.bad && AtapiBytes.InList(s.c.sg, s.run.cur)
    requires s.live && s.active && !s.c.polling && s.wq == NoTask
    requires s.run.st in {St, Last} || (s.run.st == First && s.c.cdbIntr) || (s.run.st == Err && DmaProto(s.c))
    ensures SysInv(IrqMove(s, i))
  {
    hide PosOk, Inv;
    MoveKeeps(s.c, s.run, i.status, i);
    MoveLeaves(s.c, s.run, i.status, i);
  }

  /** After a call the machine is done or past FIRST and ERR. */
  lemma {:induction false} MoveLeaves(c: Cmd, s: Run, status: bv8, i: In)
    requires AtapiBytes.InList(c.sg, s.cur) && Proper(c) && Inv(c, s) && s.st != Idle
    ensures MoveFrom(c, s, status, i).0.st in {St, Last, Idle}
    decreases Rank(s.st)
  {
    hide Inv, PioSectors, AtapiBytes.PioBytes;
    PassDescends(c, s, status, i);
    PassKeeps(c, s, status, i);
    PassLeaves(c, s, status, i);
    var (r, next) := Pass(c, s, status, i);
    if next.Again? { MoveLeaves(c, r, next.status, i); }
  }

  lemma PassLeaves(c: Cmd, s: Run, status: bv8, i: In)
    requires AtapiBytes.InList(c.sg, s.cur) && Proper(c) && Inv(c, s) && s.st != Idle
    ensures Pass(c, s, status, i).1.Stop? ==> Pass(c, s, status, i).0.st in {St, Last, Idle}
    ensures Pass(c, s, status, i).1.Again? && s.st == First ==> Pass(c, s, status, i).0.st == Err
    ensures Pass(c, s, status, i).1 == Stop(true) ==> c.polling || s.st == St
    ensures Pass(c, s, status, i).1.Again? ==> Pass(c, s, status, i).0.st in {Last, Err}
  {
    hide PosOk, AtapiBytes.PioBytes;
    RepeatFrame(c, s, BlockLen(c, s));
    RepeatFrame(c, s.(st := St), BlockLen(c, s));
  }

  lemma TaskPassKeeps(s: Sys)
    requires SysInv(s) && s.wq.Moving? && AtapiBytes.InList(s.c.sg, s.run.cur)
    ensures SysInv(TaskPassed(s))
  {
    hide Inv, Pass;
    PassDescends(s.c, s.run, s.wq.status, s.wq.i);
    PassKeeps(s.c, s.run, s.wq.status, s.wq.i);
    PassLeaves(s.c, s.run, s.wq.status, s.wq.i);
    FirstAtapi(s.c, s.run);
    PassNoHostBus(s.c, s.run, s.wq.status, s.wq.i);
  }

  /** The machine itself finds no DMA engine errors. */
  lemma PassNoHostBus(c: Cmd, s: Run, status: bv8, i: In)
    requires AtapiBytes.InList(c.sg, s.cur) && HostBus !in s.err
    ensures HostBus !in Pass(c, s, status, i).0.err
  {
    hide AtapiBytes.PioBytes;
    RepeatFrame(c, s, BlockLen(c, s));
    RepeatFrame(c, s.(st := St), BlockLen(c, s));
    RepeatFrame(c, s.(err := s.err + {AcErr.Dev}), BlockLen(c, s));
  }

  lemma FirstAtapi(c: Cmd, s: Run)
    requires Inv(c, s)
    ensures s.st == First ==> c.proto in {Pio, AtapiPio, AtapiNodata, AtapiDma}
  {
  }

  lemma IssueKeeps(c: Cmd, internal: bool)
    requires Proper(c) && Assumed(c)
    ensures SysInv(IssueSys(c, internal))
  {
    StartOk(c);
  }

  lemma StepInList(s: Sys, st: Step)
    requires SysInv(s) && Enabled(s, st) && AtapiBytes.InList(s.c.sg, s.run.cur)
    ensures AtapiBytes.InList(Next(s, st).c.sg, Next(s, st).run.cur)
  {
    hide Inv, Pass, Proper;
    if st.TaskPass? { PassDescends(s.c, s.run, s.wq.status, s.wq.i); }
  }

  /** Every step keeps the invariant, and the cursor stays in its list. */
  lemma StepKeeps(s: Sys, st: Step)
    requires SysInv(s) && Enabled(s, st) && AtapiBytes.InList(s.c.sg, s.run.cur)
    ensures SysInv(Next(s, st))
    ensures AtapiBytes.InList(Next(s, st).c.sg, Next(s, st).run.cur)
  {
    hide Inv, Pass, Move, Proper;
    StepInList(s, st);
    match st
    case Issue(c, internal) => IssueKeeps(c, internal);
    case TaskPass => TaskPassKeeps(s);
    case Irq(x) => IrqKeeps(s, x);
    case _ =>
  }

  // ---- whole runs ----

  ghost predicate IsRun(run: seq<Sys>, steps: seq<Step>) {
    && |run| == |steps| + 1
    && Proper(run[0].c) && Assumed(run[0].c) && run[0] == IssueSys(run[0].c, run[0].internal)
    && (forall k: nat :: k < |run| ==> AtapiBytes.InList(run[k].c.sg, run[k].run.cur))
    && (forall k: nat :: k < |steps| ==> Enabled(run[k], steps[k]) && run[k + 1] == Next(run[k], steps[k]))
  }

  lemma {:induction false} RunKeeps(run: seq<Sys>, steps: seq<Step>, k: nat)
    requires IsRun(run, steps) && k < |run|
    ensures SysInv(run[k])
  {
    if k == 0 {
      IssueKeeps(run[0].c, run[0].internal);
    } else {
      hide SysInv, Next, Enabled;
      RunKeeps(run, steps, k - 1);
      StepKeeps(run[k - 1], steps[k - 1]);
    }
  }

  /** Since the latest Issue before state k the error handler has aborted the command or flushed the PIO
      task. */
  ghost predicate TouchedSince(steps: seq<Step>, k: nat)
    requires k <= |steps|
  {
    exists j: nat :: j < k && (steps[j].Abort? || steps[j].FlushTask?) && forall i: nat :: j < i < k ==> !steps[i].Issue?
  }

  lemma TouchedStep(steps: seq<Step>, k: nat)
    requires 0 < k <= |steps|
    ensures TouchedSince(steps, k) <==>
              steps[k - 1].Abort? || steps[k - 1].FlushTask? || (TouchedSince(steps, k - 1) && !steps[k - 1].Issue?)
  {
    if TouchedSince(steps, k - 1) && !steps[k - 1].Issue? {
      var j: nat :| j < k - 1 && (steps[j].Abort? || steps[j].FlushTask?) && forall i: nat :: j < i < k - 1 ==> !steps[i].Issue?;
      assert forall i: nat :: j < i < k ==> !steps[i].Issue?;
    }
  }

  lemma {:induction false} TouchedMeans(run: seq<Sys>, steps: seq<Step>, k: nat)
    requires IsRun(run, steps) && k < |run|
    ensures run[k].ehAtWork <==> TouchedSince(steps, k)
  {
    hide Next, Enabled, TouchedSince;
    if k == 0 {
      TouchedNot(steps);
    } else {
      TouchedMeans(run, steps, k - 1);
      TouchedStep(steps, k);
      TouchedNext(run[k - 1], steps[k - 1]);
    }
  }

  lemma TouchedNext(s: Sys, st: Step)
    requires Enabled(s, st) && AtapiBytes.InList(s.c.sg, s.run.cur)
    ensures Next(s, st).ehAtWork <==> st.Abort? || st.FlushTask? || (s.ehAtWork && !st.Issue?)
  {
    hide Pass, Move, Proper;
  }

  lemma TouchedNot(steps: seq<Step>)
    ensures !TouchedSince(steps, 0)
  {
  }

  /** One driver at a time.  In every state of every interleaving: no call of ata_hsm_move has had
      in_wq differ from ata_hsm_ok_in_wq, no task has started on an idle machine, interrupt handler
      and PIO task never both stand ready to move the same state, and an interrupt that finds the PIO
      task at work changes nothing.  A live command the error handler has not touched since it was
      issued lacks a driver if and only if, since then, an interrupt met a DMA engine error while the
      device was still busy. */
  lemma OneDriver(run: seq<Sys>, steps: seq<Step>, k: nat)
    requires IsRun(run, steps) && k < |run|
    ensures !run[k].bad
    ensures !(IrqDrives(run[k]) && TaskDrives(run[k]))
    ensures TaskDrives(run[k]) ==> forall x :: HandleIrq(run[k], x) == run[k]
    ensures run[k].live && !TouchedSince(steps, k) ==>
              (!(IrqDrives(run[k]) || TaskDrives(run[k])) <==> StrandedSince(run, steps, k))
  {
    hide Inv, Pass, Move, StrandedSince, TouchedSince;
    RunKeeps(run, steps, k);
    TouchedMeans(run, steps, k);
    if TaskDrives(run[k]) {
      forall x: Intr ensures HandleIrq(run[k], x) == run[k] { IrqKeepsOff(run[k], x); }
    }
    StuckIffStranded(run, steps, k);
    StuckHasNoDriver(run[k]);
  }

  /** The same, seen from the command: however the two drivers interleave, the machine keeps its
      promises, so a PIO command that ends without error has moved all of its sectors. */
  lemma InterleavingIsSafe(run: seq<Sys>, steps: seq<Step>, k: nat)
    requires IsRun(run, steps) && k < |run|
    ensures Inv(run[k].c, run[k].run)
    ensures run[k].c.proto == Pio && run[k].run.ended == Some({}) ==> run[k].run.pos.cursect == run[k].c.nsect
  {
    RunKeeps(run, steps, k);
  }

  // ---- commands left without a driver ----

  /** The guard of the branch that strands a command: the DMA engine reports an error of a command
      waiting in HSM_ST_LAST, and BSY is still set. */
  predicate BusyDmaError(s: Sys, x: Intr) {
    s.live && !s.c.polling && DmaProto(s.c) && s.run.st == Last && x.dmaIntr && x.dmaErr && x.busy
  }

  /** An interrupt strands a command exactly when it meets that guard. */
  lemma StrandsIff(s: Sys, x: Intr)
    requires SysInv(s) && AtapiBytes.InList(s.c.sg, s.run.cur) && s.live && !DmaStuck(s)
    ensures HandleIrq(s, x).live && DmaStuck(HandleIrq(s, x)) <==> BusyDmaError(s, x)
  {
    hide PosOk, AtapiBytes.Sound;
    if TaskDrives(s) {
      IrqKeepsOff(s, x);
    } else if !x.busy && HandleIrq(s, x) != s {
      var s' := if s.run.st == Last && DmaProto(s.c) && x.dmaErr then s.(run := DmaFail(s.run)) else s;
      MoveLeaves(s'.c, s'.run, x.i.status, x.i);
    }
  }

  /** A stranded command has no driver, and no interrupt moves it. */
  lemma StuckHasNoDriver(s: Sys)
    requires SysInv(s)
    ensures DmaStuck(s) ==> !IrqDrives(s) && !TaskDrives(s)
    ensures DmaStuck(s) && AtapiBytes.InList(s.c.sg, s.run.cur) ==> forall x :: HandleIrq(s, x) == s
  {
    hide Inv, Move;
  }

  /** Since the latest Issue before state k an interrupt has met the guard. */
  ghost predicate StrandedSince(run: seq<Sys>, steps: seq<Step>, k: nat)
    requires k < |run| == |steps| + 1
  {
    exists j: nat :: j < k && Strands(run[j], steps[j]) && forall i: nat :: j < i < k ==> !steps[i].Issue?
  }

  ghost predicate Strands(s: Sys, st: Step) { st.Irq? && BusyDmaError(s, st.intr) }

  /** What one step does to being stranded. */
  lemma StuckStep(s: Sys, st: Step)
    requires SysInv(s) && Enabled(s, st) && AtapiBytes.InList(s.c.sg, s.run.cur)
    ensures DmaStuck(Next(s, st)) && Next(s, st).live ==> s.live && !st.Issue? && (DmaStuck(s) || Strands(s, st))
    ensures Strands(s, st) ==> DmaStuck(Next(s, st))
    ensures DmaStuck(s) && !st.Issue? ==> DmaStuck(Next(s, st))
  {
    hide Inv, Pass, Move;
    StuckHasNoDriver(s);
    match st
    case TaskPass => PassNoHostBus(s.c, s.run, s.wq.status, s.wq.i);
    case Irq(x) => if s.live && !DmaStuck(s) { StrandsIff(s, x); }
    case _ =>
  }

  lemma {:induction false} StuckIffStranded(run: seq<Sys>, steps: seq<Step>, k: nat)
    requires IsRun(run, steps) && k < |run|
    ensures run[k].live ==> (DmaStuck(run[k]) <==> StrandedSince(run, steps, k))
    ensures StrandedSince(run, steps, k) ==> DmaStuck(run[k])
  {
    hide SysInv, Next, Enabled, DmaStuck, Strands;
    if k == 0 {
      NotStuckAtStart(run[0].c, run[0].internal);
    } else {
      StuckIffStranded(run, steps, k - 1);
      RunKeeps(run, steps, k - 1);
      StuckStep(run[k - 1], steps[k - 1]);
      SinceStep(run, steps, k);
    }
  }

  lemma NotStuckAtStart(c: Cmd, internal: bool)
    ensures !DmaStuck(IssueSys(c, internal))
  {
  }

  lemma SinceStep(run: seq<Sys>, steps: seq<Step>, k: nat)
    requires 0 < k < |run| == |steps| + 1
    ensures StrandedSince(run, steps, k) <==>
              Strands(run[k - 1], steps[k - 1]) || (StrandedSince(run, steps, k - 1) && !steps[k - 1].Issue?)
  {
    hide Strands;
    if StrandedSince(run, steps, k - 1) && !steps[k - 1].Issue? {
      var j: nat :| j < k - 1 && Strands(run[j], steps[j]) && forall i: nat :: j < i < k - 1 ==> !steps[i].Issue?;
      assert forall i: nat :: j < i < k ==> !steps[i].Issue?;
    }
  }

  /** A DMA command whose first interrupt meets the guard: it stays live, in HSM_ST_ERR, and no later
      interrupt moves it. */
  lemma BusyDmaErrorStrands(i: In, y: Intr)
    ensures var c := Cmd(Dma, false, false, false, 0, false, 0, [], 0, 0);
            Proper(c) && Assumed(c) && AtapiBytes.InList(c.sg, IssueSys(c, false).run.cur)
            && var r := HandleIrq(IssueSys(c, false), Intr(i, true, true, true));
               r.live && !IrqDrives(r) && !TaskDrives(r) && AtapiBytes.InList(r.c.sg, r.run.cur) && HandleIrq(r, y) == r
  {
  }

  // ---- calls on a command that is no longer active ----

  /** Since the latest Issue before state k the command was aborted. */
  ghost predicate AbortedSince(steps: seq<Step>, k: nat)
    requires k <= |steps|
  {
    exists j: nat :: j < k && steps[j].Abort? && forall i: nat :: j < i < k ==> !steps[i].Issue?
  }

  lemma AbortedStep(steps: seq<Step>, k: nat)
    requires 0 < k <= |steps|
    ensures AbortedSince(steps, k) <==> steps[k - 1].Abort? || (AbortedSince(steps, k - 1) && !steps[k - 1].Issue?)
  {
    if AbortedSince(steps, k - 1) && !steps[k - 1].Issue? {
      var j: nat :| j < k - 1 && steps[j].Abort? && forall i: nat :: j < i < k - 1 ==> !steps[i].Issue?;
      assert forall i: nat :: j < i < k ==> !steps[i].Issue?;
    }
  }

  lemma {:induction false} LiveUnlessAborted(run: seq<Sys>, steps: seq<Step>, k: nat)
    requires IsRun(run, steps) && k < |run|
    ensures run[k].live ==> !AbortedSince(steps, k)
    ensures run[k].wq != NoTask && !run[k].live ==> AbortedSince(steps, k)
  {
    hide Inv, Pass, Move;
    if k > 0 {
      LiveUnlessAborted(run, steps, k - 1);
      RunKeeps(run, steps, k - 1);
      AbortedStep(steps, k);
      LiveStep(run[k - 1], steps[k - 1]);
    }
  }

  lemma LiveStep(s: Sys, st: Step)
    requires SysInv(s) && Enabled(s, st) && AtapiBytes.InList(s.c.sg, s.run.cur)
    ensures Next(s, st).live ==> st.Issue? || (s.live && !st.Abort?)
    ensures Next(s, st).wq != NoTask && !Next(s, st).live ==> st.Abort? || (s.wq != NoTask && !s.live && !st.Issue?)
  {
    hide Inv, Pass, Move;
    if st.Irq? && TaskDrives(s) { IrqKeepsOff(s, st.intr); }
  }

  /** The WARN_ON on ATA_QCFLAG_ACTIVE at the head of ata_hsm_move.  The interrupt handler never
      violates it; the PIO task does so exactly when the command is an internal one that was aborted
      since it was issued: the abort completes it at once, and the PIO task is flushed only later. */
  lemma InactiveMoveIff(run: seq<Sys>, steps: seq<Step>, k: nat)
    requires IsRun(run, steps) && k < |steps|
    ensures steps[k].TaskEntersMove? ==> (!run[k].active <==> run[k].internal && AbortedSince(steps, k))
    ensures steps[k].Irq? && HandleIrq(run[k], steps[k].intr) != run[k] ==> run[k].active
  {
    hide Inv, Pass, Move, AbortedSince;
    RunKeeps(run, steps, k);
    LiveUnlessAborted(run, steps, k);
  }

  /** A run in which it fires: a polled internal PIO read is aborted while its PIO task waits for BSY. */
  lemma InactiveMoveExample(i: In)
    ensures var c := Cmd(Pio, false, true, false, 0, false, 0, [Seg(0, 512)], 1, 512);
            var s0 := IssueSys(c, true);
            && Proper(c) && Assumed(c) && AtapiBytes.InList(c.sg, s0.run.cur)
            && Enabled(s0, TaskStarts)
            && var s1 := Next(s0, TaskStarts);
               Enabled(s1, Abort)
               && var s2 := Next(s1, Abort);
                  Enabled(s2, TaskEntersMove(i)) && !s2.active
  {
    var sg := [Seg(0, 512)];
    FlatSnoc([], Seg(0, 512));
    assert [] + [Seg(0, 512)] == sg;
  }

  /** Why the assumption about CDB_INTR is needed: with a CDB_INTR device and a PIO write, the
      interrupt handler moves the machine while the PIO task is queued to do so. */
  lemma CdbIntrPioWriteClashes(c: Cmd, internal: bool, x: Intr)
    requires c.proto == Pio && c.write && c.cdbIntr && !c.polling && Proper(c) && !x.busy
    ensures AtapiBytes.InList(c.sg, IssueSys(c, internal).run.cur)
    ensures IrqDrives(IssueSys(c, internal)) && TaskDrives(IssueSys(c, internal)) && HandleIrq(IssueSys(c, internal), x).bad
  {
    StartOk(c);
  }
}
