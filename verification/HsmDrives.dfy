/** The two drivers against one call of ata_hsm_move: an interrupt that drives the machine is one
    event of it, and the passes of the PIO task together are one, too. */
module HsmDrives {
  import opened Ata
  import opened ScatterList
  import AtapiBytes
  import opened Hsm
  import opened HsmDriver
  import opened HsmEnds

  /** The interrupt is meant for the command: BSY is clear, and while the DMA engine is at work it is
      the engine that interrupts. */
  predicate MeantFor(s: Sys, x: Intr) { !x.busy && (s.run.st == Last && DmaProto(s.c) ==> x.dmaIntr) }

  /** An interrupt that is meant for a command the interrupt handler drives is one event of its
      machine, and ends the command in the queue when it ends the machine: without an error, or as an
      internal command, it is inactive then; otherwise it stays active for the error handler. */
  lemma IrqIsEvent(s: Sys, x: Intr)
    requires SysInv(s) && AtapiBytes.InList(s.c.sg, s.run.cur) && IrqDrives(s) && MeantFor(s, x)
    ensures var r := HandleIrq(s, x);
            && r.run == Handle(s.c, s.run, if x.dmaErr then DmaError(x.i) else Step(x.i))
            && (r.live <==> r.run.ended.None?)
            && (r.run.ended.Some? ==> (r.active <==> !s.internal && r.run.ended != Some({})))
            && (r.run.ended.None? ==> r.active == s.active)
  {
    hide PosOk, Move, AtapiBytes.Sound;
    var e := if x.dmaErr then DmaError(x.i) else Step(x.i);
    HandleKeeps(s.c, s.run, e);
    EndedMask(s.c, s.run, e);
  }

  lemma EndedMask(c: Cmd, s: Run, e: Event)
    requires Proper(c) && Inv(c, s) && AtapiBytes.InList(c.sg, s.cur) && s.st != Idle
    ensures Handle(c, s, e).ended.Some? ==> Handle(c, s, e).ended == Some(Handle(c, s, e).err)
  {
    hide PosOk, AtapiBytes.Sound, MoveFrom;
    if e.DmaError? && s.st == Last && DmaProto(c) { MoveMask(c, DmaFail(s), e.i.status, e.i); }
    else { MoveMask(c, s, e.i.status, e.i); }
  }

  lemma {:induction false} MoveMask(c: Cmd, s: Run, status: bv8, i: In)
    requires AtapiBytes.InList(c.sg, s.cur) && s.ended.None?
    ensures MoveFrom(c, s, status, i).0.ended.Some? ==> MoveFrom(c, s, status, i).0.ended == Some(MoveFrom(c, s, status, i).0.err)
    decreases Rank(s.st)
  {
    hide Pass;
    PassDescends(c, s, status, i);
    PassMask(c, s, status, i);
    var (r, next) := Pass(c, s, status, i);
    if next.Again? { MoveMask(c, r, next.status, i); }
  }

  lemma PassMask(c: Cmd, s: Run, status: bv8, i: In)
    requires AtapiBytes.InList(c.sg, s.cur) && s.ended.None?
    ensures var (r, next) := Pass(c, s, status, i);
            (r.ended.Some? ==> r.ended == Some(r.err)) && (next.Again? ==> r.ended.None?)
  {
    hide AtapiBytes.PioBytes;
    RepeatFrame(c, s, BlockLen(c, s));
    RepeatFrame(c, s.(st := St), BlockLen(c, s));
    RepeatFrame(c, s.(err := s.err + {AcErr.Dev}), BlockLen(c, s));
  }

  /** What such an interrupt does: the first block or the packet is sent or refused, a command that
      waits for its last status ends, by that status or as a host bus error, and a PIO command ends or
      moves on by a block. */
  lemma IrqDrivesMoves(s: Sys, x: Intr)
    requires SysInv(s) && AtapiBytes.InList(s.c.sg, s.run.cur) && IrqDrives(s) && MeantFor(s, x)
    ensures var r := HandleIrq(s, x);
            && (s.run.st == First ==> r.run.st in {St, Last, Idle})
            && (s.run.st == Last ==>
                  r.run.ended == Some(if x.dmaErr && DmaProto(s.c) then {HostBus} else FinalMask(x.i.status)))
            && (s.c.proto == Pio ==> r.run.ended.Some? || s.run.pos.cursect < r.run.pos.cursect)
            && (s.c.proto == Pio && s.run.st == St && AsksForBlock(x.i.status) ==>
                  r.run.pos.cursect == Min(s.run.pos.cursect + PerBlock(s.c), s.c.nsect))
  {
    hide PosOk, Move, AtapiBytes.Sound, Handle, HandleIrq;
    var e := if x.dmaErr then DmaError(x.i) else Step(x.i);
    IrqIsEvent(s, x);
    HandleEnds(s.c, s.run, e);
    HandleKeeps(s.c, s.run, e);
    EventMoves(s, x, e);
  }

  lemma EventMoves(s: Sys, x: Intr, e: Event)
    requires SysInv(s) && AtapiBytes.InList(s.c.sg, s.run.cur) && IrqDrives(s) && e.i == x.i
    ensures s.run.st == First ==> Handle(s.c, s.run, e).st in {St, Last, Idle}
    ensures s.c.proto == Pio && s.run.st == St && AsksForBlock(x.i.status) ==>
              Handle(s.c, s.run, e).pos.cursect == Min(s.run.pos.cursect + PerBlock(s.c), s.c.nsect)
  {
    hide PosOk, AtapiBytes.Sound, MoveFrom;
    if s.run.st == First { MoveLeaves(s.c, s.run, x.i.status, x.i); }
    if s.c.proto == Pio && s.run.st == St && AsksForBlock(x.i.status) { BlockMoved(s.c, s.run, x.i); }
  }

  /** Any other interrupt leaves the machine alone, except that it may record an error of the DMA
      engine. */
  lemma IrqNotMeant(s: Sys, x: Intr)
    requires SysInv(s) && AtapiBytes.InList(s.c.sg, s.run.cur) && !(IrqDrives(s) && MeantFor(s, x))
    ensures HandleIrq(s, x) == if BusyDmaError(s, x) then s.(run := DmaFail(s.run)) else s
  {
    hide Inv, Move;
  }

  /** The PIO task, pass by pass, makes one call of ata_hsm_move: as long as it is inside, the rest of
      the call is still to come; when it leaves, the call is complete, and it completes the command, polls
      on, or ends, as the call says. */
  lemma TaskIsMove(s: Sys)
    requires s.wq.Moving? && AtapiBytes.InList(s.c.sg, s.run.cur)
    ensures var r := TaskPassed(s);
            var (q, poll) := MoveFrom(s.c, s.run, s.wq.status, s.wq.i);
            && AtapiBytes.InList(r.c.sg, r.run.cur) && r.c == s.c
            && match r.wq
               case Moving(status, i) => MoveFrom(r.c, r.run, status, i) == (q, poll)
               case Completing => r.run == q && q.st == Idle
               case Reading => r.run == q && q.st != Idle && poll
               case NoTask => r.run == q && q.st != Idle && !poll
               case Queued => false
  {
    hide Pass;
    PassDescends(s.c, s.run, s.wq.status, s.wq.i);
  }

  /** ata_pio_task enters with the status it has read, goes back to its queue if that is busy, and completes
      a command that is still its own. */
  lemma TaskEnds(s: Sys, i: In)
    requires SysInv(s) && AtapiBytes.InList(s.c.sg, s.run.cur)
    ensures s.wq == Reading ==> var r := HsmDriver.Next(s, TaskEntersMove(i)); r.run == s.run && r.wq == Moving(i.status, i)
    ensures s.wq == Reading ==> HsmDriver.Next(s, TaskBusy) == s.(wq := Queued)
    ensures s.wq == Completing ==>
              var r := HsmDriver.Next(s, TaskCompletes);
              && r.wq == NoTask && !r.live && r.run == s.run
              && (r.active <==> if s.live then s.run.err != {} && !s.internal else s.active)
  {
    hide Inv, Move;
  }

  /** The error handler takes over: an aborted command can no longer be found, and is complete at once if
      it is an internal one; a flush leaves no task behind.  Neither touches the machine. */
  lemma EhTakesOver(s: Sys)
    requires AtapiBytes.InList(s.c.sg, s.run.cur)
    ensures s.live ==>
              var r := HsmDriver.Next(s, Abort); !r.live && (r.active <==> !s.internal) && r.run == s.run && r.wq == s.wq
    ensures s.wq in {Queued, Reading} ==>
              var r := HsmDriver.Next(s, FlushTask); !TaskDrives(r) && r.run == s.run && r.live == s.live && r.active == s.active
  {
    hide Move;
  }

  /** The workqueue is the machine's driver: the command is polled, or waits in HSM_ST_FIRST to send the
      first block of a PIO write or a packet that the device does not ask for by interrupt. */
  predicate WqMoves(c: Cmd, st: State) {
    c.polling || (st == First && ((c.proto == Pio && c.write) || (c.proto in {AtapiPio, AtapiNodata, AtapiDma} && !c.cdbIntr)))
  }

  /** What `bad` stands for.  The interrupt handler moves a machine that is the workqueue's: by its own
      tests that can only be a PIO write of a device that interrupts for packets.  The PIO task starts
      or moves an idle machine, or moves one that is the interrupt handler's. */
  lemma BadExactly(s: Sys, x: Intr, i: In)
    requires AtapiBytes.InList(s.c.sg, s.run.cur)
    ensures HandleIrq(s, x).bad <==>
              || s.bad
              || (s.live && !s.c.polling && !x.busy && s.run.st == First && s.c.cdbIntr && WqMoves(s.c, s.run.st))
    ensures s.wq == Queued ==> (HsmDriver.Next(s, TaskStarts).bad <==> s.bad || s.run.st == Idle)
    ensures s.wq == Reading ==>
              (HsmDriver.Next(s, TaskEntersMove(i)).bad <==> s.bad || s.run.st == Idle || !WqMoves(s.c, s.run.st))
  {
    hide Move, AtapiBytes.InList;
  }
}
