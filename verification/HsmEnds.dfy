/** How a call of ata_hsm_move ends a command, in terms of status bits: a table for one call, and what
    it means for whole runs. */
module HsmEnds {
  import opened Ata
  import opened ScatterList
  import AtapiBytes
  import opened Hsm

  // ---- status bits ----

  predicate Busy(status: bv8) { status & 0x80 != 0 }
  predicate Drq(status: bv8) { status & 0x08 != 0 }
  /** Device fault or error. */
  predicate Faulty(status: bv8) { status & 0x20 != 0 || status & 0x01 != 0 }

  /** Ready, not busy, nothing to transfer, no error. */
  predicate Ready(status: bv8) { status & 0x40 != 0 && !Busy(status) && !Drq(status) && !Faulty(status) }

  /** The device asks for a block in good order. */
  predicate AsksForBlock(status: bv8) { Drq(status) && !Faulty(status) }

  lemma BitsMean(status: bv8)
    ensures Ready(status) <==> AtaOk(status)
    ensures Drq(status) <==> status & ATA_DRQ != 0
    ensures Faulty(status) <==> status & DEV_ERR != 0
    ensures Busy(status) || Drq(status) <==> status & (ATA_BUSY | ATA_DRQ) != 0
  {
  }

  // ---- one call ----

  /** The error mask a final status stands for. */
  function FinalMask(status: bv8): ErrMask {
    if Ready(status) then {}
    else if Busy(status) || Drq(status) then {AcErr.Hsm}
    else if Faulty(status) then {AcErr.Dev}
    else {Other}
  }

  /** No block is asked for where one is due: the device says why, or breaks the protocol. */
  function MissingBlock(status: bv8): ErrMask { if Faulty(status) then {AcErr.Dev} else {AcErr.Hsm} }

  /** The interrupt reason says data, in the direction of the command. */
  predicate ReasonFits(c: Cmd, ireason: bv8) { ireason & 0x01 == 0 && (c.write <==> ireason & 0x02 == 0) }

  /** Sectors per DRQ block. */
  function PerBlock(c: Cmd): nat { if c.multi then c.multiCount else 1 }

  predicate LastBlock(c: Cmd, s: Run) { s.pos.cursect + PerBlock(c) >= c.nsect }

  /** The error mask with which a call ends the command; None if it does not end. */
  function Outcome(c: Cmd, s: Run, i: In): Option<ErrMask> {
    match s.st
    case First =>
      if !Drq(i.status) then Some(MissingBlock(i.status))
      else if Faulty(i.status) then Some({AcErr.Hsm})
      else None
    case St =>
      if c.proto == AtapiPio then
        if !Drq(i.status) then Some(FinalMask(i.status))
        else if Faulty(i.status) || !ReasonFits(c, i.ireason) then Some({AcErr.Hsm})
        else None
      else if !Drq(i.status) then Some(MissingBlock(i.status))
      else if Faulty(i.status) then
        Some(if c.write || Busy(i.idle) || Drq(i.idle) then {AcErr.Dev, AcErr.Hsm} else {AcErr.Dev})
      else if !c.write && LastBlock(c, s) then Some(FinalMask(i.idle))
      else None
    case Last => Some(FinalMask(i.status))
    case Err => Some(s.err)
    case Idle => s.ended
  }

  /** A machine in ERR ends with the mask on record, one in LAST by the final status. */
  lemma ErrEnds(c: Cmd, s: Run, status: bv8, i: In)
    requires AtapiBytes.InList(c.sg, s.cur) && s.st == Err
    ensures MoveFrom(c, s, status, i).0.ended == Some(s.err)
  {
  }

  lemma LastEnds(c: Cmd, s: Run, status: bv8, i: In)
    requires AtapiBytes.InList(c.sg, s.cur) && s.st == Last && s.err == {}
    ensures MoveFrom(c, s, status, i).0.ended == Some(FinalMask(status))
  {
    BitsMean(status);
    PassDescends(c, s, status, i);
    if !AtaOk(status) {
      var none: ErrMask := {};
      assert none + AcErrMask(status) == AcErrMask(status);
      ErrEnds(c, Fail(s, AcErrMask(status)), status, i);
    }
  }

  lemma BlockLast(c: Cmd, s: Run)
    requires Proper(c) && c.proto == Pio && s.pos.cursect < c.nsect
    ensures s.pos.cursect + BlockLen(c, s) == Min(s.pos.cursect + PerBlock(c), c.nsect)
    ensures LastBlock(c, s) <==> s.pos.cursect + BlockLen(c, s) == c.nsect
  {
  }

  /** One call ends the command exactly as the table says. */
  lemma MoveEnds(c: Cmd, s: Run, i: In)
    requires Proper(c) && Inv(c, s) && AtapiBytes.InList(c.sg, s.cur) && s.st != Idle
    ensures Move(c, s, i).0.ended == Outcome(c, s, i)
  {
    hide PosOk, PioSectors, AtapiBytes.Sound, AtapiBytes.PioBytes, FinalMask, AtaOk, Ready;
    BitsMean(i.status);
    BitsMean(i.idle);
    var none: ErrMask := {};
    assert forall e: ErrMask :: none + e == e;
    PassDescends(c, s, i.status, i);
    match s.st
    case First => FirstEnds(c, s, i);
    case St =>
      if c.proto == AtapiPio { AtapiEnds(c, s, i); } else { BlockEnds(c, s, i); }
    case Last => LastEnds(c, s, i.status, i);
    case Err => ErrEnds(c, s, i.status, i);
  }

  lemma FirstEnds(c: Cmd, s: Run, i: In)
    requires Proper(c) && Inv(c, s) && AtapiBytes.InList(c.sg, s.cur) && s.st == First
    ensures Move(c, s, i).0.ended == Outcome(c, s, i)
  {
    hide PosOk, PioSectors, AtapiBytes.Sound;
    BitsMean(i.status);
    var none: ErrMask := {};
    PassDescends(c, s, i.status, i);
    RepeatSectorsFrame(c, s.(st := St));
    if i.status & ATA_DRQ == 0 {
      assert none + NoDrq(i.status) == NoDrq(i.status);
      ErrEnds(c, Fail(s, NoDrq(i.status)), i.status, i);
    } else if i.status & DEV_ERR != 0 {
      assert none + {AcErr.Hsm} == {AcErr.Hsm};
      ErrEnds(c, Fail(s, {AcErr.Hsm}), i.status, i);
    }
  }

  lemma AtapiEnds(c: Cmd, s: Run, i: In)
    requires Proper(c) && Inv(c, s) && AtapiBytes.InList(c.sg, s.cur) && s.st == St && c.proto == AtapiPio
    ensures Move(c, s, i).0.ended == Outcome(c, s, i)
  {
    hide PosOk, AtapiBytes.Sound, AtapiBytes.PioBytes, FinalMask;
    BitsMean(i.status);
    PassDescends(c, s, i.status, i);
    if i.status & ATA_DRQ == 0 {
      LastEnds(c, s.(st := Last), i.status, i);
    } else if i.status & DEV_ERR != 0 || !ReasonFits(c, i.ireason) {
      var none: ErrMask := {};
      assert none + {AcErr.Hsm} == {AcErr.Hsm};
      ErrEnds(c, Fail(s, {AcErr.Hsm}), i.status, i);
    }
  }

  lemma BlockEnds(c: Cmd, s: Run, i: In)
    requires Proper(c) && Inv(c, s) && AtapiBytes.InList(c.sg, s.cur) && s.st == St && c.proto == Pio
    ensures Move(c, s, i).0.ended == Outcome(c, s, i)
  {
    hide PosOk, PioSectors, AtapiBytes.Sound, FinalMask;
    BitsMean(i.status);
    BitsMean(i.idle);
    var none: ErrMask := {};
    PassDescends(c, s, i.status, i);
    BlockKeeps(c, s);
    BlockLast(c, s);
    if i.status & ATA_DRQ == 0 {
      assert none + NoDrq(i.status) == NoDrq(i.status);
      ErrEnds(c, Fail(s, NoDrq(i.status)), i.status, i);
    } else if i.status & DEV_ERR != 0 {
      FaultyBlock(c, s, i);
    } else if !c.write && LastBlock(c, s) {
      LastEnds(c, PioSectors(c, s), i.idle, i);
    }
  }

  lemma FaultyBlock(c: Cmd, s: Run, i: In)
    requires Proper(c) && Inv(c, s) && AtapiBytes.InList(c.sg, s.cur) && s.st == St && c.proto == Pio
    requires Drq(i.status) && Faulty(i.status)
    ensures Move(c, s, i).0.ended == Outcome(c, s, i)
  {
    hide PosOk, PioSectors, AtapiBytes.Sound;
    BitsMean(i.status);
    BitsMean(i.idle);
    PassDescends(c, s, i.status, i);
    var s1 := s.(err := s.err + {AcErr.Dev});
    RepeatSectorsFrame(c, s1);
    var s2 := if c.write then s1 else PioSectors(c, s1);
    var status' := if c.write then i.status else i.idle;
    var e: ErrMask := if status' & (ATA_BUSY | ATA_DRQ) != 0 then {AcErr.Hsm} else {};
    ErrEnds(c, Fail(s2, e), status', i);
    assert s2.err + e == if e == {} then {AcErr.Dev} else {AcErr.Dev, AcErr.Hsm};
    assert status' & (ATA_BUSY | ATA_DRQ) != 0 <==> c.write || Busy(i.idle) || Drq(i.idle);
  }

  /** A call that finds the block asked for in good order moves exactly one DRQ block: multi_count
      sectors or what is left of the command for the multiple commands, one sector otherwise. */
  lemma BlockMoved(c: Cmd, s: Run, i: In)
    requires Proper(c) && Inv(c, s) && AtapiBytes.InList(c.sg, s.cur) && c.proto == Pio && s.st in {First, St}
    requires AsksForBlock(i.status)
    ensures Move(c, s, i).0.pos.cursect == Min(s.pos.cursect + PerBlock(c), c.nsect)
  {
    hide PosOk, PioSectors, AtapiBytes.Sound;
    BitsMean(i.status);
    PassDescends(c, s, i.status, i);
    BlockKeeps(c, s);
    BlockKeeps(c, s.(st := St));
    BlockLast(c, s);
    if s.st == St && !c.write && LastBlock(c, s) { LastMoves(c, PioSectors(c, s), i.idle, i); }
  }

  lemma LastMoves(c: Cmd, s: Run, status: bv8, i: In)
    requires AtapiBytes.InList(c.sg, s.cur) && s.st == Last
    ensures MoveFrom(c, s, status, i).0.pos == s.pos
  {
    if !AtaOk(status) {
      var f := Fail(s, AcErrMask(status));
      assert MoveFrom(c, f, status, i).0.pos == f.pos;
    }
  }

  /** The WARN_ONs on the way: a multiple command with no multiple count, a CDB shorter than 12 bytes, a
      command that would end well with an error on record or badly with none, a call on an idle
      machine. */
  predicate WarnsNow(c: Cmd, s: Run, status: bv8) {
    match s.st
    case First => AsksForBlock(status) && if c.proto == Pio then c.multi && c.multiCount == 0 else c.cdbLen < 12
    case St => c.proto != AtapiPio && Drq(status) && !(Faulty(status) && c.write) && c.multi && c.multiCount == 0
    case Last => Ready(status) && s.err != {}
    case Err => s.err == {}
    case Idle => true
  }

  /** Exactly these are recorded. */
  lemma WarnsExactly(c: Cmd, s: Run, status: bv8, i: In)
    requires AtapiBytes.InList(c.sg, s.cur)
    ensures Pass(c, s, status, i).0.warned <==> s.warned || WarnsNow(c, s, status)
  {
    hide AtapiBytes.PioBytes, AtapiBytes.InList;
    BitsMean(status);
    RepeatFrame(c, s, BlockLen(c, s));
    RepeatFrame(c, s.(st := St), BlockLen(c, s));
    RepeatFrame(c, s.(err := s.err + {AcErr.Dev}), BlockLen(c, s));
  }

  /** poll_next is asked for exactly as long as the command goes on, except after the first block or
      the packet of a command that is not polled. */
  lemma PollsOn(c: Cmd, s: Run, i: In)
    requires Proper(c) && Inv(c, s) && AtapiBytes.InList(c.sg, s.cur) && s.st != Idle
    ensures Move(c, s, i).1 <==> Move(c, s, i).0.st != Idle && (s.st == First ==> c.polling)
  {
    hide PosOk, Inv, Proper, Outcome;
    PollsFrom(c, s, i.status, i);
  }

  lemma {:induction false} PollsFrom(c: Cmd, s: Run, status: bv8, i: In)
    requires Proper(c) && Inv(c, s) && AtapiBytes.InList(c.sg, s.cur) && s.st != Idle
    ensures MoveFrom(c, s, status, i).1 <==> MoveFrom(c, s, status, i).0.st != Idle && (s.st == First ==> c.polling)
    decreases Rank(s.st)
  {
    hide Pass, Inv, Proper;
    PassDescends(c, s, status, i);
    PassKeeps(c, s, status, i);
    PassPolls(c, s, status, i);
    var (r, next) := Pass(c, s, status, i);
    if next.Again? {
      PollsFrom(c, r, next.status, i);
      if s.st == First { ErrIdle(c, r, next.status, i); }
    }
  }

  lemma ErrIdle(c: Cmd, s: Run, status: bv8, i: In)
    requires AtapiBytes.InList(c.sg, s.cur) && s.st == Err
    ensures MoveFrom(c, s, status, i).0.st == Idle && !MoveFrom(c, s, status, i).1
  {
  }

  lemma PassPolls(c: Cmd, s: Run, status: bv8, i: In)
    requires AtapiBytes.InList(c.sg, s.cur) && s.st != Idle
    ensures var (r, next) := Pass(c, s, status, i);
            && (next.Stop? ==> (next.pollNext <==> r.st != Idle && (s.st == First ==> c.polling)))
            && (next.Again? ==> r.st != First && (s.st == First ==> r.st == Err))
  {
    hide AtapiBytes.PioBytes, AtapiBytes.InList;
    RepeatFrame(c, s, BlockLen(c, s));
    RepeatFrame(c, s.(st := St), BlockLen(c, s));
    RepeatFrame(c, s.(err := s.err + {AcErr.Dev}), BlockLen(c, s));
  }

  // ---- whole runs ----

  /** What an event ends the command with. */
  function EventOutcome(c: Cmd, s: Run, e: Event): Option<ErrMask> {
    if s.st != Idle && e.DmaError? && s.st == Last && DmaProto(c) then Some({HostBus}) else Outcome(c, s, e.i)
  }

  lemma HandleEnds(c: Cmd, s: Run, e: Event)
    requires Proper(c) && Inv(c, s) && AtapiBytes.InList(c.sg, s.cur)
    ensures Handle(c, s, e).ended == EventOutcome(c, s, e)
  {
    hide PosOk, MoveFrom, Outcome;
    if s.st != Idle {
      if e.DmaError? && s.st == Last && DmaProto(c) {
        ErrEnds(c, DmaFail(s), e.i.status, e.i);
        var none: ErrMask := {};
        assert none + {HostBus} == {HostBus};
      } else {
        MoveEnds(c, s, e.i);
      }
    } else {
      assert Outcome(c, s, e.i) == s.ended by { IdleOutcome(c, s, e.i); }
    }
  }

  lemma IdleOutcome(c: Cmd, s: Run, i: In)
    requires s.st == Idle
    ensures Outcome(c, s, i) == s.ended
  {
  }

  /** The run before event k. */
  function Before(c: Cmd, es: seq<Event>, k: nat): (r: Run)
    requires k <= |es|
    ensures AtapiBytes.InList(c.sg, r.cur)
  {
    RunOf(c, es[..k])
  }

  lemma BeforeStep(c: Cmd, es: seq<Event>, k: nat)
    requires 0 < k <= |es|
    ensures Before(c, es, k) == Handle(c, Before(c, es, k - 1), es[k - 1])
  {
    assert es[..k][..k - 1] == es[..k - 1];
  }

  /** The status that decides: after the last block of a read the one ata_wait_idle reads, otherwise
      the one that is passed in. */
  function DecidingStatus(c: Cmd, s: Run, i: In): bv8 {
    if s.st == St && c.proto == Pio then i.idle else i.status
  }

  /** Event k ends the command well, and the status that decides is ready. */
  ghost predicate EndsReadyAt(c: Cmd, es: seq<Event>, k: nat)
    requires k < |es|
  {
    && Before(c, es, k).ended.None? && Before(c, es, k + 1).ended == Some({})
    && Ready(DecidingStatus(c, Before(c, es, k), es[k].i))
  }

  lemma BeforePrefix(c: Cmd, es: seq<Event>, n: nat, k: nat)
    requires k <= n <= |es|
    ensures Before(c, es[..n], k) == Before(c, es, k)
  {
    assert es[..n][..k] == es[..k];
  }

  /** Success means that the device was ready: a command that ends with err_mask zero does so in an
      event whose deciding status has DRDY set and BSY, DF, DRQ and ERR clear. */
  lemma {:induction false} EndsWellReady(c: Cmd, es: seq<Event>)
    requires Proper(c) && RunOf(c, es).ended == Some({})
    ensures exists k: nat :: k < |es| && EndsReadyAt(c, es, k)
  {
    hide RunOf, Outcome, Handle, Ready, DecidingStatus, Inv, Proper, Before;
    var n := |es|;
    BeforeAll(c, es);
    if n == 0 {
      BeforeNone(c, es);
    } else {
      var es' := es[..n - 1];
      BeforeAll(c, es');
      BeforePrefix(c, es, n - 1, n - 1);
      RunKeeps(c, es');
      BeforeStep(c, es, n);
      var s := Before(c, es, n - 1);
      if s.ended.None? {
        WellIsReady(c, s, es[n - 1]);
        assert EndsReadyAt(c, es, n - 1);
      } else {
        OverStays(c, s, es[n - 1]);
        EndsWellReady(c, es');
        var k: nat :| k < n - 1 && EndsReadyAt(c, es', k);
        BeforePrefix(c, es, n - 1, k);
        BeforePrefix(c, es, n - 1, k + 1);
        assert EndsReadyAt(c, es, k);
      }
    }
  }

  lemma BeforeAll(c: Cmd, es: seq<Event>)
    ensures Before(c, es, |es|) == RunOf(c, es)
  {
    assert es[..|es|] == es;
  }

  lemma BeforeNone(c: Cmd, es: seq<Event>)
    ensures Before(c, es, 0) == Start(c)
  {
    assert es[..0] == [];
  }

  lemma OverStays(c: Cmd, s: Run, e: Event)
    requires Inv(c, s) && s.ended.Some? && AtapiBytes.InList(c.sg, s.cur)
    ensures Handle(c, s, e) == s
  {
  }

  lemma WellIsReady(c: Cmd, s: Run, e: Event)
    requires Proper(c) && Inv(c, s) && s.ended.None? && AtapiBytes.InList(c.sg, s.cur)
    requires Handle(c, s, e).ended == Some({})
    ensures Ready(DecidingStatus(c, s, e.i))
  {
    hide PosOk, AtapiBytes.Sound, Handle, Ready;
    HandleEnds(c, s, e);
  }

  /** A non-data command ends with its first event, and ends well if and only if the device is ready. */
  lemma {:induction false} NodataEndsWellIff(c: Cmd, es: seq<Event>)
    requires Proper(c) && c.proto == Nodata && |es| > 0
    ensures RunOf(c, es).ended.Some? && (RunOf(c, es).ended == Some({}) <==> Ready(es[0].i.status))
  {
    var n := |es|;
    assert es[..n] == es;
    RunKeeps(c, es[..n - 1]);
    BeforeStep(c, es, n);
    HandleEnds(c, Before(c, es, n - 1), es[n - 1]);
    if n > 1 { NodataEndsWellIff(c, es[..n - 1]); }
  }

  /** A DMA command the same, unless the DMA engine reports an error. */
  lemma {:induction false} DmaEndsWellIff(c: Cmd, es: seq<Event>)
    requires Proper(c) && c.proto == Dma && |es| > 0
    ensures RunOf(c, es).ended.Some? && (RunOf(c, es).ended == Some({}) <==> !es[0].DmaError? && Ready(es[0].i.status))
  {
    var n := |es|;
    assert es[..n] == es;
    RunKeeps(c, es[..n - 1]);
    BeforeStep(c, es, n);
    HandleEnds(c, Before(c, es, n - 1), es[n - 1]);
    if n > 1 { DmaEndsWellIff(c, es[..n - 1]); }
  }

  /** The device does its part in a PIO command: it asks for each block in good order and is ready
      when the last one is over. */
  predicate Cooperates(c: Cmd, s: Run, i: In) {
    match s.st
    case First => AsksForBlock(i.status)
    case St => AsksForBlock(i.status) && (!c.write && LastBlock(c, s) ==> Ready(i.idle))
    case Last => Ready(i.status)
    case Err => false
    case Idle => true
  }

  lemma PioStepWell(c: Cmd, s: Run, e: Event)
    requires Proper(c) && c.proto == Pio && Inv(c, s) && AtapiBytes.InList(c.sg, s.cur)
    requires s.ended.None? ==> s.st != Err
    ensures var r := Handle(c, s, e);
            && (r.ended.None? ==> r.st != Err)
            && (s.ended.None? ==> (r.ended in {None, Some({})} <==> Cooperates(c, s, e.i)))
            && (s.ended.Some? ==> r == s)
  {
    hide PosOk, MoveFrom, AtapiBytes.Sound;
    HandleEnds(c, s, e);
    if s.st != Idle { MoveEndsOrGoesOn(c, s, e.i); }
  }

  lemma MoveEndsOrGoesOn(c: Cmd, s: Run, i: In)
    requires Proper(c) && Inv(c, s) && s.st != Idle && AtapiBytes.InList(c.sg, s.cur)
    ensures Move(c, s, i).0.st != Err
  {
    hide Inv;
    NotErr(c, s, i.status, i);
  }

  lemma {:induction false} NotErr(c: Cmd, s: Run, status: bv8, i: In)
    requires Proper(c) && Inv(c, s) && s.st != Idle && AtapiBytes.InList(c.sg, s.cur)
    ensures MoveFrom(c, s, status, i).0.st != Err
    decreases Rank(s.st)
  {
    hide Inv, PioSectors, AtapiBytes.PioBytes;
    PassDescends(c, s, status, i);
    PassKeeps(c, s, status, i);
    StopsElsewhere(c, s, status, i);
    var (r, next) := Pass(c, s, status, i);
    if next.Again? { NotErr(c, r, next.status, i); }
  }

  lemma StopsElsewhere(c: Cmd, s: Run, status: bv8, i: In)
    requires AtapiBytes.InList(c.sg, s.cur) && Proper(c) && Inv(c, s) && s.st != Idle
    ensures Pass(c, s, status, i).1.Stop? ==> Pass(c, s, status, i).0.st != Err
  {
    hide PosOk, AtapiBytes.PioBytes;
    RepeatFrame(c, s, BlockLen(c, s));
    RepeatFrame(c, s.(st := St), BlockLen(c, s));
  }

  /** A PIO command is free of errors exactly as long as the device cooperates. */
  lemma {:induction false} PioWellIff(c: Cmd, es: seq<Event>)
    requires Proper(c) && c.proto == Pio
    ensures RunOf(c, es).ended.None? ==> RunOf(c, es).st != Err
    ensures RunOf(c, es).ended in {None, Some({})} <==>
              forall k: nat :: k < |es| ==> Cooperates(c, Before(c, es, k), es[k].i)
  {
    hide RunOf, Inv, Handle, Cooperates, Proper, Before;
    var n := |es|;
    BeforeAll(c, es);
    if n == 0 {
      BeforeNone(c, es);
    } else {
      var es' := es[..n - 1];
      PioWellIff(c, es');
      BeforeAll(c, es');
      RunKeeps(c, es');
      BeforeStep(c, es, n);
      forall k: nat | k <= n - 1 ensures Before(c, es', k) == Before(c, es, k) { BeforePrefix(c, es, n - 1, k); }
      var s := Before(c, es, n - 1);
      PioStepWell(c, s, es[n - 1]);
      if s.ended.Some? { IdleCooperates(c, s, es[n - 1].i); }
    }
  }

  lemma IdleCooperates(c: Cmd, s: Run, i: In)
    requires Inv(c, s) && s.ended.Some?
    ensures Cooperates(c, s, i)
  {
  }

  /** Given enough events, a PIO command ends well if and only if the device cooperates throughout. */
  lemma PioEndsWellIff(c: Cmd, es: seq<Event>)
    requires Proper(c) && c.proto == Pio && |es| > c.nsect
    ensures RunOf(c, es).ended == Some({}) <==>
              forall k: nat :: k < |es| ==> Cooperates(c, Before(c, es, k), es[k].i)
  {
    hide Cooperates;
    PioEnds(c, es);
    PioWellIff(c, es);
  }

  // ---- ATAPI ----

  /** A device that asks for the packet gets it; only a PIO command goes on to move data. */
  lemma PacketSent(c: Cmd, s: Run, i: In)
    requires Proper(c) && Inv(c, s) && AtapiBytes.InList(c.sg, s.cur) && s.st == First && Atapi(c)
    requires AsksForBlock(i.status)
    ensures Move(c, s, i).0 == s.(st := if c.proto == AtapiPio then St else Last)
  {
    hide PosOk, AtapiBytes.Sound;
    BitsMean(i.status);
  }

  /** A data block of an ATAPI command moves as many bytes as the device asks for and the list holds.
      The command then waits for its last status once nbytes are moved or the list is too short; it
      goes on while there is more to come. */
  lemma AtapiMoved(c: Cmd, s: Run, i: In)
    requires Proper(c) && Inv(c, s) && AtapiBytes.InList(c.sg, s.cur) && s.st == St && c.proto == AtapiPio
    requires AsksForBlock(i.status) && ReasonFits(c, i.ireason)
    ensures var r := Move(c, s, i).0;
            && r.cur.curbytes == Min(s.cur.curbytes + i.bytes, Total(c.sg)) && r.st in {St, Last}
            && (s.cur.curbytes + i.bytes >= c.nbytes || s.cur.curbytes + i.bytes > Total(c.sg) ==> r.st == Last)
            && (r.st == Last ==> s.cur.curbytes + i.bytes >= c.nbytes || s.cur.curbytes + i.bytes >= Total(c.sg))
  {
    hide PosOk, AtapiBytes.PioBytes;
    BitsMean(i.status);
    AtapiBytes.PioBytesSound(c.sg, s.cur, i.bytes);
  }

  /** A packet command without PIO data takes two events.  It ends well if and only if the device asks
      for the packet in good order, then is ready, and the DMA engine reports no error. */
  lemma {:induction false} PacketEndsWellIff(c: Cmd, es: seq<Event>)
    requires Proper(c) && c.proto in {AtapiNodata, AtapiDma} && |es| > 1
    ensures RunOf(c, es).ended.Some?
    ensures RunOf(c, es).ended == Some({}) <==>
              && AsksForBlock(es[0].i.status)
              && Ready(es[1].i.status) && !(c.proto == AtapiDma && es[1].DmaError?)
  {
    hide RunOf, Handle, Before;
    var n := |es|;
    BeforeAll(c, es);
    BeforeAll(c, es[..n - 1]);
    BeforePrefix(c, es, n - 1, n - 1);
    RunKeeps(c, es[..n - 1]);
    BeforeStep(c, es, n);
    if n > 2 {
      PacketEndsWellIff(c, es[..n - 1]);
      OverStays(c, Before(c, es, n - 1), es[n - 1]);
    } else {
      BeforeNone(c, es);
      BeforeStep(c, es, 1);
      StartOk(c);
      PacketTwo(c, es[0], es[1]);
    }
  }

  lemma PacketTwo(c: Cmd, e: Event, f: Event)
    requires Proper(c) && c.proto in {AtapiNodata, AtapiDma} && Inv(c, Start(c))
    ensures var r := Handle(c, Handle(c, Start(c), e), f).ended;
            && r.Some?
            && (r == Some({}) <==> AsksForBlock(e.i.status) && Ready(f.i.status) && !(c.proto == AtapiDma && f.DmaError?))
  {
    hide PosOk, AtapiBytes.Sound, MoveFrom;
    var s := Start(c);
    HandleEnds(c, s, e);
    HandleKeeps(c, s, e);
    if AsksForBlock(e.i.status) { PacketSent(c, s, e.i); }
    HandleEnds(c, Handle(c, s, e), f);
  }
}
