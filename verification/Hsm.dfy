/**
 The host state machine of a PIO or ATAPI command: ata_hsm_move with ata_pio_sectors,
 atapi_send_cdb and atapi_pio_bytes.
 */
module Hsm {
  import opened Ata
  import opened ScatterList
  import AtapiBytes

  datatype State = Idle | First | St | Last | Err

  datatype Proto = Nodata | Dma | Pio | AtapiPio | AtapiNodata | AtapiDma

  /** What does not change while a command runs.  multi: is_multi_taskfile. */
  datatype Cmd = Cmd(proto: Proto, write: bool, polling: bool, multi: bool, multiCount: nat,
                     cdbIntr: bool, cdbLen: nat, sg: seq<Seg>, nsect: nat, nbytes: nat)

  /** ATA PIO position: qc->cursect, cursg, cursg_ofs (in sectors), buffers used so far. */
  datatype SectPos = SectPos(cursect: nat, cursg: nat, ofs: nat, xfers: seq<Seg>)

  /** ended: the err_mask the command ended with, once it has. */
  datatype Run = Run(st: State, err: ErrMask, pos: SectPos, cur: AtapiBytes.Cursor,
                     ended: Option<ErrMask>, warned: bool)

  /** What the device shows during one call: the status that is passed in, the status ata_wait_idle
      reads, and the interrupt reason and byte count registers. */
  datatype In = In(status: bv8, idle: bv8, ireason: bv8, bytes: nat)

  const DEV_ERR: bv8 := ATA_ERR | ATA_DF

  predicate Atapi(c: Cmd) { c.proto == AtapiPio || c.proto == AtapiNodata || c.proto == AtapiDma }

  // ---- ata_pio_sector(s) ----

  /** ata_pio_sector. */
  function PioSector(c: Cmd, s: Run): Run
    requires s.pos.cursg < |c.sg|
  {
    var p := s.pos;
    var seg := c.sg[p.cursg];
    var ofs := p.ofs + 1;
    var done := ofs * ATA_SECT_SIZE == seg.length;
    s.(st := if p.cursect + 1 == c.nsect then Last else s.st,
       pos := SectPos(p.cursect + 1, if done then p.cursg + 1 else p.cursg, if done then 0 else ofs,
                      p.xfers + [Seg(seg.addr + p.ofs * ATA_SECT_SIZE, ATA_SECT_SIZE)]))
  }

  /** n times ata_pio_sector, as far as the list goes (it always goes far enough: SectorsKeep). */
  function PioRepeat(c: Cmd, s: Run, n: nat): Run
    decreases n
  {
    if n == 0 || s.pos.cursg >= |c.sg| then s else PioRepeat(c, PioSector(c, s), n - 1)
  }

  /** How many sectors one DRQ block has. */
  function BlockLen(c: Cmd, s: Run): nat {
    if !c.multi then 1
    else if c.nsect < s.pos.cursect then 0
    else if c.nsect - s.pos.cursect < c.multiCount then c.nsect - s.pos.cursect else c.multiCount
  }

  /** ata_pio_sectors. */
  function PioSectors(c: Cmd, s: Run): Run {
    PioRepeat(c, s, BlockLen(c, s)).(warned := s.warned || (c.multi && c.multiCount == 0))
  }

  // ---- ATAPI ----

  /** atapi_send_cdb. */
  function SendCdb(c: Cmd, s: Run): Run {
    s.(warned := s.warned || c.cdbLen < 12,
       st := match c.proto
             case AtapiPio => St
             case AtapiNodata => Last
             case AtapiDma => Last
             case _ => s.st)
  }

  /** atapi_pio_bytes. */
  function PioAtapi(c: Cmd, s: Run, i: In): Run
    requires AtapiBytes.InList(c.sg, s.cur)
  {
    if i.ireason & 1 != 0 || c.write != (i.ireason & 2 == 0) then s.(st := Err, err := s.err + {AcErr.Hsm})
    else
      var (cur, trailing) := AtapiBytes.PioBytes(c.sg, s.cur, i.bytes);
      s.(cur := cur, st := if s.cur.curbytes + i.bytes >= c.nbytes || trailing.Some? then Last else s.st)
  }

  // ---- ata_hsm_move ----

  /** Where a pass of the switch leads: back to fsm_start with a status, or out with poll_next. */
  datatype Next = Again(status: bv8) | Stop(pollNext: bool)

  function Fail(s: Run, e: ErrMask): Run { s.(st := Err, err := s.err + e) }

  /** DRQ is missing: a device error if the device says so, a protocol violation otherwise. */
  function NoDrq(status: bv8): ErrMask { if status & DEV_ERR != 0 then {AcErr.Dev} else {AcErr.Hsm} }

  function Pass(c: Cmd, s: Run, status: bv8, i: In): (r: (Run, Next))
    requires AtapiBytes.InList(c.sg, s.cur)
  {
    match s.st
    case First =>
      if status & ATA_DRQ == 0 then (Fail(s, NoDrq(status)), Again(status))
      else if status & DEV_ERR != 0 then (Fail(s, {AcErr.Hsm}), Again(status))
      else if c.proto == Pio then (PioSectors(c, s.(st := St)), Stop(c.polling))
      else (SendCdb(c, s), Stop(c.polling))
    case St =>
      if c.proto == AtapiPio then
        if status & ATA_DRQ == 0 then (s.(st := Last), Again(status))
        else if status & DEV_ERR != 0 then (Fail(s, {AcErr.Hsm}), Again(status))
        else
          var r := PioAtapi(c, s, i);
          (r, if r.st == Err then Again(status) else Stop(true))
      else if status & ATA_DRQ == 0 then (Fail(s, NoDrq(status)), Again(status))
      else if status & DEV_ERR != 0 then
        var s1 := s.(err := s.err + {AcErr.Dev});
        var s2 := if c.write then s1 else PioSectors(c, s1);
        var status' := if c.write then status else i.idle;
        (Fail(s2, if status' & (ATA_BUSY | ATA_DRQ) != 0 then {AcErr.Hsm} else {}), Again(status'))
      else
        var r := PioSectors(c, s);
        (r, if r.st == Last && !c.write then Again(i.idle) else Stop(true))
    case Last =>
      if !AtaOk(status) then (Fail(s, AcErrMask(status)), Again(status))
      else (s.(st := Idle, warned := s.warned || s.err != {}, ended := Some(s.err)), Stop(false))
    case Err =>
      (s.(st := Idle, warned := s.warned || s.err == {}, ended := Some(s.err)), Stop(false))
    case Idle => (s.(warned := true), Stop(false))
  }

  function Rank(st: State): nat {
    match st case First => 4 case St => 3 case Last => 2 case Err => 1 case Idle => 0
  }

  lemma {:induction false} RepeatFrame(c: Cmd, s: Run, n: nat)
    ensures var r := PioRepeat(c, s, n);
            r == s.(st := r.st, pos := r.pos) && (r.st == s.st || r.st == Last)
    decreases n
  {
    if n > 0 && s.pos.cursg < |c.sg| { RepeatFrame(c, PioSector(c, s), n - 1); }
  }

  /** The chain of goto fsm_start goes strictly down FIRST > ST > LAST > ERR. */
  lemma PassDescends(c: Cmd, s: Run, status: bv8, i: In)
    requires AtapiBytes.InList(c.sg, s.cur)
    ensures Pass(c, s, status, i).1.Again? ==> Rank(Pass(c, s, status, i).0.st) < Rank(s.st)
    ensures AtapiBytes.InList(c.sg, Pass(c, s, status, i).0.cur)
    ensures Pass(c, s, status, i).0.st == Idle ==> s.st in {Idle, Last, Err}
  {
    RepeatFrame(c, s, BlockLen(c, s));
    RepeatFrame(c, s.(st := St), BlockLen(c, s));
    RepeatFrame(c, s.(err := s.err + {AcErr.Dev}), BlockLen(c, s));
  }

  /** ata_hsm_move: the run and poll_next. */
  function MoveFrom(c: Cmd, s: Run, status: bv8, i: In): (r: (Run, bool))
    requires AtapiBytes.InList(c.sg, s.cur)
    ensures AtapiBytes.InList(c.sg, r.0.cur)
    decreases Rank(s.st)
  {
    PassDescends(c, s, status, i);
    var (r, next) := Pass(c, s, status, i);
    match next
    case Again(status') => MoveFrom(c, r, status', i)
    case Stop(poll) => (r, poll)
  }

  function Move(c: Cmd, s: Run, i: In): (Run, bool)
    requires AtapiBytes.InList(c.sg, s.cur)
  {
    MoveFrom(c, s, i.status, i)
  }

  // ---- what every run keeps ----

  /** A command as the translators set it up: whole sectors, a list long enough, sane parameters. */
  ghost predicate Proper(c: Cmd) {
    && (c.multi ==> c.multiCount > 0) && (Atapi(c) ==> c.cdbLen >= 12)
    && (c.proto == Pio ==>
          && c.nsect >= 1 && Total(c.sg) >= ATA_SECT_SIZE * c.nsect
          && forall k :: 0 <= k < |c.sg| ==> c.sg[k].length > 0 && c.sg[k].length % ATA_SECT_SIZE == 0)
  }

  /** The sector cursor is where cursect says, and the buffers used are the first cursect sectors of
      the list, each 512 bytes long. */
  ghost predicate PosOk(c: Cmd, p: SectPos) {
    && p.cursg <= |c.sg| && p.cursect <= c.nsect
    && ATA_SECT_SIZE * p.cursect == Total(c.sg[..p.cursg]) + ATA_SECT_SIZE * p.ofs <= Total(c.sg)
    && (p.cursg < |c.sg| ==> ATA_SECT_SIZE * p.ofs < c.sg[p.cursg].length) && (p.cursg == |c.sg| ==> p.ofs == 0)
    && |p.xfers| == p.cursect && (forall k :: 0 <= k < |p.xfers| ==> p.xfers[k].length == ATA_SECT_SIZE)
    && Flat(p.xfers) == Flat(c.sg)[..ATA_SECT_SIZE * p.cursect]
    && forall k :: 0 <= k < |p.xfers| ==> InSegment(c.sg, p.xfers[k])
  }

  /** Sector m of a segment. */
  function Sector(s: Seg, m: nat): Seg { Seg(s.addr + ATA_SECT_SIZE * m, ATA_SECT_SIZE) }

  ghost predicate SectorOf(sg: seq<Seg>, k: nat, m: nat, x: Seg) {
    k < |sg| && ATA_SECT_SIZE * m < sg[k].length && x == Sector(sg[k], m)
  }

  ghost predicate InSegment(sg: seq<Seg>, x: Seg) { exists k: nat, m: nat :: SectorOf(sg, k, m, x) }

  /** FIRST, ST and LAST go with a zero error mask, ERR with a nonzero one. */
  ghost predicate ErrAgrees(s: Run) {
    && (s.st in {First, St, Last} ==> s.err == {}) && (s.st == Err ==> s.err != {})
    && (s.st == Idle <==> s.ended.Some?) && !s.warned
  }

  /** How far a PIO command has come in each state. */
  ghost predicate Progress(c: Cmd, s: Run) {
    && PosOk(c, s.pos)
    && (s.st in {First, St} ==> s.pos.cursect < c.nsect)
    && (s.st == Last ==> s.pos.cursect == c.nsect)
    && (s.ended == Some({}) ==> s.pos.cursect == c.nsect)
  }

  ghost predicate Inv(c: Cmd, s: Run) {
    && ErrAgrees(s) && (c.proto == Pio ==> Progress(c, s)) && AtapiBytes.Sound(c.sg, s.cur)
    && (s.st == First ==> c.proto in {Pio, AtapiPio, AtapiNodata, AtapiDma} && (c.proto == Pio ==> c.write))
    && (s.st == St ==> c.proto in {Pio, AtapiPio})
  }

  /** One sector: no state but LAST is entered, and LAST exactly when the last sector is done. */
  lemma SectorKeeps(c: Cmd, s: Run)
    requires Proper(c) && c.proto == Pio && PosOk(c, s.pos) && s.pos.cursect < c.nsect
    ensures s.pos.cursg < |c.sg|
    ensures var r := PioSector(c, s);
            PosOk(c, r.pos) && r.pos.cursect == s.pos.cursect + 1
            && r.st == if r.pos.cursect == c.nsect then Last else s.st
  {
    hide Flat, Range;
    var p := s.pos;
    assert c.sg[..|c.sg|] == c.sg;
    var seg := c.sg[p.cursg];
    WholeSector(seg.length, p.ofs);
    Advance(c.sg, p.xfers, p.cursg, p.ofs * ATA_SECT_SIZE, ATA_SECT_SIZE);
    FlatNext(c.sg, p.cursg);
    assert SectorOf(c.sg, p.cursg, p.ofs, Seg(seg.addr + p.ofs * ATA_SECT_SIZE, ATA_SECT_SIZE));
  }

  lemma WholeSector(length: nat, ofs: nat)
    requires length % ATA_SECT_SIZE == 0 && ATA_SECT_SIZE * ofs < length
    ensures ATA_SECT_SIZE * (ofs + 1) <= length
  {
  }

  /** A DRQ block of n sectors stays within the command. */
  lemma {:induction false} SectorsKeep(c: Cmd, s: Run, n: nat)
    requires Proper(c) && c.proto == Pio && PosOk(c, s.pos) && s.pos.cursect + n <= c.nsect
    ensures var r := PioRepeat(c, s, n);
            && PosOk(c, r.pos) && r.pos.cursect == s.pos.cursect + n
            && r.st == if n > 0 && r.pos.cursect == c.nsect then Last else s.st
    decreases n
  {
    hide PosOk, PioSector;
    if n > 0 {
      assert s.pos.cursect < c.nsect;
      SectorKeeps(c, s);
      SectorsKeep(c, PioSector(c, s), n - 1);
    }
  }

  /** ata_pio_sectors always moves at least one sector and never goes past the command. */
  lemma BlockKeeps(c: Cmd, s: Run)
    requires Proper(c) && c.proto == Pio && PosOk(c, s.pos) && s.pos.cursect < c.nsect
    ensures var r := PioSectors(c, s);
            && PosOk(c, r.pos) && s.pos.cursect < r.pos.cursect <= c.nsect
            && r.pos.cursect == s.pos.cursect + BlockLen(c, s)
            && r.st == (if r.pos.cursect == c.nsect then Last else s.st)
            && r == s.(st := r.st, pos := r.pos)
  {
    hide PosOk;
    SectorsKeep(c, s, BlockLen(c, s));
    RepeatFrame(c, s, BlockLen(c, s));
  }

  lemma PassKeeps(c: Cmd, s: Run, status: bv8, i: In)
    requires Proper(c) && Inv(c, s) && s.st != Idle
    ensures Inv(c, Pass(c, s, status, i).0)
    ensures Pass(c, s, status, i).1 == Stop(false) ==>
              Pass(c, s, status, i).0.st == Idle || (s.st == First && !c.polling)
    ensures Pass(c, s, status, i).1.Again? ==> Pass(c, s, status, i).0.st != Idle
    ensures c.proto == Pio && Pass(c, s, status, i).1.Stop? ==>
              Pass(c, s, status, i).0.st == Idle || s.pos.cursect < Pass(c, s, status, i).0.pos.cursect
  {
    hide PosOk, PioSectors, AtapiBytes.Sound, AtapiBytes.PioBytes;
    if c.proto == Pio && s.st in {First, St} {
      BlockKeeps(c, s);
      BlockKeeps(c, s.(st := St));
      BlockKeeps(c, s.(err := s.err + {AcErr.Dev}));
    } else if s.st == St {
      RepeatSectorsFrame(c, s);
      RepeatSectorsFrame(c, s.(err := s.err + {AcErr.Dev}));
    }
    AtapiBytes.PioBytesSound(c.sg, s.cur, i.bytes);
  }

  lemma RepeatSectorsFrame(c: Cmd, s: Run)
    requires Proper(c)
    ensures var r := PioSectors(c, s); r == s.(st := r.st, pos := r.pos) && (r.st == s.st || r.st == Last)
  {
    RepeatFrame(c, s, BlockLen(c, s));
  }

  /** Every call keeps the invariant, for any status bytes and byte counts.  A PIO command makes
      progress with each call: it ends or has moved at least one more sector. */
  lemma {:induction false} MoveKeeps(c: Cmd, s: Run, status: bv8, i: In)
    requires Proper(c) && Inv(c, s) && s.st != Idle && AtapiBytes.InList(c.sg, s.cur)
    ensures Inv(c, MoveFrom(c, s, status, i).0)
    ensures !MoveFrom(c, s, status, i).1 ==> MoveFrom(c, s, status, i).0.st == Idle || (s.st == First && !c.polling)
    ensures c.proto == Pio ==>
              MoveFrom(c, s, status, i).0.st == Idle || s.pos.cursect < MoveFrom(c, s, status, i).0.pos.cursect
    decreases Rank(s.st)
  {
    hide Pass, Inv;
    PassDescends(c, s, status, i);
    PassKeeps(c, s, status, i);
    var (r, next) := Pass(c, s, status, i);
    if next.Again? {
      MoveKeeps(c, r, next.status, i);
      MonotoneNeeded(c, s, r, status, i);
    }
  }

  lemma MonotoneNeeded(c: Cmd, s: Run, r: Run, status: bv8, i: In)
    requires Proper(c) && Inv(c, s) && s.st != Idle && AtapiBytes.InList(c.sg, s.cur)
    requires Pass(c, s, status, i).0 == r && Pass(c, s, status, i).1.Again?
    ensures c.proto == Pio ==> s.pos.cursect <= r.pos.cursect
    ensures r.st != First
  {
    hide PosOk, PioSectors;
    if c.proto == Pio && s.st == St {
      BlockKeeps(c, s);
      BlockKeeps(c, s.(err := s.err + {AcErr.Dev}));
    }
  }

  // ---- whole runs ----

  /** A command as ata_qc_issue_prot starts it. */
  function Start(c: Cmd): Run {
    Run(match c.proto
        case Nodata => Last case Dma => Last
        case Pio => if c.write then First else St
        case _ => First,
        {}, SectPos(0, 0, 0, []), AtapiBytes.START, None, false)
  }

  /** ata_host_intr may find that the DMA engine failed before it moves the machine. */
  function DmaFail(s: Run): Run { Fail(s, {HostBus}) }

  datatype Event = Step(i: In) | DmaError(i: In)

  predicate DmaProto(c: Cmd) { c.proto == Dma || c.proto == AtapiDma }

  function Handle(c: Cmd, s: Run, e: Event): (r: Run)
    requires AtapiBytes.InList(c.sg, s.cur)
    ensures AtapiBytes.InList(c.sg, r.cur)
  {
    if s.st == Idle then s
    else if e.DmaError? && s.st == Last && DmaProto(c) then Move(c, DmaFail(s), e.i).0
    else Move(c, s, e.i).0
  }

  /** Any sequence of calls, from interrupt handler or workqueue, until the command has ended. */
  function RunOf(c: Cmd, es: seq<Event>): (r: Run)
    ensures AtapiBytes.InList(c.sg, r.cur)
  {
    if es == [] then Start(c) else Handle(c, RunOf(c, es[..|es| - 1]), es[|es| - 1])
  }

  lemma StartOk(c: Cmd)
    requires Proper(c)
    ensures Inv(c, Start(c))
  {
    AtapiBytes.StartSound(c.sg);
  }

  lemma {:induction false} RunKeeps(c: Cmd, es: seq<Event>)
    requires Proper(c)
    ensures Inv(c, RunOf(c, es))
  {
    if es == [] {
      StartOk(c);
    } else {
      RunKeeps(c, es[..|es| - 1]);
      HandleKeeps(c, RunOf(c, es[..|es| - 1]), es[|es| - 1]);
    }
  }

  lemma HandleKeeps(c: Cmd, s: Run, e: Event)
    requires Proper(c) && Inv(c, s) && AtapiBytes.InList(c.sg, s.cur)
    ensures Inv(c, Handle(c, s, e))
    ensures c.proto == Pio ==> Handle(c, s, e).st == Idle || s.pos.cursect < Handle(c, s, e).pos.cursect
  {
    hide PosOk, MoveFrom;
    if s.st != Idle {
      if e.DmaError? && s.st == Last && DmaProto(c) { MoveKeeps(c, DmaFail(s), e.i.status, e.i); }
      else { MoveKeeps(c, s, e.i.status, e.i); }
    }
  }

  /** PIO correctness: a PIO command that ends with err_mask zero has moved exactly nsect sectors,
      sector k to or from the 512 bytes at offset 512k of the scatter list; on the way it has never
      touched anything but a prefix of the list. */
  lemma PioMovesExactly(c: Cmd, es: seq<Event>)
    requires Proper(c) && c.proto == Pio
    ensures var p := RunOf(c, es).pos;
            && |p.xfers| == p.cursect <= c.nsect && Flat(p.xfers) == Flat(c.sg)[..ATA_SECT_SIZE * p.cursect]
            && (forall k: nat :: k < |p.xfers| ==>
                  p.xfers[k].length == ATA_SECT_SIZE
                  && Range(p.xfers[k].addr, ATA_SECT_SIZE) == Flat(c.sg)[ATA_SECT_SIZE * k..ATA_SECT_SIZE * (k + 1)])
            && (RunOf(c, es).ended == Some({}) ==> |p.xfers| == c.nsect)
  {
    RunKeeps(c, es);
    var p := RunOf(c, es).pos;
    forall k: nat | k < |p.xfers|
      ensures Range(p.xfers[k].addr, ATA_SECT_SIZE) == Flat(c.sg)[ATA_SECT_SIZE * k..ATA_SECT_SIZE * (k + 1)]
    {
      SectorAt(p.xfers, Flat(c.sg), k);
    }
  }

  lemma {:induction false} SectorsTotal(xfers: seq<Seg>)
    requires forall k :: 0 <= k < |xfers| ==> xfers[k].length == ATA_SECT_SIZE
    ensures Total(xfers) == ATA_SECT_SIZE * |xfers|
  {
    if xfers != [] { SectorsTotal(xfers[..|xfers| - 1]); }
  }

  lemma SectorAt(xfers: seq<Seg>, flat: seq<nat>, k: nat)
    requires k < |xfers| && forall j :: 0 <= j < |xfers| ==> xfers[j].length == ATA_SECT_SIZE
    requires ATA_SECT_SIZE * |xfers| <= |flat| && Flat(xfers) == flat[..ATA_SECT_SIZE * |xfers|]
    ensures Range(xfers[k].addr, ATA_SECT_SIZE) == flat[ATA_SECT_SIZE * k..ATA_SECT_SIZE * (k + 1)]
  {
    hide Flat, Range;
    SectorsTotal(xfers[..k]);
    FlatInside(xfers, k, 0, ATA_SECT_SIZE, ATA_SECT_SIZE * k);
    SliceOfPrefix(flat, ATA_SECT_SIZE * |xfers|, ATA_SECT_SIZE * k, ATA_SECT_SIZE * (k + 1));
  }

  /** Whatever the device answers, a PIO command is over after at most nsect + 1 calls. */
  lemma {:induction false} PioEnds(c: Cmd, es: seq<Event>)
    requires Proper(c) && c.proto == Pio
    ensures RunOf(c, es).st == Idle || |es| <= RunOf(c, es).pos.cursect
    ensures |es| > c.nsect ==> RunOf(c, es).ended.Some?
  {
    RunKeeps(c, es);
    if es != [] {
      PioEnds(c, es[..|es| - 1]);
      RunKeeps(c, es[..|es| - 1]);
      HandleKeeps(c, RunOf(c, es[..|es| - 1]), es[|es| - 1]);
    }
  }

  /** In every state of every run of every protocol: FIRST, ST and LAST mean no error so far, ERR
      means an error is on record, no WARN_ON fires, and ATAPI data has used exactly the first
      curbytes bytes of the list. */
  lemma StatesMeanErrors(c: Cmd, es: seq<Event>)
    requires Proper(c)
    ensures var s := RunOf(c, es);
            && !s.warned && (s.st in {First, St, Last} ==> s.err == {}) && (s.st == Err ==> s.err != {})
            && (s.st == Idle <==> s.ended.Some?)
            && s.cur.curbytes <= Total(c.sg) && Flat(s.cur.xfers) == Flat(c.sg)[..s.cur.curbytes]
  {
    RunKeeps(c, es);
  }

  // ---- one mapped page per sector ----

  /** All sectors of a segment lie in one page each: it is aligned to sectors, or lies in one page as
      a whole. */
  predicate PageSafe(s: Seg) { s.addr % ATA_SECT_SIZE == 0 || s.addr % PAGE_SIZE + s.length <= PAGE_SIZE }

  lemma SectorPage(s: Seg, m: nat)
    requires s.length % ATA_SECT_SIZE == 0 && ATA_SECT_SIZE * m < s.length && PageSafe(s)
    ensures AtapiBytes.InPage(Sector(s, m))
  {
    var a := s.addr + ATA_SECT_SIZE * m;
    if s.addr % ATA_SECT_SIZE == 0 {
      var q := s.addr / ATA_SECT_SIZE + m;
      assert a == ATA_SECT_SIZE * q && a % PAGE_SIZE == ATA_SECT_SIZE * (q % 8);
    } else {
      WholeSector(s.length, m);
      PageMod(s.addr, ATA_SECT_SIZE * m);
    }
  }

  /** An unsafe segment has a sector that straddles a page end. */
  lemma StraddlingSector(s: Seg) returns (m: nat)
    requires s.length % ATA_SECT_SIZE == 0 && !PageSafe(s)
    ensures ATA_SECT_SIZE * m < s.length && !AtapiBytes.InPage(Sector(s, m))
  {
    var r := s.addr % PAGE_SIZE;
    SectorOfPage(s.addr);
    m := StraddleAt(r);
    PageMod(s.addr, ATA_SECT_SIZE * m);
  }

  lemma SectorOfPage(a: nat)
    ensures a % PAGE_SIZE % ATA_SECT_SIZE == a % ATA_SECT_SIZE
  {
    var q := a / PAGE_SIZE;
    assert a % PAGE_SIZE == a - ATA_SECT_SIZE * (8 * q);
  }

  lemma PageMod(a: nat, x: nat)
    requires a % PAGE_SIZE + x < PAGE_SIZE
    ensures (a + x) % PAGE_SIZE == a % PAGE_SIZE + x
  {
  }

  lemma StraddleAt(r: nat) returns (m: nat)
    requires r < PAGE_SIZE && r % ATA_SECT_SIZE != 0
    ensures ATA_SECT_SIZE * m < PAGE_SIZE - r < ATA_SECT_SIZE * (m + 1)
  {
    m := (PAGE_SIZE - r) / ATA_SECT_SIZE;
    var q := r / ATA_SECT_SIZE;
    assert ATA_SECT_SIZE * q < r < ATA_SECT_SIZE * (q + 1);
  }

  lemma {:induction false} WholeSectors(sg: seq<Seg>)
    requires forall k :: 0 <= k < |sg| ==> sg[k].length % ATA_SECT_SIZE == 0
    ensures Total(sg) % ATA_SECT_SIZE == 0
  {
    if sg != [] { WholeSectors(sg[..|sg| - 1]); }
  }

  lemma RangeStart(a: nat, b: nat)
    requires Range(a, ATA_SECT_SIZE) == Range(b, ATA_SECT_SIZE)
    ensures a == b
  {
    assert Range(a, ATA_SECT_SIZE)[0] == a && Range(b, ATA_SECT_SIZE)[0] == b;
  }

  /** Once the whole list is moved, every sector of every segment has been moved. */
  lemma EverySectorMoved(c: Cmd, p: SectPos, k: nat, m: nat)
    requires Proper(c) && c.proto == Pio && PosOk(c, p) && ATA_SECT_SIZE * p.cursect == Total(c.sg)
    requires k < |c.sg| && ATA_SECT_SIZE * m < c.sg[k].length
    ensures Sector(c.sg[k], m) in p.xfers
  {
    hide Flat, Range;
    WholeSectors(c.sg[..k]);
    WholeSector(c.sg[k].length, m);
    var j := Total(c.sg[..k]) / ATA_SECT_SIZE + m;
    FlatInside(c.sg, k, ATA_SECT_SIZE * m, ATA_SECT_SIZE, ATA_SECT_SIZE * j);
    assert j < |p.xfers|;
    SectorAt(p.xfers, Flat(c.sg), j);
    RangeStart(p.xfers[j].addr, c.sg[k].addr + ATA_SECT_SIZE * m);
    assert p.xfers[j] == Sector(c.sg[k], m);
  }

  /** The source maps one page for each sector.  That is enough throughout a run if every segment is
      page safe; and a run that has moved the whole list shows that it is needed. */
  lemma SectorsInPages(c: Cmd, es: seq<Event>)
    requires Proper(c) && c.proto == Pio
    ensures var p := RunOf(c, es).pos;
            && ((forall k :: 0 <= k < |c.sg| ==> PageSafe(c.sg[k])) ==> forall x :: x in p.xfers ==> AtapiBytes.InPage(x))
            && (ATA_SECT_SIZE * p.cursect == Total(c.sg) ==>
                  ((forall x :: x in p.xfers ==> AtapiBytes.InPage(x)) <==> forall k :: 0 <= k < |c.sg| ==> PageSafe(c.sg[k])))
  {
    hide Flat, Range, AtapiBytes.InPage;
    RunKeeps(c, es);
    var p := RunOf(c, es).pos;
    if forall k :: 0 <= k < |c.sg| ==> PageSafe(c.sg[k]) {
      forall x | x in p.xfers ensures AtapiBytes.InPage(x) {
        assert InSegment(c.sg, x);
        var k: nat, m: nat :| SectorOf(c.sg, k, m, x);
        SectorPage(c.sg[k], m);
      }
    } else if ATA_SECT_SIZE * p.cursect == Total(c.sg) {
      var k: nat :| k < |c.sg| && !PageSafe(c.sg[k]);
      var m := StraddlingSector(c.sg[k]);
      EverySectorMoved(c, p, k, m);
    }
  }
}
