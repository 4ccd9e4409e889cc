/** The host state machine as it runs: fields updated in place, the chain of goto fsm_start a loop. */
module HsmMachine {
  import opened Ata
  import opened ScatterList
  import AtapiBytes
  import opened Hsm

  class Machine {
    const cmd: Cmd
    var st: State
    var err: ErrMask
    var cursect: nat
    var cursg: nat
    var ofs: nat
    var xfers: seq<Seg>
    var cur: AtapiBytes.Cursor
    var ended: Option<ErrMask>
    var warned: bool

    ghost function Now(): Run
      reads this
    {
      Run(st, err, SectPos(cursect, cursg, ofs, xfers), cur, ended, warned)
    }

    ghost predicate Valid()
      reads this
    {
      AtapiBytes.InList(cmd.sg, cur)
    }

    /** ata_qc_issue_prot: the state a command starts in. */
    constructor (c: Cmd)
      ensures Valid() && cmd == c && Now() == Start(c)
    {
      cmd := c;
      st := match c.proto
            case Nodata => Last case Dma => Last
            case Pio => if c.write then First else St
            case _ => First;
      err, ended, warned := {}, None, false;
      cursect, cursg, ofs, xfers := 0, 0, 0, [];
      cur := AtapiBytes.START;
    }

    method PioSector()
      requires Valid() && cursg < |cmd.sg|
      modifies this
      ensures Valid() && Now() == Hsm.PioSector(cmd, old(Now()))
    {
      if cursect + 1 == cmd.nsect { st := Last; }
      xfers := xfers + [Seg(cmd.sg[cursg].addr + ofs * ATA_SECT_SIZE, ATA_SECT_SIZE)];
      cursect := cursect + 1;
      ofs := ofs + 1;
      if ofs * ATA_SECT_SIZE == cmd.sg[cursg].length {
        cursg := cursg + 1;
        ofs := 0;
      }
    }

    /** The loop counts down the sectors of one DRQ block. */
    method PioSectors()
      requires Valid()
      modifies this
      ensures Valid() && Now() == Hsm.PioSectors(cmd, old(Now()))
    {
      hide Hsm.PioSector;
      ghost var s := Now();
      var n := BlockLen(cmd, Run(st, err, SectPos(cursect, cursg, ofs, xfers), cur, ended, warned));
      while n > 0 && cursg < |cmd.sg|
        invariant Valid() && warned == s.warned
        invariant PioRepeat(cmd, s, BlockLen(cmd, s)) == PioRepeat(cmd, Now(), n)
        decreases n
      {
        PioSectorFrame(cmd, Now());
        PioSector();
        n := n - 1;
      }
      if cmd.multi && cmd.multiCount == 0 { warned := true; }
    }

    method SendCdb()
      requires Valid()
      modifies this
      ensures Valid() && Now() == Hsm.SendCdb(cmd, old(Now()))
    {
      if cmd.cdbLen < 12 { warned := true; }
      match cmd.proto
      case AtapiPio => st := St;
      case AtapiNodata => st := Last;
      case AtapiDma => st := Last;
      case _ =>
    }

    method AtapiPioBytes(i: In)
      requires Valid()
      modifies this
      ensures Valid() && Now() == PioAtapi(cmd, old(Now()), i)
    {
      if i.ireason & 1 != 0 || cmd.write != (i.ireason & 2 == 0) {
        err := err + {AcErr.Hsm};
        st := Err;
        return;
      }
      if cur.curbytes + i.bytes >= cmd.nbytes { st := Last; }
      var trailing;
      cur, trailing := AtapiBytes.XferBytes(cmd.sg, cur, i.bytes);
      if trailing.Some? { st := Last; }
    }

    method SetErr(e: ErrMask)
      requires Valid()
      modifies this`st, this`err
      ensures Now() == Fail(old(Now()), e)
    {
      err := err + e;
      st := Err;
    }

    /** One pass of the switch; again tells whether control goes back to fsm_start. */
    method SwitchPass(status: bv8, i: In) returns (again: bool, status': bv8, pollNext: bool)
      requires Valid()
      modifies this
      ensures Valid() && (Now(), if again then Again(status') else Stop(pollNext)) == Pass(cmd, old(Now()), status, i)
    {
      hide Hsm.PioSectors, Hsm.SendCdb, PioAtapi;
      status' := status;
      again, pollNext := true, true;
      match st {
        case First =>
          if status & ATA_DRQ == 0 {
            SetErr(if status & DEV_ERR != 0 then {AcErr.Dev} else {AcErr.Hsm});
          } else if status & DEV_ERR != 0 {
            SetErr({AcErr.Hsm});
          } else {
            if cmd.proto == Pio { st := St; PioSectors(); } else { SendCdb(); }
            again, pollNext := false, cmd.polling;
          }
        case St =>
          again, status', pollNext := DataPass(status, i);
        case Last =>
          if !AtaOk(status) {
            SetErr(AcErrMask(status));
          } else {
            if err != {} { warned := true; }
            st, ended := Idle, Some(err);
            again, pollNext := false, false;
          }
        case Err =>
          if err == {} { warned := true; }
          st, ended := Idle, Some(err);
          again, pollNext := false, false;
        case Idle =>
          warned := true;
          again, pollNext := false, false;
      }
    }

    /** The HSM_ST branch. */
    method DataPass(status: bv8, i: In) returns (again: bool, status': bv8, pollNext: bool)
      requires Valid() && st == St
      modifies this
      ensures Valid() && (Now(), if again then Again(status') else Stop(pollNext)) == Pass(cmd, old(Now()), status, i)
    {
      hide Hsm.PioSectors, PioAtapi;
      status', again, pollNext := status, true, true;
      if cmd.proto == AtapiPio {
        if status & ATA_DRQ == 0 {
          st := Last;
        } else if status & DEV_ERR != 0 {
          SetErr({AcErr.Hsm});
        } else {
          AtapiPioBytes(i);
          again := st == Err;
        }
      } else if status & ATA_DRQ == 0 {
        SetErr(if status & DEV_ERR != 0 then {AcErr.Dev} else {AcErr.Hsm});
      } else if status & DEV_ERR != 0 {
        err := err + {AcErr.Dev};
        if !cmd.write {
          PioSectors();
          status' := i.idle;
        }
        SetErr(if status' & (ATA_BUSY | ATA_DRQ) != 0 then {AcErr.Hsm} else {});
      } else {
        PioSectors();
        again := st == Last && !cmd.write;
        if again { status' := i.idle; }
      }
    }

    /** ata_hsm_move. */
    method HsmMove(i: In) returns (pollNext: bool)
      requires Valid()
      modifies this
      ensures Valid() && (Now(), pollNext) == Move(cmd, old(Now()), i)
    {
      hide Pass;
      ghost var s := Now();
      var status := i.status;
      var again := true;
      pollNext := false;
      while again
        invariant Valid()
        invariant if again then MoveFrom(cmd, s, i.status, i) == MoveFrom(cmd, Now(), status, i)
                  else MoveFrom(cmd, s, i.status, i) == (Now(), pollNext)
        decreases again, Rank(st)
      {
        PassDescends(cmd, Now(), status, i);
        again, status, pollNext := SwitchPass(status, i);
      }
    }
  }

  lemma PioSectorFrame(c: Cmd, s: Run)
    requires s.pos.cursg < |c.sg|
    ensures Hsm.PioSector(c, s).cur == s.cur && Hsm.PioSector(c, s).warned == s.warned
  {
  }
}
