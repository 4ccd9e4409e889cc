/**
 SCSI reads, writes and verifies as ATA taskfiles: ata_scsi_rw_xlat, ata_scsi_verify_xlat,
 ata_rwcmd_protocol, and what a taskfile tells the device.
 */
module ScsiXlat {
  import Ata

  type Byte = b: nat | b < 256

  const ZERO_CDB: seq<Byte> := [0, 0, 0, 0, 0, 0, 0, 0, 0, 0, 0, 0, 0, 0, 0, 0]

  type Cdb = s: seq<Byte> | |s| == 16 witness ZERO_CDB

  const U64: nat := 0x1_0000_0000_0000_0000
  const U32: nat := 0x1_0000_0000
  const LBA28: nat := 0x1000_0000
  const LBA48: nat := 0x1_0000_0000_0000

  // ---- SCSI: what a CDB asks for (clause 5 of SBC-2) ----

  datatype Dir = Read | Write | Verify

  datatype Request = Request(dir: Dir, lba: nat, count: nat, fua: bool)

  const READ_6: Byte := 0x08
  const WRITE_6: Byte := 0x0A
  const READ_10: Byte := 0x28
  const WRITE_10: Byte := 0x2A
  const VERIFY_10: Byte := 0x2F
  const READ_16: Byte := 0x88
  const WRITE_16: Byte := 0x8A
  const VERIFY_16: Byte := 0x8F

  predicate Is6(c: Cdb) { c[0] == READ_6 || c[0] == WRITE_6 }
  predicate Is10(c: Cdb) { c[0] == READ_10 || c[0] == WRITE_10 || c[0] == VERIFY_10 }
  predicate IsWrite(c: Cdb) { c[0] == WRITE_6 || c[0] == WRITE_10 || c[0] == WRITE_16 }
  predicate IsRw(c: Cdb) { IsWrite(c) || c[0] == READ_6 || c[0] == READ_10 || c[0] == READ_16 }
  predicate IsVerify(c: Cdb) { c[0] == VERIFY_10 || c[0] == VERIFY_16 }

  /** Bytes i..j, most significant first. */
  function BigEndian(c: Cdb, i: nat, j: nat): nat
    requires i <= j <= 16
    decreases j
  {
    if i == j then 0 else BigEndian(c, i, j - 1) * 256 + c[j - 1]
  }

  /** The request a CDB means, by the standard. */
  function Meaning(c: Cdb): Request
    requires IsRw(c) || IsVerify(c)
  {
    var dir := if IsWrite(c) then Write else if IsVerify(c) then Verify else Read;
    var fua := dir != Verify && c[1] / 8 % 2 == 1;
    if Is6(c) then Request(dir, c[1] % 32 * 65536 + BigEndian(c, 2, 4), if c[4] == 0 then 256 else c[4], false)
    else if Is10(c) then Request(dir, BigEndian(c, 2, 6), BigEndian(c, 7, 9), fua)
    else Request(dir, BigEndian(c, 2, 10), BigEndian(c, 10, 14), fua)
  }

  // ---- ATA: what a taskfile asks for ----

  datatype Proto = Nodata | Pio | Dma | Ncq

  /** Protocol, the flags that matter here, and the registers. */
  datatype Tf = Tf(proto: Proto, write: bool, lba: bool, lba48: bool, fua: bool, command: Byte,
                   feature: Byte, hobFeature: Byte, nsect: Byte, hobNsect: Byte,
                   lbal: Byte, lbam: Byte, lbah: Byte, hobLbal: Byte, hobLbam: Byte, hobLbah: Byte, device: Byte)

  datatype Dev = Dev(flags: Ata.DevFlags, lba: bool, lba48: bool, hostPioLba48: bool,
                     multiCount: nat, heads: nat, sectors: nat, nSectors: nat)

  const CMD_READ: Byte := 0xC8
  const CMD_READ_EXT: Byte := 0x25
  const CMD_WRITE: Byte := 0xCA
  const CMD_WRITE_EXT: Byte := 0x35
  const CMD_WRITE_FUA_EXT: Byte := 0x3D
  const CMD_FPDMA_READ: Byte := 0x60
  const CMD_FPDMA_WRITE: Byte := 0x61
  const CMD_PIO_READ: Byte := 0x20
  const CMD_PIO_READ_EXT: Byte := 0x24
  const CMD_PIO_WRITE: Byte := 0x30
  const CMD_PIO_WRITE_EXT: Byte := 0x34
  const CMD_READ_MULTI: Byte := 0xC4
  const CMD_READ_MULTI_EXT: Byte := 0x29
  const CMD_WRITE_MULTI: Byte := 0xC5
  const CMD_WRITE_MULTI_EXT: Byte := 0x39
  const CMD_WRITE_MULTI_FUA_EXT: Byte := 0xCE
  const CMD_VERIFY: Byte := 0x40
  const CMD_VERIFY_EXT: Byte := 0x42

  /** How a command's registers are laid out. */
  datatype Layout = Short | Ext | Queued

  /** The device's view of an opcode: layout, direction, whether it forces unit access. */
  function Opcode(cmd: Byte): (r: (Layout, Dir, bool)) {
    if cmd == CMD_READ || cmd == CMD_PIO_READ || cmd == CMD_READ_MULTI then (Short, Read, false)
    else if cmd == CMD_WRITE || cmd == CMD_PIO_WRITE || cmd == CMD_WRITE_MULTI then (Short, Write, false)
    else if cmd == CMD_READ_EXT || cmd == CMD_PIO_READ_EXT || cmd == CMD_READ_MULTI_EXT then (Ext, Read, false)
    else if cmd == CMD_WRITE_EXT || cmd == CMD_PIO_WRITE_EXT || cmd == CMD_WRITE_MULTI_EXT then (Ext, Write, false)
    else if cmd == CMD_WRITE_FUA_EXT || cmd == CMD_WRITE_MULTI_FUA_EXT then (Ext, Write, true)
    else if cmd == CMD_FPDMA_READ then (Queued, Read, false)
    else if cmd == CMD_FPDMA_WRITE then (Queued, Write, false)
    else if cmd == CMD_VERIFY_EXT then (Ext, Verify, false)
    else (Short, Verify, false)
  }

  function Low24(t: Tf): nat { t.lbah * 65536 + t.lbam * 256 + t.lbal }

  function Full48(t: Tf): nat { t.hobLbah * 0x100_0000_0000 + t.hobLbam * 0x1_0000_0000 + t.hobLbal * 0x100_0000 + Low24(t) }

  /** A count register of zero means the maximum. */
  function Count(n: nat, max: nat): nat { if n == 0 then max else n }

  /** Cylinder, head and sector to block number. */
  function ChsBlock(t: Tf, d: Dev): int {
    ((t.lbah * 256 + t.lbam) * d.heads + t.device % 16) * d.sectors + t.lbal - 1
  }

  /** The request a device reads out of a taskfile (the command descriptions of ATA/ATAPI-6, and of
      Serial ATA II for queued commands); it looks at the opcode and the registers only. */
  function Decode(t: Tf, d: Dev): (Dir, int, nat, bool) {
    var (layout, dir, fua) := Opcode(t.command);
    match layout
    case Queued => (dir, Full48(t), Count(t.hobFeature * 256 + t.feature, 65536), t.device / 128 == 1)
    case Ext => (dir, Full48(t), Count(t.hobNsect * 256 + t.nsect, 65536), fua)
    case Short =>
      if t.device / 64 % 2 == 1 then (dir, t.device % 16 * 0x100_0000 + Low24(t), Count(t.nsect, 256), fua)
      else (dir, ChsBlock(t, d), Count(t.nsect, 256), fua)
  }

  predicate Means(t: Tf, d: Dev, r: Request) { Decode(t, d) == (r.dir, r.lba, r.count, r.fua) }

  // ---- the translators ----

  /** lba_28_ok and lba_48_ok; the sum is taken in 64 bits. */
  predicate Lba28Ok(block: nat, n: nat)
    requires n > 0
  {
    (block + n - 1) % U64 < LBA28 && n <= 256
  }

  predicate Lba48Ok(block: nat, n: nat)
    requires n > 0
  {
    (block + n - 1) % U64 < LBA48 && n <= 65536
  }

  /** ata_rw_cmds; zero marks a combination that does not exist. */
  const RW_CMDS: seq<Byte> := [
    CMD_READ_MULTI, CMD_WRITE_MULTI, CMD_READ_MULTI_EXT, CMD_WRITE_MULTI_EXT, 0, 0, 0, CMD_WRITE_MULTI_FUA_EXT,
    CMD_PIO_READ, CMD_PIO_WRITE, CMD_PIO_READ_EXT, CMD_PIO_WRITE_EXT, 0, 0, 0, 0,
    CMD_READ, CMD_WRITE, CMD_READ_EXT, CMD_WRITE_EXT, 0, 0, 0, CMD_WRITE_FUA_EXT]

  /** ata_rwcmd_protocol: protocol and opcode, opcode zero for failure. */
  function RwcmdProtocol(d: Dev, fua: bool, lba48: bool, write: bool): (Proto, Byte) {
    var pio := d.flags.pio || (lba48 && d.hostPioLba48);
    var index := if !pio then 16 else if d.multiCount > 0 then 0 else 8;
    (if pio then Pio else Dma,
     RW_CMDS[index + (if fua then 4 else 0) + (if lba48 then 2 else 0) + (if write then 1 else 0)])
  }

  datatype Xlat = Command(tf: Tf, nsect: nat) | InvalidField | OutOfRange | NothingToDo

  /** scsi_6_lba_len, scsi_10_lba_len, scsi_16_lba_len. */
  function LbaLen(c: Cdb): (nat, nat) {
    if Is6(c) then (BigEndian(c, 2, 4), c[4])
    else if Is10(c) then (BigEndian(c, 2, 6), BigEndian(c, 7, 9))
    else (BigEndian(c, 2, 10), BigEndian(c, 10, 14))
  }

  function Nth(x: nat, k: nat): Byte
    requires k > 0
  {
    x / k % 256
  }

  /** The low 24 address bits. */
  function SetLow(t: Tf, block: nat): Tf {
    t.(lbah := Nth(block, 0x1_0000), lbam := Nth(block, 0x100), lbal := Nth(block, 1))
  }

  function SetHob(t: Tf, block: nat): Tf {
    t.(hobLbah := Nth(block, 0x100_0000_0000), hobLbam := Nth(block, 0x1_0000_0000), hobLbal := Nth(block, 0x100_0000))
  }

  /** Registers of an LBA command with a count register; big: LBA48. */
  function SetLba(t: Tf, block: nat, n: nat, big: bool): Tf
    requires t.device % 16 == 0 && t.device / 64 % 2 == 0
  {
    var t1 := SetLow(t, block).(nsect := n % 256);
    if big then SetHob(t1, block).(hobNsect := Nth(n, 256), device := t.device + 64)
    else t1.(device := t.device + block / 0x100_0000 % 16 + 64)
  }

  function Quot(a: nat, b: nat): (q: nat)
    requires b > 0
    ensures q * b <= a < q * b + b
  {
    a / b
  }

  function Rem(a: nat, b: nat): (r: nat)
    requires b > 0
    ensures r < b && a == Quot(a, b) * b + r
  {
    a % b
  }

  /** Cylinder, head, sector of a block. */
  function Chs(block: nat, d: Dev): (nat, nat, nat)
    requires d.heads > 0 && d.sectors > 0
  {
    var track := Quot(block % U32, d.sectors);
    (Quot(track, d.heads), Rem(track, d.heads), Rem(block % U32, d.sectors) + 1)
  }

  predicate ChsFits(x: (nat, nat, nat)) { x.0 < 65536 && x.1 < 16 && x.2 < 256 }

  function SetChs(t: Tf, x: (nat, nat, nat), n: nat): Tf
    requires ChsFits(x) && t.device % 16 == 0
  {
    t.(nsect := n % 256, lbal := x.2, lbam := x.0 % 256, lbah := x.0 / 256, device := t.device + x.1)
  }

  /** ata_tf_init: the device register selects the device and has its obsolete bits set. */
  function InitTf(slave: bool): Tf {
    Tf(Nodata, false, false, false, false, 0, 0, 0, 0, 0, 0, 0, 0, 0, 0, 0, if slave then 0xB0 else 0xA0)
  }

  /** A device addressed by cylinders has a geometry. */
  predicate Usable(d: Dev) { d.lba || Ata.UsesNcq(d.flags) || (d.heads > 0 && d.sectors > 0) }

  /** ata_scsi_rw_xlat. */
  function RwXlat(c: Cdb, d: Dev, tag: nat, slave: bool): Xlat
    requires (d.lba || (d.heads > 0 && d.sectors > 0) || Ata.UsesNcq(d.flags)) && tag < 32
  {
    if !IsRw(c) then InvalidField
    else
      var write := IsWrite(c);
      var (block, len) := LbaLen(c);
      var n := if Is6(c) && len == 0 then 256 else len;
      var fua := !Is6(c) && c[1] / 8 % 2 == 1;
      var t := InitTf(slave).(write := write, fua := fua);
      if n == 0 then NothingToDo
      else if Ata.UsesNcq(d.flags) then RwNcq(t, block, n, tag)
      else if d.lba then RwLba(t, d, block, n)
      else RwChs(t, d, block, n)
  }

  function RwNcq(t: Tf, block: nat, n: nat, tag: nat): Xlat
    requires n > 0 && tag < 32
  {
    if !Lba48Ok(block, n) then OutOfRange
    else
      Command(SetHob(SetLow(t, block), block)
                .(proto := Ncq, lba := true, lba48 := true, command := if t.write then CMD_FPDMA_WRITE else CMD_FPDMA_READ,
                  nsect := tag * 8, hobFeature := Nth(n, 256), feature := n % 256,
                  device := 64 + if t.fua then 128 else 0),
              n)
  }

  function RwLba(t: Tf, d: Dev, block: nat, n: nat): Xlat
    requires n > 0 && t.device % 16 == 0 && t.device / 64 % 2 == 0
  {
    var big := !Lba28Ok(block, n);
    if big && !(Lba48Ok(block, n) && d.lba48) then OutOfRange
    else
      var (proto, cmd) := RwcmdProtocol(d, t.fua, big, t.write);
      if cmd == 0 then InvalidField
      else Command(SetLba(t, block, n, big).(lba := true, lba48 := big, proto := proto, command := cmd), n)
  }

  function RwChs(t: Tf, d: Dev, block: nat, n: nat): Xlat
    requires n > 0 && d.heads > 0 && d.sectors > 0 && t.device % 16 == 0
  {
    if !Lba28Ok(block, n) then OutOfRange
    else
      var (proto, cmd) := RwcmdProtocol(d, t.fua, false, t.write);
      if cmd == 0 then InvalidField
      else if !ChsFits(Chs(block, d)) then OutOfRange
      else Command(SetChs(t, Chs(block, d), n).(proto := proto, command := cmd), n)
  }

  /** ata_scsi_verify_xlat. */
  function VerifyXlat(c: Cdb, d: Dev, slave: bool): Xlat
    requires d.lba || (d.heads > 0 && d.sectors > 0)
  {
    if !IsVerify(c) then InvalidField
    else
      var (block, n) := LbaLen(c);
      var t := InitTf(slave);
      if n == 0 then NothingToDo
      else if block >= d.nSectors || (block + n) % U64 > d.nSectors then OutOfRange
      else if d.lba then
        var big := !Lba28Ok(block, n);
        if big && !(Lba48Ok(block, n) && d.lba48) then OutOfRange
        else Command(SetLba(t, block, n, big).(lba := true, lba48 := big, command := if big then CMD_VERIFY_EXT else CMD_VERIFY), 0)
      else if !Lba28Ok(block, n) || !ChsFits(Chs(block, d)) then OutOfRange
      else Command(SetChs(t, Chs(block, d), n).(command := CMD_VERIFY), 0)
  }

  // ---- the registers hold the address ----

  lemma Bytes48(block: nat)
    requires block < LBA48
    ensures Nth(block, 0x100_0000_0000) * 0x100_0000_0000 + Nth(block, 0x1_0000_0000) * 0x1_0000_0000
            + Nth(block, 0x100_0000) * 0x100_0000 + Nth(block, 0x1_0000) * 65536 + Nth(block, 0x100) * 256 + Nth(block, 1) == block
  {
    var b1 := block / 256;
    var b2 := b1 / 256;
    var b3 := b2 / 256;
    var b4 := b3 / 256;
    assert block / 0x1_0000 == b2 && block / 0x100_0000 == b3 && block / 0x1_0000_0000 == b4;
    assert block / 0x100_0000_0000 == b4 / 256;
  }

  lemma Bytes28(block: nat)
    requires block < LBA28
    ensures block / 0x100_0000 % 16 * 0x100_0000 + Nth(block, 0x1_0000) * 65536 + Nth(block, 0x100) * 256 + Nth(block, 1) == block
  {
    var b1 := block / 256;
    var b2 := b1 / 256;
    assert block / 0x1_0000 == b2 && block / 0x100_0000 == b2 / 256;
  }

  lemma CountBack(n: nat, max: nat)
    requires 0 < n <= max && (max == 256 || max == 65536)
    ensures max == 256 ==> Count(n % 256, 256) == n
    ensures max == 65536 ==> Count(Nth(n, 256) * 256 + n % 256, 65536) == n
  {
  }

  /** The division with remainder that CHS rests on is undone. */
  lemma ChsBack(block: nat, d: Dev)
    requires d.heads > 0 && d.sectors > 0
    ensures var x := Chs(block, d); (x.0 * d.heads + x.1) * d.sectors + x.2 - 1 == block % U32
  {
    hide Quot, Rem;
  }

  /** An accepted range that does not wrap lies inside the address space it was accepted for. */
  lemma NoWrapFits(block: nat, n: nat)
    requires 0 < n && block + n <= U64
    ensures Lba28Ok(block, n) <==> block + n <= LBA28 && n <= 256
    ensures Lba48Ok(block, n) <==> block + n <= LBA48 && n <= 65536
  {
  }

  /** ata_rw_cmds agrees with what the opcodes mean to the device: a nonzero entry has the direction
      and layout asked for and forces unit access exactly when asked to. */
  lemma TableFaithful(d: Dev, fua: bool, lba48: bool, write: bool)
    ensures var (proto, cmd) := RwcmdProtocol(d, fua, lba48, write);
            cmd != 0 ==> Opcode(cmd) == (if lba48 then Ext else Short, if write then Write else Read, fua)
    ensures RwcmdProtocol(d, fua, lba48, write).1 == 0 <==>
              fua && !(lba48 && write && (RwcmdProtocol(d, fua, lba48, write).0 == Dma || d.multiCount > 0))
  {
  }

  lemma LbaDecodes(t: Tf, d: Dev, block: nat, n: nat, big: bool, dir: Dir, fua: bool, cmd: Byte, r: Tf)
    requires t.device % 16 == 0 && t.device / 64 % 2 == 0 && 0 < n
    requires r == SetLba(t, block, n, big).(command := cmd, lba := r.lba, lba48 := r.lba48, proto := r.proto)
    requires Opcode(cmd) == (if big then Ext else Short, dir, fua)
    requires if big then n <= 65536 else n <= 256
    ensures block < (if big then LBA48 else LBA28) ==> Decode(r, d) == (dir, block, n, fua)
    ensures Decode(r, d).1 < LBA48
  {
    CountBack(n, if big then 65536 else 256);
    if big {
      if block < LBA48 { Bytes48(block); }
    } else {
      assert r.device % 16 == block / 0x100_0000 % 16;
      assert r.device / 64 % 2 == 1;
      if block < LBA28 { Bytes28(block); }
    }
  }

  lemma ChsDecodes(t: Tf, d: Dev, block: nat, n: nat, dir: Dir, fua: bool, cmd: Byte, r: Tf)
    requires d.heads > 0 && d.sectors > 0 && t.device % 16 == 0 && t.device / 64 % 2 == 0 && 0 < n <= 256 && ChsFits(Chs(block, d))
    requires r == SetChs(t, Chs(block, d), n).(command := cmd, proto := r.proto)
    requires Opcode(cmd) == (Short, dir, fua)
    ensures Decode(r, d) == (dir, block % U32, n, fua)
  {
    hide Chs, ChsBlock, Opcode, Full48, Low24, Count;
    CountBack(n, 256);
    var x := Chs(block, d);
    DeviceBits(t.device, x.1);
    CylBytes(x.0);
    ChsBlockIs(r, d, x);
    ChsBack(block, d);
  }

  lemma DeviceBits(device: nat, low: nat)
    requires device % 16 == 0 && device / 64 % 2 == 0 && low < 16
    ensures (device + low) % 16 == low && (device + low) / 64 % 2 == 0
  {
    var k := device / 16;
    assert device == 16 * k && (device + low) / 16 == k;
    Div64(device);
    Div64(device + low);
  }

  lemma Div64(x: nat)
    ensures x / 64 == x / 16 / 4
  {
  }

  lemma CylBytes(cyl: nat)
    ensures cyl / 256 * 256 + cyl % 256 == cyl
  {
  }

  lemma ChsBlockIs(r: Tf, d: Dev, x: (nat, nat, nat))
    requires r.device % 16 == x.1 && r.lbah * 256 + r.lbam == x.0 && r.lbal == x.2
    ensures ChsBlock(r, d) == (x.0 * d.heads + x.1) * d.sectors + x.2 - 1
  {
  }

  lemma NcqDecodes(t: Tf, d: Dev, block: nat, n: nat, tag: nat)
    requires 0 < n && tag < 32 && Lba48Ok(block, n)
    ensures var r := RwNcq(t, block, n, tag).tf;
            && (block < LBA48 ==> Decode(r, d) == (if t.write then Write else Read, block, n, t.fua))
            && Decode(r, d).1 < LBA48 && r.nsect / 8 == tag
  {
    CountBack(n, 65536);
    if block < LBA48 { Bytes48(block); }
  }

  // ---- meaning is preserved ----

  /** A 10- or 16-byte CDB is read in full, a 6-byte one without bits 4:0 of byte 1. */
  lemma LbaLenMeans(c: Cdb)
    requires IsRw(c) || IsVerify(c)
    ensures var (block, len) := LbaLen(c);
            var m := Meaning(c);
            && m.count == (if Is6(c) && len == 0 then 256 else len)
            && m.lba == block + (if Is6(c) then c[1] as int % 32 * 65536 else 0)
            && block < U64 && len < U32 && (Is6(c) ==> block < 65536)
  {
    assert BigEndian(c, 2, 4) == BigEndian(c, 2, 3) * 256 + c[3];
    BigEndianBound(c, 2, 6);
    BigEndianBound(c, 7, 9);
    BigEndianBound(c, 2, 10);
    BigEndianBound(c, 10, 14);
  }

  function Pow256(k: nat): nat { if k == 0 then 1 else 256 * Pow256(k - 1) }

  lemma {:induction false} BigEndianBound(c: Cdb, i: nat, j: nat)
    requires i <= j <= 16
    ensures BigEndian(c, i, j) < Pow256(j - i)
    ensures Pow256(2) == 65536 && Pow256(4) == U32 && Pow256(8) == U64
  {
    assert Pow256(4) == 256 * 256 * 256 * 256 * Pow256(0);
    assert Pow256(8) == 256 * 256 * 256 * 256 * Pow256(4);
    if i < j { BigEndianBound(c, i, j - 1); }
  }

  /** The exact condition under which an accepted command keeps its meaning: the 64-bit sum of block
      and length does not wrap, and a 6-byte CDB has bits 4:0 of byte 1 clear. */
  predicate Sound(c: Cdb)
    requires IsRw(c) || IsVerify(c)
  {
    LbaLen(c).0 + Meaning(c).count <= U64 && (Is6(c) ==> c[1] % 32 == 0)
  }

  /** Translation preserves meaning: the taskfile of an accepted read or write makes the device do
      what the CDB asks for (direction, start block, length, forced unit access), in every addressing
      mode, if and only if Sound holds.  In particular FUA is never dropped. */
  lemma RwPreserves(c: Cdb, d: Dev, tag: nat, slave: bool)
    requires Usable(d) && tag < 32 && IsRw(c) && RwXlat(c, d, tag, slave).Command?
    ensures Means(RwXlat(c, d, tag, slave).tf, d, Meaning(c)) <==> Sound(c)
    ensures RwXlat(c, d, tag, slave).nsect == Meaning(c).count
    ensures Decode(RwXlat(c, d, tag, slave).tf, d).3 == Meaning(c).fua
  {
    hide Decode, RwNcq, RwLba, RwChs, BigEndian, Lba28Ok, Lba48Ok, Meaning, LbaLen;
    LbaLenMeans(c);
    MeaningParts(c);
    var (block, len) := LbaLen(c);
    var n := Meaning(c).count;
    var t := InitTf(slave).(write := IsWrite(c), fua := Meaning(c).fua);
    if Ata.UsesNcq(d.flags) { NcqCase(t, d, block, n, tag); }
    else if d.lba { LbaCase(t, d, block, n); }
    else { ChsCase(t, d, block, n); }
  }

  lemma MeaningParts(c: Cdb)
    requires IsRw(c)
    ensures Meaning(c).dir == (if IsWrite(c) then Write else Read) && Meaning(c).fua == (!Is6(c) && c[1] / 8 % 2 == 1)
  {
  }

  /** The common shape of the three cases. */
  predicate CaseOk(x: Xlat, t: Tf, d: Dev, block: nat, n: nat) {
    x.Command? ==>
      && x.nsect == n && Decode(x.tf, d).3 == t.fua
      && (block + n <= U64 ==> Decode(x.tf, d) == (if t.write then Write else Read, block, n, t.fua))
      && (block + n > U64 ==> Decode(x.tf, d).1 != block) && Decode(x.tf, d).1 < LBA48
  }

  lemma NcqCase(t: Tf, d: Dev, block: nat, n: nat, tag: nat)
    requires 0 < n < U32 && tag < 32 && block < U64
    ensures CaseOk(RwNcq(t, block, n, tag), t, d, block, n)
  {
    if Lba48Ok(block, n) {
      NcqDecodes(t, d, block, n, tag);
      if block + n <= U64 { NoWrapFits(block, n); }
      var r := RwNcq(t, block, n, tag).tf;
      assert Decode(r, d).3 == t.fua;
    }
  }

  lemma LbaCase(t: Tf, d: Dev, block: nat, n: nat)
    requires 0 < n < U32 && block < U64 && t.device % 16 == 0 && t.device / 64 % 2 == 0
    ensures CaseOk(RwLba(t, d, block, n), t, d, block, n)
  {
    hide Decode, SetLba, Opcode;
    var x := RwLba(t, d, block, n);
    if x.Command? {
      var big := !Lba28Ok(block, n);
      TableFaithful(d, t.fua, big, t.write);
      var cmd := RwcmdProtocol(d, t.fua, big, t.write).1;
      LbaDecodes(t, d, block, n, big, if t.write then Write else Read, t.fua, cmd, x.tf);
      if block + n <= U64 { NoWrapFits(block, n); }
      FuaOf(x.tf, d);
    }
  }

  /** For commands other than queued ones FUA is in the opcode. */
  lemma FuaOf(t: Tf, d: Dev)
    requires Opcode(t.command).0 != Queued
    ensures Decode(t, d).3 == Opcode(t.command).2
  {
  }

  lemma ChsCase(t: Tf, d: Dev, block: nat, n: nat)
    requires 0 < n < U32 && block < U64 && d.heads > 0 && d.sectors > 0 && t.device % 16 == 0 && t.device / 64 % 2 == 0
    ensures CaseOk(RwChs(t, d, block, n), t, d, block, n)
  {
    hide Decode, SetChs, Opcode, Chs, ChsFits;
    var x := RwChs(t, d, block, n);
    if x.Command? {
      TableFaithful(d, t.fua, false, t.write);
      var cmd := RwcmdProtocol(d, t.fua, false, t.write).1;
      ChsDecodes(t, d, block, n, if t.write then Write else Read, t.fua, cmd, x.tf);
      if block + n <= U64 { NoWrapFits(block, n); }
    }
  }

  /** The same for VERIFY; and an accepted VERIFY that does not wrap lies within the disk. */
  lemma VerifyPreserves(c: Cdb, d: Dev, slave: bool)
    requires (d.lba || (d.heads > 0 && d.sectors > 0)) && IsVerify(c) && VerifyXlat(c, d, slave).Command?
    ensures Means(VerifyXlat(c, d, slave).tf, d, Meaning(c)) <==> Sound(c)
    ensures Sound(c) ==> Meaning(c).lba + Meaning(c).count <= d.nSectors || (Meaning(c).lba + Meaning(c).count == U64 && Meaning(c).lba < d.nSectors)
  {
    hide Decode, SetLba, SetChs, Chs, ChsFits, BigEndian, Opcode, Meaning, LbaLen;
    LbaLenMeans(c);
    VerifyMeaning(c);
    var (block, n) := LbaLen(c);
    var t := InitTf(slave);
    var x := VerifyXlat(c, d, slave);
    VerifyOpcodes();
    if block + n <= U64 { NoWrapFits(block, n); }
    if d.lba {
      var big := !Lba28Ok(block, n);
      LbaDecodes(t, d, block, n, big, Verify, false, if big then CMD_VERIFY_EXT else CMD_VERIFY, x.tf);
    } else {
      ChsDecodes(t, d, block, n, Verify, false, CMD_VERIFY, x.tf);
    }
  }

  lemma VerifyMeaning(c: Cdb)
    requires IsVerify(c)
    ensures Meaning(c).dir == Verify && !Meaning(c).fua
  {
  }

  lemma VerifyOpcodes()
    ensures Opcode(CMD_VERIFY) == (Short, Verify, false) && Opcode(CMD_VERIFY_EXT) == (Ext, Verify, false)
  {
  }

  // ---- what is accepted ----

  /** The number of blocks a device can address with read and write commands of the driver. */
  function Reach(d: Dev): nat {
    if Ata.UsesNcq(d.flags) || (d.lba && d.lba48) then LBA48
    else LBA28
  }

  function Longest(d: Dev): nat { if Ata.UsesNcq(d.flags) || (d.lba && d.lba48) then 65536 else 256 }

  /** A cylinder-addressed device of legal geometry takes exactly the start blocks below
      65536 * heads * sectors. */
  lemma ChsFitsIff(block: nat, d: Dev)
    requires 0 < d.heads <= 16 && 0 < d.sectors <= 255 && block < U32
    ensures ChsFits(Chs(block, d)) <==> block < 65536 * d.heads * d.sectors
  {
    hide Quot, Rem, Chs;
    ChsSmall(block, d);
    QuotBelow(Quot(block, d.sectors), 65536, d.heads);
    QuotBelow(block, 65536 * d.heads, d.sectors);
  }

  lemma ChsSmall(block: nat, d: Dev)
    requires 0 < d.heads <= 16 && 0 < d.sectors <= 255 && block < U32
    ensures var x := Chs(block, d); x.0 == Quot(Quot(block, d.sectors), d.heads) && x.1 < 16 && x.2 < 256
  {
    hide Quot, Rem;
  }

  lemma QuotBelow(a: nat, n: nat, b: nat)
    requires b > 0
    ensures Quot(a, b) < n <==> a < n * b
  {
    hide Quot;
    var q := Quot(a, b);
    if q < n {
      MulMono(q + 1, n, b);
      assert (q + 1) * b == q * b + b;
    } else {
      MulMono(n, q, b);
    }
  }

  lemma MulMono(a: nat, b: nat, c: nat)
    requires a <= b
    ensures a * c <= b * c
  {
  }

  /** Which reads and writes are accepted, for requests that do not wrap: those with something to
      move that the device can reach, unless FUA is asked for where no FUA command exists. */
  lemma RwAccepts(c: Cdb, d: Dev, tag: nat, slave: bool)
    requires Usable(d) && tag < 32 && IsRw(c) && Sound(c) && (d.lba || Ata.UsesNcq(d.flags))
    ensures var m := Meaning(c);
            RwXlat(c, d, tag, slave).Command? <==>
              && 0 < m.count <= Longest(d) && m.lba + m.count <= Reach(d)
              && (m.fua && !Ata.UsesNcq(d.flags) ==>
                    && !(m.count <= 256 && m.lba + m.count <= LBA28) && m.dir == Write
                    && (d.multiCount > 0 || (!d.flags.pio && !d.hostPioLba48)))
    ensures RwXlat(c, d, tag, slave) == NothingToDo <==> Meaning(c).count == 0
    ensures RwXlat(c, d, tag, slave) == OutOfRange <==>
              Meaning(c).count > 0 && !(Meaning(c).count <= Longest(d) && Meaning(c).lba + Meaning(c).count <= Reach(d))
  {
    hide BigEndian, Meaning, LbaLen, SetLba;
    LbaLenMeans(c);
    MeaningParts(c);
    var (block, len) := LbaLen(c);
    var n := Meaning(c).count;
    if n > 0 {
      NoWrapFits(block, n);
      TableFaithful(d, Meaning(c).fua, true, IsWrite(c));
      TableFaithful(d, Meaning(c).fua, false, IsWrite(c));
    }
  }

  /** Cylinder addressing: start blocks below 65536 * heads * sectors, at most 256 blocks, no FUA. */
  lemma RwAcceptsChs(c: Cdb, d: Dev, tag: nat, slave: bool)
    requires !d.lba && !Ata.UsesNcq(d.flags) && 0 < d.heads <= 16 && 0 < d.sectors <= 255 && tag < 32 && IsRw(c) && Sound(c)
    ensures var m := Meaning(c);
            RwXlat(c, d, tag, slave).Command? <==>
              && 0 < m.count <= 256 && m.lba + m.count <= LBA28 && !m.fua
              && m.lba < 65536 * d.heads * d.sectors
  {
    hide BigEndian, Meaning, LbaLen, SetChs, Chs, ChsFits;
    LbaLenMeans(c);
    MeaningParts(c);
    var n := Meaning(c).count;
    if n > 0 {
      NoWrapFits(LbaLen(c).0, n);
      TableFaithful(d, Meaning(c).fua, false, IsWrite(c));
      if Lba28Ok(LbaLen(c).0, n) { ChsFitsIff(LbaLen(c).0, d); }
    }
  }

  /** Which VERIFYs are accepted, for requests that do not wrap: those with something to check that lie
      within the disk, and that the device can reach by LBA. */
  lemma VerifyAccepts(c: Cdb, d: Dev, slave: bool)
    requires d.lba && IsVerify(c) && Sound(c)
    ensures var m := Meaning(c);
            var x := VerifyXlat(c, d, slave);
            && (x.Command? <==>
                  && 0 < m.count <= (if d.lba48 then 65536 else 256)
                  && m.lba + m.count <= (if d.lba48 then LBA48 else LBA28) && m.lba + m.count <= d.nSectors)
            && (x == NothingToDo <==> m.count == 0) && x != InvalidField
  {
    hide BigEndian, Meaning, LbaLen, SetLba;
    LbaLenMeans(c);
    if Meaning(c).count > 0 { NoWrapFits(LbaLen(c).0, Meaning(c).count); }
  }

  /** The same by cylinder. */
  lemma VerifyAcceptsChs(c: Cdb, d: Dev, slave: bool)
    requires !d.lba && 0 < d.heads <= 16 && 0 < d.sectors <= 255 && IsVerify(c) && Sound(c)
    ensures var m := Meaning(c);
            var x := VerifyXlat(c, d, slave);
            && (x.Command? <==>
                  && 0 < m.count <= 256 && m.lba + m.count <= LBA28 && m.lba + m.count <= d.nSectors
                  && m.lba < 65536 * d.heads * d.sectors)
            && (x == NothingToDo <==> m.count == 0) && x != InvalidField
  {
    hide BigEndian, Meaning, LbaLen, SetChs, Chs, ChsFits;
    LbaLenMeans(c);
    var block := LbaLen(c).0;
    if Meaning(c).count > 0 {
      NoWrapFits(block, Meaning(c).count);
      if Lba28Ok(block, Meaning(c).count) { ChsFitsIff(block, d); }
    }
  }

  // ---- counterexamples ----

  /** READ(6) of block 65536: accepted, but the device is told to read block 0. */
  lemma Read6LosesBits()
    ensures var c: Cdb := ZERO_CDB[0 := READ_6][1 := 1][4 := 1];
            var d := Dev(Ata.DevFlags(false, false, false), true, true, false, 0, 16, 63, 0x1_0000_0000);
            RwXlat(c, d, 0, false).Command? && Meaning(c).lba == 65536 && !Means(RwXlat(c, d, 0, false).tf, d, Meaning(c))
  {
    var c: Cdb := ZERO_CDB[0 := READ_6][1 := 1][4 := 1];
    var d := Dev(Ata.DevFlags(false, false, false), true, true, false, 0, 16, 63, 0x1_0000_0000);
    LbaLenMeans(c);
    assert LbaLen(c) == (0, 1);
    NoWrapFits(0, 1);
    TableFaithful(d, false, false, false);
    RwPreserves(c, d, 0, false);
  }

  /** READ(16) of two blocks at block 2^64 - 1: the sum wraps and the command is accepted. */
  lemma Read16Wraps()
    ensures var c: Cdb := [READ_16, 0, 255, 255, 255, 255, 255, 255, 255, 255, 0, 0, 0, 2, 0, 0];
            var d := Dev(Ata.DevFlags(false, false, false), true, true, false, 0, 16, 63, 0x1_0000_0000);
            RwXlat(c, d, 0, false).Command? && !Means(RwXlat(c, d, 0, false).tf, d, Meaning(c))
  {
    var c: Cdb := [READ_16, 0, 255, 255, 255, 255, 255, 255, 255, 255, 0, 0, 0, 2, 0, 0];
    var d := Dev(Ata.DevFlags(false, false, false), true, true, false, 0, 16, 63, 0x1_0000_0000);
    assert BigEndian(c, 2, 4) == 0xFFFF && BigEndian(c, 2, 6) == 0xFFFF_FFFF;
    assert BigEndian(c, 2, 8) == 0xFFFF_FFFF_FFFF && BigEndian(c, 2, 10) == U64 - 1;
    assert BigEndian(c, 10, 12) == 0 && BigEndian(c, 10, 14) == 2;
    LbaLenMeans(c);
    assert Lba28Ok(U64 - 1, 2);
    TableFaithful(d, false, false, false);
    RwPreserves(c, d, 0, false);
  }

  // ---- in place ----

  datatype Rc = Accepted | Rejected(sense: Byte) | Done

  /** The sense codes of the exits invalid_fld and out_of_range. */
  const INVALID_FIELD: Byte := 0x24
  const LBA_OUT_OF_RANGE: Byte := 0x21

  ghost predicate Agrees(x: Xlat, rc: Rc, tf: Tf, nsect: nat) {
    match x
    case Command(t, n) => rc == Accepted && tf == t && nsect == n
    case InvalidField => rc == Rejected(INVALID_FIELD)
    case OutOfRange => rc == Rejected(LBA_OUT_OF_RANGE)
    case NothingToDo => rc == Done
  }

  /** The part of a queued command the translators fill in. */
  class XlatCmd {
    const tag: nat
    const slave: bool
    var tf: Tf
    var nsect: nat

    constructor (t: nat, s: bool)
      ensures tag == t && slave == s && tf == InitTf(s) && nsect == 0
    {
      tag, slave, tf, nsect := t, s, InitTf(s), 0;
    }

    method Rwcmd(d: Dev) returns (ok: bool)
      modifies this`tf
      ensures var (proto, cmd) := RwcmdProtocol(d, old(tf.fua), old(tf.lba48), old(tf.write));
              ok == (cmd != 0) && (ok ==> tf == old(tf).(proto := proto, command := cmd))
    {
      var index;
      var proto := Pio;
      if d.flags.pio || (tf.lba48 && d.hostPioLba48) {
        index := if d.multiCount > 0 then 0 else 8;
      } else {
        proto := Dma;
        index := 16;
      }
      var cmd := RW_CMDS[index + (if tf.fua then 4 else 0) + (if tf.lba48 then 2 else 0) + (if tf.write then 1 else 0)];
      if cmd == 0 { return false; }
      tf := tf.(proto := proto, command := cmd);
      return true;
    }

    method FillNcq(block: nat, n: nat) returns (rc: Rc)
      requires n > 0 && tag < 32
      modifies this
      ensures Agrees(RwNcq(old(tf), block, n, tag), rc, tf, nsect)
    {
      hide Lba48Ok, Nth;
      if !Lba48Ok(block, n) { return Rejected(LBA_OUT_OF_RANGE); }
      tf := tf.(proto := Ncq, lba := true, lba48 := true, command := if tf.write then CMD_FPDMA_WRITE else CMD_FPDMA_READ);
      nsect := n;
      tf := tf.(nsect := tag * 8, hobFeature := Nth(n, 256), feature := n % 256);
      tf := SetLow(SetHob(tf, block), block);
      tf := tf.(device := 64);
      if tf.fua { tf := tf.(device := tf.device + 128); }
      return Accepted;
    }

    method FillLba(d: Dev, block: nat, n: nat) returns (rc: Rc)
      requires n > 0 && tf == InitTf(slave).(write := tf.write, fua := tf.fua)
      modifies this
      ensures Agrees(RwLba(old(tf), d, block, n), rc, tf, nsect)
    {
      hide Lba28Ok, Lba48Ok, Nth, RwcmdProtocol;
      tf := tf.(lba := true);
      if Lba28Ok(block, n) {
        tf := tf.(device := tf.device + block / 0x100_0000 % 16);
      } else if Lba48Ok(block, n) {
        if !d.lba48 { return Rejected(LBA_OUT_OF_RANGE); }
        tf := SetHob(tf.(lba48 := true, hobNsect := Nth(n, 256)), block);
      } else {
        return Rejected(LBA_OUT_OF_RANGE);
      }
      var ok := Rwcmd(d);
      if !ok { return Rejected(INVALID_FIELD); }
      nsect := n;
      tf := SetLow(tf.(nsect := n % 256), block);
      tf := tf.(device := tf.device + 64);
      return Accepted;
    }

    method FillChs(d: Dev, block: nat, n: nat) returns (rc: Rc)
      requires n > 0 && d.heads > 0 && d.sectors > 0 && tf.device % 16 == 0 && !tf.lba48
      modifies this
      ensures Agrees(RwChs(old(tf), d, block, n), rc, tf, nsect)
    {
      hide Lba28Ok, Chs, ChsFits, RwcmdProtocol;
      if !Lba28Ok(block, n) { return Rejected(LBA_OUT_OF_RANGE); }
      var ok := Rwcmd(d);
      if !ok { return Rejected(INVALID_FIELD); }
      var x := Chs(block, d);
      if !ChsFits(x) { return Rejected(LBA_OUT_OF_RANGE); }
      nsect := n;
      tf := SetChs(tf, x, n);
      return Accepted;
    }

    /** ata_scsi_rw_xlat. */
    method RwXlatInPlace(c: Cdb, d: Dev) returns (rc: Rc)
      requires Usable(d) && tag < 32 && tf == InitTf(slave) && nsect == 0
      modifies this
      ensures Agrees(RwXlat(c, d, tag, slave), rc, tf, nsect)
    {
      hide BigEndian, LbaLen, RwNcq, RwLba, RwChs;
      if !IsRw(c) { return Rejected(INVALID_FIELD); }
      tf := tf.(write := IsWrite(c));
      var (block, n) := LbaLen(c);
      if Is6(c) {
        if n == 0 { n := 256; }
      } else if c[1] / 8 % 2 == 1 {
        tf := tf.(fua := true);
      }
      if n == 0 { return Done; }
      if Ata.UsesNcq(d.flags) { rc := FillNcq(block, n); }
      else if d.lba { rc := FillLba(d, block, n); }
      else { rc := FillChs(d, block, n); }
    }

    /** ata_scsi_verify_xlat. */
    method VerifyXlatInPlace(c: Cdb, d: Dev) returns (rc: Rc)
      requires (d.lba || (d.heads > 0 && d.sectors > 0)) && tf == InitTf(slave) && nsect == 0
      modifies this
      ensures Agrees(VerifyXlat(c, d, slave), rc, tf, nsect)
    {
      hide BigEndian, LbaLen, Lba28Ok, Lba48Ok, Nth, Chs, ChsFits;
      if !IsVerify(c) { return Rejected(INVALID_FIELD); }
      var (block, n) := LbaLen(c);
      if n == 0 { return Done; }
      if block >= d.nSectors || (block + n) % U64 > d.nSectors { return Rejected(LBA_OUT_OF_RANGE); }
      if d.lba {
        tf := tf.(lba := true);
        if Lba28Ok(block, n) {
          tf := tf.(command := CMD_VERIFY, device := tf.device + block / 0x100_0000 % 16);
        } else if Lba48Ok(block, n) {
          if !d.lba48 { return Rejected(LBA_OUT_OF_RANGE); }
          tf := SetHob(tf.(lba48 := true, command := CMD_VERIFY_EXT, hobNsect := Nth(n, 256)), block);
        } else {
          return Rejected(LBA_OUT_OF_RANGE);
        }
        tf := SetLow(tf.(nsect := n % 256), block);
        tf := tf.(device := tf.device + 64);
      } else {
        if !Lba28Ok(block, n) { return Rejected(LBA_OUT_OF_RANGE); }
        var x := Chs(block, d);
        if !ChsFits(x) { return Rejected(LBA_OUT_OF_RANGE); }
        tf := SetChs(tf.(command := CMD_VERIFY), x, n);
      }
      return Accepted;
    }
  }
}
