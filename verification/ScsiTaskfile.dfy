/** The taskfiles of translated commands, told apart by opcode number: what the flags and the protocol
    tell the host agrees with what the opcode and the device register tell the device. */
module ScsiTaskfile {
  import Ata
  import opened ScsiXlat

  // ---- opcodes by number (table of commands of ATA/ATAPI-6 and Serial ATA II) ----

  predicate QueuedOp(cmd: Byte) { cmd in {0x60, 0x61} }

  /** Reads and writes by PIO, the multiple commands among them, and by DMA. */
  predicate PioOp(cmd: Byte) { cmd in {0x20, 0x24, 0x30, 0x34} || MultiOp(cmd) }
  predicate MultiOp(cmd: Byte) { cmd in {0xC4, 0x29, 0xC5, 0x39, 0xCE} }
  predicate DmaOp(cmd: Byte) { cmd in {0xC8, 0x25, 0xCA, 0x35, 0x3D} }

  predicate WriteOp(cmd: Byte) { cmd in {0x30, 0x34, 0xC5, 0x39, 0xCE, 0xCA, 0x35, 0x3D, 0x61} }

  /** Commands with 48-bit addresses. */
  predicate WideOp(cmd: Byte) { cmd in {0x24, 0x34, 0x29, 0x39, 0xCE, 0x25, 0x35, 0x3D, 0x42} || QueuedOp(cmd) }

  /** Commands that force unit access by their opcode. */
  predicate FuaOp(cmd: Byte) { cmd in {0xCE, 0x3D} }

  /** Bits 6 and 4 of the device register: LBA addressing, and the device. */
  predicate LbaBit(t: Tf) { t.device / 64 % 2 == 1 }
  predicate DevBit(t: Tf) { t.device / 16 % 2 == 1 }

  /** Registers a command does not use are zero: the high-order ones of a short command, the features of
      any but a queued one, the address bits of the device register in 48-bit commands.  Bits 7 and 5
      of the device register, obsolete but set by tradition, are set except in queued commands, which
      use bit 7 for FUA and have bit 4 clear. */
  predicate UnusedClear(t: Tf) {
    && (!t.lba48 ==> t.hobNsect == 0 && t.hobLbal == 0 && t.hobLbam == 0 && t.hobLbah == 0)
    && (if t.proto == Ncq then t.hobNsect == 0 && t.device == (if t.fua then 0xC0 else 0x40)
        else t.feature == 0 && t.hobFeature == 0 && t.device / 128 == 1 && t.device / 32 % 2 == 1)
    && (t.lba48 ==> t.device % 16 == 0)
  }

  /** Flags and protocol against opcode and device register. */
  predicate FlagsTrue(t: Tf) {
    && (t.proto == Ncq <==> QueuedOp(t.command)) && (t.proto == Dma <==> DmaOp(t.command))
    && (t.proto == Pio <==> PioOp(t.command)) && (t.proto == Nodata <==> t.command in {0x40, 0x42})
    && (t.write <==> WriteOp(t.command)) && (t.lba48 <==> WideOp(t.command)) && (t.lba <==> LbaBit(t))
    && (t.proto != Ncq ==> (t.fua <==> FuaOp(t.command)))
  }

  /** What ata_rwcmd_protocol finds, by number. */
  lemma TableByNumber(d: Dev, fua: bool, lba48: bool, write: bool)
    ensures var (proto, cmd) := RwcmdProtocol(d, fua, lba48, write);
            && proto in {Pio, Dma} && (proto == Pio <==> d.flags.pio || (lba48 && d.hostPioLba48))
            && (cmd != 0 ==>
                  && (proto == Pio <==> PioOp(cmd)) && (proto == Dma <==> DmaOp(cmd)) && !QueuedOp(cmd) && cmd !in {0x40, 0x42}
                  && (MultiOp(cmd) <==> proto == Pio && d.multiCount > 0)
                  && (write <==> WriteOp(cmd)) && (lba48 <==> WideOp(cmd)) && (fua <==> FuaOp(cmd)))
  {
  }

  lemma DeviceBits(dev: Byte, x: nat)
    requires dev in {0xA0, 0xB0} && x < 16
    ensures (dev + x) / 64 % 2 == 0 && ((dev + x) / 16 % 2 == 1 <==> dev == 0xB0)
    ensures (dev + x) / 128 == 1 && (dev + x) / 32 % 2 == 1 && (dev + x + 64) / 128 == 1 && (dev + x + 64) / 32 % 2 == 1
    ensures dev + x + 64 < 256 && (dev + x + 64) / 64 % 2 == 1 && ((dev + x + 64) / 16 % 2 == 1 <==> dev == 0xB0)
  {
  }

  /** An accepted read or write.  The flags are true; NCQ is used exactly if the device has it switched
      on, PIO exactly if the device does PIO or the host does so for 48-bit commands, and the multiple
      commands exactly for PIO to a device that has a multiple count.  A queued command carries its
      tag in the upper five bits of the count register, any other selects its device.  48-bit
      commands are used only where the short ones do not reach. */
  lemma RwTaskfile(c: Cdb, d: Dev, tag: nat, slave: bool)
    requires Usable(d) && tag < 32 && RwXlat(c, d, tag, slave).Command?
    ensures IsRw(c)
    ensures var x := RwXlat(c, d, tag, slave);
            var t := x.tf;
            && FlagsTrue(t) && UnusedClear(t) && t.proto != Nodata && (t.write <==> IsWrite(c)) && t.fua == Meaning(c).fua
            && (t.proto == Ncq <==> d.flags.ncq && !d.flags.ncqOff && !d.flags.pio)
            && (t.proto == Pio <==> !Ata.UsesNcq(d.flags) && (d.flags.pio || (t.lba48 && d.hostPioLba48)))
            && (MultiOp(t.command) <==> t.proto == Pio && d.multiCount > 0)
            && (t.lba <==> d.lba || Ata.UsesNcq(d.flags))
            && (if t.proto == Ncq then t.nsect / 8 == tag && t.nsect % 8 == 0 else DevBit(t) <==> slave)
            && (t.proto != Ncq ==> (t.lba48 <==> !Lba28Ok(LbaLen(c).0, x.nsect)))
            && x.nsect == Meaning(c).count
  {
    hide BigEndian, Meaning, LbaLen, Lba28Ok, Lba48Ok, RwNcq, RwLba, RwChs, FlagsTrue, UnusedClear;
    LbaLenMeans(c);
    MeaningParts(c);
    var t := InitTf(slave).(write := IsWrite(c), fua := Meaning(c).fua);
    var n := Meaning(c).count;
    if Ata.UsesNcq(d.flags) { NcqTaskfile(t, LbaLen(c).0, n, tag); }
    else if d.lba { LbaTaskfile(t, d, LbaLen(c).0, n); }
    else { ChsTaskfile(t, d, LbaLen(c).0, n); }
  }

  /** As ata_tf_init leaves the registers. */
  predicate Blank(t: Tf) {
    t.feature == 0 && t.hobFeature == 0 && t.hobNsect == 0 && t.hobLbal == 0 && t.hobLbam == 0 && t.hobLbah == 0
  }

  lemma NcqTaskfile(t: Tf, block: nat, n: nat, tag: nat)
    requires n > 0 && tag < 32 && Blank(t)
    ensures var x := RwNcq(t, block, n, tag);
            x.Command? ==>
              && FlagsTrue(x.tf) && UnusedClear(x.tf) && x.tf.proto == Ncq && x.tf.write == t.write && x.tf.fua == t.fua && x.tf.lba
              && !MultiOp(x.tf.command) && x.tf.nsect / 8 == tag && x.tf.nsect % 8 == 0 && x.nsect == n
  {
    hide Lba48Ok, Nth;
    var dev := 64 + if t.fua then 128 else 0;
    assert dev / 64 % 2 == 1;
  }

  lemma LbaTaskfile(t: Tf, d: Dev, block: nat, n: nat)
    requires n > 0 && t.device in {0xA0, 0xB0} && t.device % 16 == 0 && t.device / 64 % 2 == 0 && Blank(t)
    ensures var x := RwLba(t, d, block, n);
            x.Command? ==>
              && FlagsTrue(x.tf) && UnusedClear(x.tf) && x.tf.proto in {Pio, Dma} && x.tf.write == t.write && x.tf.fua == t.fua && x.tf.lba
              && (x.tf.proto == Pio <==> d.flags.pio || (x.tf.lba48 && d.hostPioLba48))
              && (MultiOp(x.tf.command) <==> x.tf.proto == Pio && d.multiCount > 0)
              && (DevBit(x.tf) <==> t.device == 0xB0) && (x.tf.lba48 <==> !Lba28Ok(block, n)) && x.nsect == n
  {
    hide Lba28Ok, Lba48Ok, Nth, RwcmdProtocol, PioOp, MultiOp, DmaOp, WriteOp, WideOp, FuaOp, QueuedOp;
    var big := !Lba28Ok(block, n);
    TableByNumber(d, t.fua, big, t.write);
    DeviceBits(t.device, 0);
    DeviceBits(t.device, block / 0x100_0000 % 16);
  }

  lemma ChsTaskfile(t: Tf, d: Dev, block: nat, n: nat)
    requires n > 0 && t.device in {0xA0, 0xB0} && t.device % 16 == 0 && d.heads > 0 && d.sectors > 0 && !t.lba && !t.lba48 && Blank(t)
    ensures var x := RwChs(t, d, block, n);
            x.Command? ==>
              && FlagsTrue(x.tf) && UnusedClear(x.tf) && x.tf.proto in {Pio, Dma} && x.tf.write == t.write && x.tf.fua == t.fua && !x.tf.lba
              && (x.tf.proto == Pio <==> d.flags.pio || (x.tf.lba48 && d.hostPioLba48))
              && (MultiOp(x.tf.command) <==> x.tf.proto == Pio && d.multiCount > 0)
              && (DevBit(x.tf) <==> t.device == 0xB0) && !x.tf.lba48 && Lba28Ok(block, n) && x.nsect == n
  {
    hide Lba28Ok, Chs, RwcmdProtocol, PioOp, MultiOp, DmaOp, WriteOp, WideOp, FuaOp, QueuedOp;
    TableByNumber(d, t.fua, false, t.write);
    if ChsFits(Chs(block, d)) { DeviceBits(t.device, Chs(block, d).1); }
  }

  /** An accepted VERIFY is a non-data command, moves nothing, and its flags are true. */
  lemma VerifyTaskfile(c: Cdb, d: Dev, slave: bool)
    requires (d.lba || (d.heads > 0 && d.sectors > 0)) && VerifyXlat(c, d, slave).Command?
    ensures IsVerify(c)
    ensures var x := VerifyXlat(c, d, slave);
            && FlagsTrue(x.tf) && UnusedClear(x.tf) && x.tf.proto == Nodata && (x.tf.lba <==> d.lba) && (DevBit(x.tf) <==> slave)
            && (x.tf.lba48 <==> !Lba28Ok(LbaLen(c).0, LbaLen(c).1)) && x.nsect == 0
  {
    hide BigEndian, LbaLen, Lba28Ok, Lba48Ok, Nth, Chs;
    var dev := InitTf(slave).device;
    DeviceBits(dev, 0);
    DeviceBits(dev, LbaLen(c).0 / 0x100_0000 % 16);
    if !d.lba { if ChsFits(Chs(LbaLen(c).0, d)) { DeviceBits(dev, Chs(LbaLen(c).0, d).1); } }
  }
}
