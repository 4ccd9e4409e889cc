/** Bus timings in clock counts: ata_timing_find_mode, ata_timing_quantize, ata_timing_merge,
    ata_timing_compute. */
module BusTiming {
  import opened Ata

  const U16: nat := 0x1_0000

  /** Nanoseconds in the mode table, clock counts in results; 16-bit fields in both cases. */
  datatype Timing = Timing(setup: nat, act8b: nat, rec8b: nat, cyc8b: nat, active: nat, recover: nat, cycle: nat, udma: nat)

  datatype Mode = Mode(mode: nat, t: Timing)

  const XFER_MW_DMA_2: nat := 0x22
  const XFER_MW_DMA_0: nat := 0x20
  const XFER_SW_DMA_0: nat := 0x10
  const XFER_PIO_6: nat := 0x0E
  const XFER_PIO_4: nat := 0x0C
  const XFER_PIO_2: nat := 0x0A
  const XFER_PIO_0: nat := 0x08
  const SENTINEL: nat := 0xFF

  const ATA_TIMING: seq<Mode> := [
    Mode(0x46, Timing(0, 0, 0, 0, 0, 0, 0, 15)), Mode(0x45, Timing(0, 0, 0, 0, 0, 0, 0, 20)),
    Mode(0x44, Timing(0, 0, 0, 0, 0, 0, 0, 30)), Mode(0x43, Timing(0, 0, 0, 0, 0, 0, 0, 45)),
    Mode(0x24, Timing(25, 0, 0, 0, 55, 20, 80, 0)), Mode(0x23, Timing(25, 0, 0, 0, 65, 25, 100, 0)),
    Mode(0x42, Timing(0, 0, 0, 0, 0, 0, 0, 60)), Mode(0x41, Timing(0, 0, 0, 0, 0, 0, 0, 80)),
    Mode(0x40, Timing(0, 0, 0, 0, 0, 0, 0, 120)),
    Mode(0x22, Timing(25, 0, 0, 0, 70, 25, 120, 0)), Mode(0x21, Timing(45, 0, 0, 0, 80, 50, 150, 0)),
    Mode(0x20, Timing(60, 0, 0, 0, 215, 215, 480, 0)),
    Mode(0x12, Timing(60, 0, 0, 0, 120, 120, 240, 0)), Mode(0x11, Timing(90, 0, 0, 0, 240, 240, 480, 0)),
    Mode(0x10, Timing(120, 0, 0, 0, 480, 480, 960, 0)),
    Mode(0x0E, Timing(10, 55, 20, 80, 55, 20, 80, 0)), Mode(0x0D, Timing(15, 65, 25, 100, 65, 25, 100, 0)),
    Mode(0x0C, Timing(25, 70, 25, 120, 70, 25, 120, 0)), Mode(0x0B, Timing(30, 80, 70, 180, 80, 70, 180, 0)),
    Mode(0x0A, Timing(30, 290, 40, 330, 100, 90, 240, 0)), Mode(0x09, Timing(50, 290, 93, 383, 125, 100, 383, 0)),
    Mode(0x08, Timing(70, 290, 240, 600, 165, 150, 600, 0)),
    Mode(SENTINEL, Timing(0, 0, 0, 0, 0, 0, 0, 0))]

  /** IDENTIFY words 53 (bit 1), 65, 67, 68, and the device's PIO mode. */
  datatype Drive = Drive(eide: bool, dmaMin: nat, pio: nat, pioIordy: nat, pioMode: nat)

  predicate PlainPio(mode: nat) { XFER_PIO_0 <= mode <= XFER_PIO_4 }

  // ---- ata_timing_find_mode ----

  /** The entry of a mode, from table index i on; the sentinel is an entry like any other here. */
  function FindFrom(speed: nat, i: nat): Option<Timing>
    requires i < |ATA_TIMING|
    decreases |ATA_TIMING| - i
  {
    if ATA_TIMING[i].mode == speed then Some(ATA_TIMING[i].t)
    else if ATA_TIMING[i].mode == SENTINEL then None
    else
      SentinelLast(i);
      FindFrom(speed, i + 1)
  }

  lemma SentinelLast(i: nat)
    requires i < |ATA_TIMING|
    ensures ATA_TIMING[i].mode == SENTINEL <==> i == |ATA_TIMING| - 1
  {
  }

  function FindMode(speed: nat): Option<Timing> { FindFrom(speed, 0) }

  /** The search is right for every mode but one: the value 0xFF, which no mode has, is found. */
  lemma {:induction false} FindIsLookup(speed: nat, i: nat)
    requires i < |ATA_TIMING|
    ensures FindFrom(speed, i).Some? <==> exists k :: i <= k < |ATA_TIMING| && ATA_TIMING[k].mode == speed
    ensures FindFrom(speed, i).Some? ==>
              exists k :: i <= k < |ATA_TIMING| && ATA_TIMING[k].mode == speed && FindFrom(speed, i).value == ATA_TIMING[k].t
    decreases |ATA_TIMING| - i
  {
    SentinelLast(i);
    if ATA_TIMING[i].mode != speed && ATA_TIMING[i].mode != SENTINEL { FindIsLookup(speed, i + 1); }
  }

  /** ata_timing_find_mode finds exactly the modes of the table, each with its own timing. */
  lemma ModeFound(speed: nat)
    ensures FindMode(speed).Some? <==> exists k :: 0 <= k < |ATA_TIMING| && ATA_TIMING[k].mode == speed
    ensures forall k :: 0 <= k < |ATA_TIMING| && ATA_TIMING[k].mode == speed ==> FindMode(speed) == Some(ATA_TIMING[k].t)
  {
    hide FindFrom;
    FindIsLookup(speed, 0);
    ModesDistinct();
  }

  lemma ModesDistinct()
    ensures forall i, j :: 0 <= i < j < |ATA_TIMING| ==> ATA_TIMING[i].mode != ATA_TIMING[j].mode
  {
  }

  /** The shortest cycles of the ATA standards by mode: PIO 0 to 4 (register and data transfers),
      multiword DMA 0 to 2, and the time per word of Ultra DMA 0 to 6. */
  lemma StandardCycles()
    ensures CyclesAre(0x08, 600, 600) && CyclesAre(0x09, 383, 383) && CyclesAre(0x0A, 330, 240)
    ensures CyclesAre(0x0B, 180, 180) && CyclesAre(0x0C, 120, 120)
    ensures CyclesAre(0x20, 0, 480) && CyclesAre(0x21, 0, 150) && CyclesAre(0x22, 0, 120)
    ensures UdmaIs(0x40, 120) && UdmaIs(0x41, 80) && UdmaIs(0x42, 60) && UdmaIs(0x43, 45)
    ensures UdmaIs(0x44, 30) && UdmaIs(0x45, 20) && UdmaIs(0x46, 15)
  {
    hide FindFrom, FindMode;
    forall k | 0 <= k < |ATA_TIMING| ensures FindMode(ATA_TIMING[k].mode) == Some(ATA_TIMING[k].t) {
      ModeFound(ATA_TIMING[k].mode);
    }
    assert ATA_TIMING[21].mode == 0x08 && ATA_TIMING[20].mode == 0x09 && ATA_TIMING[19].mode == 0x0A;
    assert ATA_TIMING[18].mode == 0x0B && ATA_TIMING[17].mode == 0x0C;
    assert ATA_TIMING[11].mode == 0x20 && ATA_TIMING[10].mode == 0x21 && ATA_TIMING[9].mode == 0x22;
    assert ATA_TIMING[8].mode == 0x40 && ATA_TIMING[7].mode == 0x41 && ATA_TIMING[6].mode == 0x42 && ATA_TIMING[3].mode == 0x43;
    assert ATA_TIMING[2].mode == 0x44 && ATA_TIMING[1].mode == 0x45 && ATA_TIMING[0].mode == 0x46;
  }

  predicate CyclesAre(mode: nat, cyc8b: nat, cycle: nat) {
    FindMode(mode).Some? && FindMode(mode).value.cyc8b == cyc8b && FindMode(mode).value.cycle == cycle
  }

  predicate UdmaIs(mode: nat, udma: nat) { FindMode(mode).Some? && FindMode(mode).value.udma == udma }

  // ---- requirements ----

  /** The drive may ask for longer PIO and multiword DMA cycles. */
  function Required(s: Timing, d: Drive, speed: nat): Timing {
    if !d.eide then s
    else if XFER_PIO_0 <= speed <= XFER_SW_DMA_0 then
      var c := if speed <= XFER_PIO_2 then d.pio else d.pioIordy;
      s.(cycle := Max(c, s.cycle), cyc8b := Max(c, s.cyc8b))
    else if XFER_MW_DMA_0 <= speed <= XFER_MW_DMA_2 then s.(cycle := Max(d.dmaMin, s.cycle))
    else s
  }

  /** EZ(v, unit). */
  function Ez(v: nat, unit: nat): (r: nat)
    requires v == 0 || unit > 0
    ensures v == 0 ==> r == 0
    ensures v > 0 ==> (r - 1) * unit < v <= r * unit
  {
    if v == 0 then 0 else (EzBounds(v, unit); (v - 1) / unit + 1)
  }

  lemma EzBounds(v: nat, unit: nat)
    requires v > 0 && unit > 0
    ensures 0 <= (v - 1) / unit && (v - 1) / unit * unit < v <= ((v - 1) / unit + 1) * unit
  {
    var q := (v - 1) / unit;
    assert v - 1 == q * unit + (v - 1) % unit;
    if q < 0 { NegProduct(q, unit); }
  }

  lemma NegProduct(q: int, unit: nat)
    requires q < 0 && unit > 0
    ensures q * unit <= -(unit as int)
  {
  }

  /** The clock counts a mode really needs: the smallest that are not too fast. */
  function Counts(t: Timing, T: nat, ut: nat): Timing
    requires T > 0 && (t.udma > 0 ==> ut > 0)
  {
    Timing(Ez(t.setup * 1000, T), Ez(t.act8b * 1000, T), Ez(t.rec8b * 1000, T), Ez(t.cyc8b * 1000, T),
           Ez(t.active * 1000, T), Ez(t.recover * 1000, T), Ez(t.cycle * 1000, T), Ez(t.udma * 1000, ut))
  }

  function Trunc(t: Timing): Timing {
    Timing(t.setup % U16, t.act8b % U16, t.rec8b % U16, t.cyc8b % U16, t.active % U16, t.recover % U16, t.cycle % U16, t.udma % U16)
  }

  predicate Fits(t: Timing) {
    t.setup < U16 && t.act8b < U16 && t.rec8b < U16 && t.cyc8b < U16 && t.active < U16 && t.recover < U16 && t.cycle < U16 && t.udma < U16
  }

  predicate AtLeast(a: Timing, b: Timing) {
    && a.setup >= b.setup && a.act8b >= b.act8b && a.rec8b >= b.rec8b && a.cyc8b >= b.cyc8b
    && a.active >= b.active && a.recover >= b.recover && a.cycle >= b.cycle && a.udma >= b.udma
  }

  /** ata_timing_quantize: counts stored in 16-bit fields. */
  function Quantize(t: Timing, T: nat, ut: nat): Timing
    requires T > 0 && (t.udma > 0 ==> ut > 0)
  {
    Trunc(Counts(t, T, ut))
  }

  /** ata_timing_merge with ATA_TIMING_ALL. */
  function Merge(a: Timing, b: Timing): Timing {
    Timing(Max(a.setup, b.setup), Max(a.act8b, b.act8b), Max(a.rec8b, b.rec8b), Max(a.cyc8b, b.cyc8b),
           Max(a.active, b.active), Max(a.recover, b.recover), Max(a.cycle, b.cycle), Max(a.udma, b.udma))
  }

  /** Half of the missing time goes to the active phase, the rest to recovery. */
  function Lengthen(act: nat, rec: nat, cyc: nat): (nat, nat) {
    if act + rec < cyc then
      var act' := act + (cyc - (act + rec)) / 2;
      (act', cyc - act')
    else (act, rec)
  }

  function Stretch(t: Timing): Timing {
    var (a8, r8) := Lengthen(t.act8b, t.rec8b, t.cyc8b);
    var (a, r) := Lengthen(t.active, t.recover, t.cycle);
    t.(act8b := a8, rec8b := r8, active := a, recover := r)
  }

  /** What the divisions and the recursion need: a clock period, a UDMA clock for UDMA modes, and for
      modes beyond PIO 4 a PIO mode that is unknown or at most PIO 4 (see RecursionEndsIff). */
  predicate Callable(d: Drive, speed: nat, T: nat, ut: nat) {
    && T > 0 && (FindMode(speed).Some? && FindMode(speed).value.udma > 0 ==> ut > 0)
    && (speed > XFER_PIO_4 ==> FindMode(d.pioMode).None? || d.pioMode <= XFER_PIO_4)
  }

  /** IDENTIFY data are 16-bit words. */
  predicate Words(d: Drive) { d.dmaMin < U16 && d.pio < U16 && d.pioIordy < U16 }

  /** The drive's cycle wishes as the code has them in a local record p, zero where there is none. */
  function Wishes(d: Drive, speed: nat): Timing {
    var none := Timing(0, 0, 0, 0, 0, 0, 0, 0);
    if XFER_PIO_0 <= speed <= XFER_SW_DMA_0 then
      var c := if speed <= XFER_PIO_2 then d.pio else d.pioIordy;
      none.(cycle := c, cyc8b := c)
    else if XFER_MW_DMA_0 <= speed <= XFER_MW_DMA_2 then none.(cycle := d.dmaMin)
    else none
  }

  /** What is in p when the nested call for an unknown PIO mode leaves it alone: the wishes, or, if
      the drive has none, whatever was on the stack. */
  function Unfilled(d: Drive, speed: nat, junk: Timing): Timing { if d.eide then Wishes(d, speed) else junk }

  /** PIO modes never use the UDMA clock. */
  lemma PioHasNoUdma(mode: nat)
    requires mode <= XFER_PIO_6
    ensures FindMode(mode).Some? ==> FindMode(mode).value.udma == 0
    ensures mode <= XFER_PIO_4 ==> (PlainPio(mode) <==> FindMode(mode).Some?)
  {
    FindIsLookup(mode, 0);
    if PlainPio(mode) { assert ATA_TIMING[29 - mode].mode == mode; }
  }

  /** Before the last step: quantized, and for other than plain PIO modes merged with the PIO timing. */
  function Merged(s: Timing, d: Drive, speed: nat, T: nat, ut: nat, junk: Timing): Timing
    requires Callable(d, speed, T, ut) && FindMode(speed) == Some(s)
    decreases speed > XFER_PIO_4, 0
  {
    var q := Quantize(Required(s, d, speed), T, ut);
    if speed > XFER_PIO_4 then
      if FindMode(d.pioMode).None? then Merge(Unfilled(d, speed, junk), q)
      else
        PioHasNoUdma(d.pioMode);
        Merge(Compute(d, d.pioMode, T, ut, junk).value, q)
    else q
  }

  /** ata_timing_compute; None is -EINVAL.  junk: the uninitialised contents of its local record. */
  function Compute(d: Drive, speed: nat, T: nat, ut: nat, junk: Timing): (r: Option<Timing>)
    requires Callable(d, speed, T, ut)
    ensures r.Some? <==> FindMode(speed).Some?
    decreases speed > XFER_PIO_4, 1
  {
    match FindMode(speed)
    case None => None
    case Some(s) => Some(Stretch(Merged(s, d, speed, T, ut, junk)))
  }

  // ---- never too fast ----

  lemma LengthenIs(act: nat, rec: nat, cyc: nat)
    ensures var (a, r) := Lengthen(act, rec, cyc);
            a >= act && r >= rec && a + r == Max(act + rec, cyc) && 0 <= (r - rec) - (a - act) <= 1
  {
  }

  lemma StretchIs(t: Timing)
    ensures var r := Stretch(t);
            && AtLeast(r, t) && r.cyc8b == t.cyc8b && r.cycle == t.cycle
            && r.act8b + r.rec8b == Max(t.act8b + t.rec8b, t.cyc8b) && r.active + r.recover == Max(t.active + t.recover, t.cycle)
            && 0 <= (r.rec8b - t.rec8b) - (r.act8b - t.act8b) <= 1 && 0 <= (r.recover - t.recover) - (r.active - t.active) <= 1
            && (Fits(t) && t.act8b + t.rec8b < t.cyc8b ==> r.act8b < U16 && r.rec8b < U16)
            && (Fits(t) ==> Fits(r))
  {
    LengthenIs(t.act8b, t.rec8b, t.cyc8b);
    LengthenIs(t.active, t.recover, t.cycle);
  }

  lemma TruncIs(t: Timing)
    ensures Fits(Trunc(t)) && (Fits(t) ==> Trunc(t) == t)
  {
  }

  /** Never too fast, exactly: every field of the result is at least the true clock count of the mode
      (with the drive's own wishes) if and only if all those counts fit 16 bits.  In any case the two
      phases fill the cycle, exactly so where they had to be lengthened, and DMA modes are nowhere
      faster than the drive's PIO mode, if that is a known one. */
  lemma NeverTooFast(d: Drive, speed: nat, T: nat, ut: nat, junk: Timing)
    requires Callable(d, speed, T, ut) && FindMode(speed).Some? && Fits(junk) && Words(d)
    ensures var s := FindMode(speed).value;
            var r := Compute(d, speed, T, ut, junk).value;
            var need := Counts(Required(s, d, speed), T, ut);
            var before := Merged(s, d, speed, T, ut, junk);
            && (AtLeast(r, need) <==> Fits(need)) && Fits(r)
            && r.act8b + r.rec8b == Max(before.act8b + before.rec8b, r.cyc8b)
            && r.active + r.recover == Max(before.active + before.recover, r.cycle)
    ensures speed > XFER_PIO_4 && PlainPio(d.pioMode) ==>
              Callable(d, d.pioMode, T, ut) && FindMode(d.pioMode).Some?
              && AtLeast(Compute(d, speed, T, ut, junk).value, Compute(d, d.pioMode, T, ut, junk).value)
  {
    hide FindFrom, Ez, Required, Stretch, Trunc, Merged, AtLeast, Fits;
    var s := FindMode(speed).value;
    RequiredUdma(s, d, speed);
    var need := Counts(Required(s, d, speed), T, ut);
    MergedIs(d, speed, T, ut, junk);
    StretchIs(Merged(s, d, speed, T, ut, junk));
    NeedIff(need, Merged(s, d, speed, T, ut, junk), Compute(d, speed, T, ut, junk).value);
    if speed > XFER_PIO_4 && PlainPio(d.pioMode) {
      PioHasNoUdma(d.pioMode);
      AtLeastTrans(Compute(d, speed, T, ut, junk).value, Merged(s, d, speed, T, ut, junk), Compute(d, d.pioMode, T, ut, junk).value);
    }
  }

  lemma AtLeastTrans(a: Timing, b: Timing, c: Timing)
    requires AtLeast(a, b) && AtLeast(b, c)
    ensures AtLeast(a, c)
  {
  }

  lemma NeedIff(need: Timing, before: Timing, r: Timing)
    requires AtLeast(before, Trunc(need)) && AtLeast(r, before) && Fits(r)
    ensures AtLeast(r, need) <==> Fits(need)
  {
    TruncIs(need);
  }

  /** The result for a plain PIO mode fits its fields. */
  lemma PioFits(d: Drive, mode: nat, T: nat, ut: nat, junk: Timing)
    requires PlainPio(mode) && T > 0
    ensures Callable(d, mode, T, ut) && FindMode(mode).Some? && Fits(Compute(d, mode, T, ut, junk).value)
  {
    hide FindFrom, Ez, Required, Stretch, Trunc, Fits;
    PioHasNoUdma(mode);
    var s := FindMode(mode).value;
    RequiredUdma(s, d, mode);
    TruncIs(Counts(Required(s, d, mode), T, ut));
    StretchIs(Merged(s, d, mode, T, ut, junk));
  }

  /** Before lengthening: nothing below the stored counts, nor below the PIO timing. */
  lemma MergedIs(d: Drive, speed: nat, T: nat, ut: nat, junk: Timing)
    requires Callable(d, speed, T, ut) && FindMode(speed).Some? && Fits(junk) && Words(d)
    ensures var s := FindMode(speed).value;
            var before := Merged(s, d, speed, T, ut, junk);
            && Required(s, d, speed).udma == s.udma && Fits(before)
            && AtLeast(before, Trunc(Counts(Required(s, d, speed), T, ut)))
            && (speed > XFER_PIO_4 && PlainPio(d.pioMode) ==>
                  Callable(d, d.pioMode, T, ut) && FindMode(d.pioMode).Some?
                  && AtLeast(before, Compute(d, d.pioMode, T, ut, junk).value))
  {
    hide FindFrom, Ez, Required, Stretch, Trunc, Counts;
    var s := FindMode(speed).value;
    RequiredUdma(s, d, speed);
    TruncIs(Counts(Required(s, d, speed), T, ut));
    if speed > XFER_PIO_4 && d.pioMode <= XFER_PIO_4 {
      PioHasNoUdma(d.pioMode);
      if PlainPio(d.pioMode) { PioFits(d, d.pioMode, T, ut, junk); }
    }
  }

  /** A drive in PIO 0 on a bus clock of 9 picoseconds: the cycle takes 66667 clocks, which do not fit
      the 16-bit field. */
  lemma OverflowExample(junk: Timing)
    ensures var d := Drive(false, 0, 0, 0, XFER_PIO_0);
            && Callable(d, XFER_PIO_0, 9, 0) && FindMode(XFER_PIO_0).Some?
            && var s := FindMode(XFER_PIO_0).value;
               s.cycle == 600 && Counts(Required(s, d, XFER_PIO_0), 9, 0).cycle == 66667
               && !AtLeast(Compute(d, XFER_PIO_0, 9, 0, junk).value, Counts(Required(s, d, XFER_PIO_0), 9, 0))
  {
    var d := Drive(false, 0, 0, 0, XFER_PIO_0);
    FindIsLookup(XFER_PIO_0, 0);
    PioHasNoUdma(XFER_PIO_0);
    assert ATA_TIMING[21].mode == XFER_PIO_0;
    var s := FindMode(XFER_PIO_0).value;
    assert s == ATA_TIMING[21].t;
    StretchIs(Merged(s, d, XFER_PIO_0, 9, 0, junk));
    NeverTooFast(d, XFER_PIO_0, 9, 0, Timing(0, 0, 0, 0, 0, 0, 0, 0));
  }

  lemma RequiredUdma(s: Timing, d: Drive, speed: nat)
    ensures Required(s, d, speed).udma == s.udma
  {
  }

  /** The shortest cycle the drive asks for, by mode number: word 67 for PIO 0 to 2, word 68 for PIO 3
      to 6 and single word DMA 0, word 65 for multiword DMA 0 to 2. */
  function CycleWish(d: Drive, mode: nat): nat {
    if !d.eide then 0
    else if mode in {0x08, 0x09, 0x0A} then d.pio
    else if mode in {0x0B, 0x0C, 0x0D, 0x0E, 0x0F, 0x10} then d.pioIordy
    else if mode in {0x20, 0x21, 0x22} then d.dmaMin
    else 0
  }

  /** The same for 8-bit transfers, which only PIO has. */
  function Cycle8Wish(d: Drive, mode: nat): nat { if mode in {0x20, 0x21, 0x22} then 0 else CycleWish(d, mode) }

  /** c clocks of T picoseconds last at least ns nanoseconds. */
  predicate Lasts(c: nat, T: nat, ns: nat) { c * T >= ns * 1000 }

  /** In time: if the counts fit, every phase of the result lasts as long as the mode wants it to, and
      the cycles as long as the drive wants them to. */
  lemma LongEnough(d: Drive, speed: nat, T: nat, ut: nat, junk: Timing)
    requires Callable(d, speed, T, ut) && FindMode(speed).Some? && Fits(junk) && Words(d)
    requires Fits(Counts(Required(FindMode(speed).value, d, speed), T, ut))
    ensures var s := FindMode(speed).value;
            var r := Compute(d, speed, T, ut, junk).value;
            && Lasts(r.setup, T, s.setup) && Lasts(r.act8b, T, s.act8b) && Lasts(r.rec8b, T, s.rec8b)
            && Lasts(r.active, T, s.active) && Lasts(r.recover, T, s.recover) && Lasts(r.udma, ut, s.udma)
            && Lasts(r.cycle, T, Max(s.cycle, CycleWish(d, speed))) && Lasts(r.active + r.recover, T, Max(s.cycle, CycleWish(d, speed)))
            && Lasts(r.cyc8b, T, Max(s.cyc8b, Cycle8Wish(d, speed))) && Lasts(r.act8b + r.rec8b, T, Max(s.cyc8b, Cycle8Wish(d, speed)))
  {
    hide FindFrom, Required, Compute, Merged, Fits, Lasts, CycleWish, Cycle8Wish;
    var s := FindMode(speed).value;
    var q := Required(s, d, speed);
    var r := Compute(d, speed, T, ut, junk).value;
    RequiredMeans(s, d, speed);
    NeverTooFast(d, speed, T, ut, junk);
    EzLasts(q.setup, T, r.setup);
    EzLasts(q.act8b, T, r.act8b);
    EzLasts(q.rec8b, T, r.rec8b);
    EzLasts(q.active, T, r.active);
    EzLasts(q.recover, T, r.recover);
    EzLasts(q.cycle, T, r.cycle);
    EzLasts(q.cyc8b, T, r.cyc8b);
    EzLasts(q.udma, ut, r.udma);
    EzLasts(q.cycle, T, r.active + r.recover);
    EzLasts(q.cyc8b, T, r.act8b + r.rec8b);
  }

  lemma EzLasts(ns: nat, T: nat, c: nat)
    requires ns > 0 ==> T > 0
    requires c >= Ez(ns * 1000, T)
    ensures Lasts(c, T, ns)
  {
    if ns > 0 { ProductGrows(Ez(ns * 1000, T), c, T); }
  }

  lemma ProductGrows(a: nat, b: nat, k: nat)
    requires a <= b
    ensures a * k <= b * k
  {
  }

  /** What is required, word by word. */
  lemma RequiredMeans(s: Timing, d: Drive, speed: nat)
    ensures Required(s, d, speed) == s.(cycle := Max(s.cycle, CycleWish(d, speed)), cyc8b := Max(s.cyc8b, Cycle8Wish(d, speed)))
  {
  }

  /** What an unknown PIO mode leaves in the record that is merged in: the drive's wishes, still in
      nanoseconds, where the clock counts of the PIO mode should be; or, if the drive has none, what was
      on the stack. */
  lemma UnfilledMeans(d: Drive, speed: nat, junk: Timing)
    ensures Unfilled(d, speed, junk) ==
              if d.eide then Timing(0, 0, 0, Cycle8Wish(d, speed), 0, 0, CycleWish(d, speed), 0) else junk
  {
  }

  // ---- what the preconditions keep out ----

  /** The value 0xFF is taken for a mode, with no timing of its own. */
  lemma SentinelIsFound()
    ensures FindMode(SENTINEL) == Some(Timing(0, 0, 0, 0, 0, 0, 0, 0))
  {
    FindIsLookup(SENTINEL, 0);
    assert ATA_TIMING[22].mode == SENTINEL;
  }

  /** Nested calls of ata_timing_compute for a mode; None if there are more than fuel of them. */
  function Depth(d: Drive, speed: nat, fuel: nat): Option<nat>
    decreases fuel
  {
    if fuel == 0 then None
    else if FindMode(speed).None? || speed <= XFER_PIO_4 then Some(1)
    else
      match Depth(d, d.pioMode, fuel - 1)
      case None => None
      case Some(n) => Some(n + 1)
  }

  /** The recursion ends if and only if the device's PIO mode is not beyond PIO 4 (or unknown), or the
      mode itself needs no recursion. */
  lemma {:induction false} RecursionEndsIff(d: Drive, speed: nat, fuel: nat)
    requires fuel >= 2
    ensures Depth(d, speed, fuel).Some? <==>
              FindMode(speed).None? || speed <= XFER_PIO_4 || FindMode(d.pioMode).None? || d.pioMode <= XFER_PIO_4
    decreases fuel
  {
    hide FindFrom;
    if fuel > 2 && d.pioMode > XFER_PIO_4 && FindMode(d.pioMode).Some? {
      RecursionEndsIff(d, d.pioMode, fuel - 1);
    }
    assert Depth(d, d.pioMode, 1) == if FindMode(d.pioMode).None? || d.pioMode <= XFER_PIO_4 then Some(1) else None;
  }

  // ---- in place ----

  method FindModeInTable(speed: nat) returns (r: Option<Timing>)
    ensures r == FindMode(speed)
  {
    var i := 0;
    while ATA_TIMING[i].mode != speed
      invariant i < |ATA_TIMING| && FindMode(speed) == FindFrom(speed, i)
      decreases |ATA_TIMING| - i
    {
      if ATA_TIMING[i].mode == SENTINEL { return None; }
      SentinelLast(i);
      i := i + 1;
    }
    return Some(ATA_TIMING[i].t);
  }

  /** The last step of ata_timing_compute. */
  method LengthenPhases(t0: Timing) returns (t: Timing)
    ensures t == Stretch(t0)
  {
    t := t0;
    if t.act8b + t.rec8b < t.cyc8b {
      t := t.(act8b := t.act8b + (t.cyc8b - (t.act8b + t.rec8b)) / 2);
      t := t.(rec8b := t.cyc8b - t.act8b);
    }
    if t.active + t.recover < t.cycle {
      t := t.(active := t.active + (t.cycle - (t.active + t.recover)) / 2);
      t := t.(recover := t.cycle - t.active);
    }
  }

  /** The drive's own cycle times, merged in. */
  method DriveWishes(s: Timing, d: Drive, speed: nat) returns (t: Timing)
    ensures t == Required(s, d, speed)
  {
    t := s;
    if d.eide {
      var cycle, cyc8b := 0, 0;
      if XFER_PIO_0 <= speed && speed <= XFER_SW_DMA_0 {
        if speed <= XFER_PIO_2 { cycle, cyc8b := d.pio, d.pio; } else { cycle, cyc8b := d.pioIordy, d.pioIordy; }
      } else if XFER_MW_DMA_0 <= speed && speed <= XFER_MW_DMA_2 {
        cycle := d.dmaMin;
      }
      t := t.(cycle := Max(cycle, t.cycle), cyc8b := Max(cyc8b, t.cyc8b));
    }
  }

  /** ata_timing_compute, step by step on one record. */
  method TimingCompute(d: Drive, speed: nat, T: nat, ut: nat, junk: Timing) returns (r: Option<Timing>)
    requires Callable(d, speed, T, ut)
    ensures r == Compute(d, speed, T, ut, junk)
    decreases speed > XFER_PIO_4
  {
    hide FindFrom, Ez, Quantize, Merge, Required, Stretch, Wishes;
    var s := FindModeInTable(speed);
    if s.None? { return None; }
    RequiredUdma(s.value, d, speed);
    var t := DriveWishes(s.value, d, speed);
    t := Quantize(t, T, ut);
    if speed > XFER_PIO_4 {
      // The nested call's -EINVAL is ignored; p keeps what it held.
      var p := if d.eide then Wishes(d, speed) else junk;
      var known := FindModeInTable(d.pioMode);
      if known.Some? {
        PioHasNoUdma(d.pioMode);
        var nested := TimingCompute(d, d.pioMode, T, ut, junk);
        p := nested.value;
      }
      t := Merge(p, t);
    }
    t := LengthenPhases(t);
    return Some(t);
  }
}
