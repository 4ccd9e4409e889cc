/**
 Padding of DMA transfers to a 4-byte boundary: ata_sg_setup, ata_sg_setup_one, ata_sg_clean.
 The device sees the trimmed list followed by the pad buffer of the command's tag.
 */
module DmaPad {
  import opened ScatterList

  const ATA_DMA_PAD_SZ: nat := 4

  type Byte = bv8

  /** Host memory, the pad buffer of the tag, the list with its current lengths, n_elem,
      orig_n_elem, pad_len, and where the padded bytes belong (pad_sgent.page/offset). */
  datatype Dma = Dma(mem: seq<Byte>, pad: seq<Byte>, sg: seq<Seg>, nElem: nat, origNElem: nat, padLen: nat, psg: nat)

  ghost predicate InMem(mem: seq<Byte>, addrs: seq<nat>) {
    forall k :: 0 <= k < |addrs| ==> addrs[k] < |mem|
  }

  /** A list of n_elem entries in memory, nothing padded yet. */
  ghost predicate Fresh(d: Dma) {
    && |d.pad| == ATA_DMA_PAD_SZ && 1 <= |d.sg| == d.nElem == d.origNElem && d.padLen == 0 && InMem(d.mem, Flat(d.sg))
  }

  // ---- moving bytes ----

  function Gather(mem: seq<Byte>, addrs: seq<nat>): (r: seq<Byte>)
    requires InMem(mem, addrs)
    ensures |r| == |addrs|
  {
    seq(|addrs|, k requires 0 <= k < |addrs| => mem[addrs[k]])
  }

  /** Bytes written one after the other. */
  function Scatter(mem: seq<Byte>, addrs: seq<nat>, data: seq<Byte>): (r: seq<Byte>)
    requires InMem(mem, addrs) && |data| == |addrs|
    ensures |r| == |mem|
  {
    if addrs == [] then mem
    else Scatter(mem, addrs[..|addrs| - 1], data[..|addrs| - 1])[addrs[|addrs| - 1] := data[|addrs| - 1]]
  }

  lemma {:induction false} ScatterConcat(mem: seq<Byte>, a: seq<nat>, b: seq<nat>, x: seq<Byte>, y: seq<Byte>)
    requires InMem(mem, a + b) && |x| == |a| && |y| == |b|
    ensures InMem(mem, a) && InMem(mem, b)
    ensures Scatter(mem, a + b, x + y) == Scatter(Scatter(mem, a, x), b, y)
  {
    assert forall k :: 0 <= k < |a| ==> (a + b)[k] == a[k];
    assert forall k :: 0 <= k < |b| ==> (a + b)[|a| + k] == b[k];
    if b == [] {
      assert a + b == a && x + y == x;
    } else {
      var b', y' := b[..|b| - 1], y[..|b| - 1];
      assert (a + b)[..|a + b| - 1] == a + b' && (x + y)[..|a + b| - 1] == x + y';
      ScatterConcat(mem, a, b', x, y');
    }
  }

  /** What was scattered to distinct addresses can be gathered; nothing else changed. */
  lemma {:induction false} GatherScatter(mem: seq<Byte>, addrs: seq<nat>, data: seq<Byte>)
    requires InMem(mem, addrs) && |data| == |addrs|
    requires forall i, j :: 0 <= i < j < |addrs| ==> addrs[i] != addrs[j]
    ensures Gather(Scatter(mem, addrs, data), addrs) == data
    ensures forall a :: 0 <= a < |mem| && a !in addrs ==> Scatter(mem, addrs, data)[a] == mem[a]
  {
    if addrs != [] {
      var n := |addrs| - 1;
      GatherScatter(mem, addrs[..n], data[..n]);
      var before := Scatter(mem, addrs[..n], data[..n]);
      forall k | 0 <= k < |addrs| ensures Scatter(mem, addrs, data)[addrs[k]] == data[k] {
        if k < n {
          assert Gather(before, addrs[..n])[k] == data[..n][k];
          assert addrs[..n][k] == addrs[k];
        }
      }
    }
  }

  // ---- setup and clean ----

  function Zeros(n: nat): seq<Byte> { seq(n, _ => 0) }

  function Last(sg: seq<Seg>): Seg
    requires |sg| > 0
  {
    sg[|sg| - 1]
  }

  /** Length of the last entry changed. */
  function SetLast(sg: seq<Seg>, n: nat): (r: seq<Seg>)
    requires |sg| > 0
    ensures |r| == |sg|
  {
    sg[|sg| - 1 := Seg(Last(sg).addr, n)]
  }

  lemma SetLastFlat(sg: seq<Seg>, n: nat)
    requires |sg| > 0
    ensures Flat(SetLast(sg, n)) == Flat(sg[..|sg| - 1]) + Range(Last(sg).addr, n)
  {
    assert SetLast(sg, n)[..|sg| - 1] == sg[..|sg| - 1];
  }

  /** The trimmed list and the padded bytes make up the original list. */
  lemma TrimFlat(sg: seq<Seg>, n: nat)
    requires |sg| > 0 && n <= Last(sg).length
    ensures Flat(sg) == Flat(SetLast(sg, n)) + Range(Last(sg).addr + n, Last(sg).length - n)
  {
    hide Flat, Range;
    SetLastFlat(sg, n);
    FlatLast(sg);
    var init, s := Flat(sg[..|sg| - 1]), Last(sg);
    RangeParts(init, s.addr, n, s.length, Flat(SetLast(sg, n)), Range(s.addr + n, s.length - n), Flat(sg));
  }

  lemma FlatLast(sg: seq<Seg>)
    requires |sg| > 0
    ensures Flat(sg) == Flat(sg[..|sg| - 1]) + Range(Last(sg).addr, Last(sg).length)
  {
  }

  lemma RangeParts(f: seq<nat>, a: nat, n: nat, len: nat, x: seq<nat>, y: seq<nat>, z: seq<nat>)
    requires n <= len && x == f + Range(a, n) && y == Range(a + n, len - n) && z == f + Range(a, len)
    ensures z == x + y
  {
    RangeSplit(a, n, len - n);
  }

  function PadOf(sg: seq<Seg>): nat
    requires |sg| > 0
  {
    Last(sg).length % ATA_DMA_PAD_SZ
  }

  /** The addresses of the bytes that go through the pad buffer. */
  function Tail(sg: seq<Seg>): seq<nat>
    requires |sg| > 0
  {
    Range(Last(sg).addr + Last(sg).length - PadOf(sg), PadOf(sg))
  }

  /** ata_sg_setup (and ata_sg_setup_one, for a list of one): mapOk is whether DMA mapping works. */
  function Setup(d: Dma, write: bool, mapOk: bool): (r: (Dma, bool))
    requires Fresh(d)
  {
    var n := PadOf(d.sg);
    if n == 0 then (if mapOk then d else d, mapOk)
    else
      TailInMem(d);
      var head := if write then Gather(d.mem, Tail(d.sg)) else [];
      var sg' := SetLast(d.sg, Last(d.sg).length - n);
      var d' := d.(pad := head + Zeros(ATA_DMA_PAD_SZ - |head|), padLen := n, psg := Last(d.sg).addr + Last(d.sg).length - n);
      var elems := if Last(sg').length == 0 then |d.sg| - 1 else |d.sg|;
      if elems == 0 then (d'.(sg := sg', nElem := 0), true)
      else if !mapOk then (d'.(sg := SetLast(sg', Last(sg').length + n)), false)
      else (d'.(sg := sg', nElem := elems), true)
  }

  lemma TailInMem(d: Dma)
    requires Fresh(d)
    ensures InMem(d.mem, Tail(d.sg))
  {
    hide Flat;
    var s, n := Last(d.sg), PadOf(d.sg);
    TrimFlat(d.sg, s.length - n);
    var f := Flat(SetLast(d.sg, s.length - n));
    forall k | 0 <= k < n ensures Tail(d.sg)[k] < |d.mem| {
      assert Flat(d.sg)[|f| + k] == Tail(d.sg)[k];
    }
  }

  /** What the device reads in a transfer to the device. */
  function DeviceReads(d: Dma): seq<Byte>
    requires d.nElem <= |d.sg| && InMem(d.mem, Flat(d.sg[..d.nElem]))
  {
    Gather(d.mem, Flat(d.sg[..d.nElem])) + if d.padLen == 0 then [] else d.pad
  }

  /** How many bytes the device transfers. */
  function DeviceLen(d: Dma): nat
    requires d.nElem <= |d.sg|
  {
    Total(d.sg[..d.nElem]) + if d.padLen == 0 then 0 else ATA_DMA_PAD_SZ
  }

  /** A transfer from the device. */
  function DeviceWrites(d: Dma, data: seq<Byte>): Dma
    requires d.nElem <= |d.sg| && InMem(d.mem, Flat(d.sg[..d.nElem])) && |data| == DeviceLen(d)
  {
    var n := Total(d.sg[..d.nElem]);
    d.(mem := Scatter(d.mem, Flat(d.sg[..d.nElem]), data[..n]), pad := if d.padLen == 0 then d.pad else data[n..])
  }

  /** ata_sg_clean. */
  function Clean(d: Dma, write: bool): Dma
    requires 1 <= d.origNElem == |d.sg| && |d.pad| == ATA_DMA_PAD_SZ && d.padLen < ATA_DMA_PAD_SZ
    requires d.psg + d.padLen <= |d.mem| || d.padLen == 0
  {
    var d' := d.(sg := SetLast(d.sg, Last(d.sg).length + d.padLen));
    if d.padLen != 0 && !write then d'.(mem := Scatter(d.mem, Range(d.psg, d.padLen), d.pad[..d.padLen])) else d'
  }

  // ---- the round trip ----

  /** The state a successful setup leaves: the device's list holds the first bytes of the original
      list, pad_len is what is missing.  The last entry is mapped unless trimming has left nothing of
      it. */
  lemma SetupShape(d: Dma, write: bool, mapOk: bool)
    requires Fresh(d) && Setup(d, write, mapOk).1
    ensures InMem(d.mem, Tail(d.sg))
    ensures var r := Setup(d, write, mapOk).0;
            && r.nElem == (if PadOf(d.sg) > 0 && Last(d.sg).length == PadOf(d.sg) then |d.sg| - 1 else |d.sg|)
            && r.padLen == PadOf(d.sg) && r.nElem <= |r.sg| == |d.sg| == r.origNElem && r.mem == d.mem && |r.pad| == ATA_DMA_PAD_SZ
            && Flat(r.sg[..r.nElem]) == Flat(SetLast(d.sg, Last(d.sg).length - PadOf(d.sg)))
            && Flat(d.sg) == Flat(r.sg[..r.nElem]) + Tail(d.sg)
            && SetLast(r.sg, Last(r.sg).length + r.padLen) == d.sg
            && (r.padLen > 0 ==> Range(r.psg, r.padLen) == Tail(d.sg)
                                 && (write ==> r.pad == Gather(d.mem, Tail(d.sg)) + Zeros(ATA_DMA_PAD_SZ - r.padLen)))
  {
    hide Flat;
    TailInMem(d);
    var n := PadOf(d.sg);
    var r := Setup(d, write, mapOk).0;
    TrimFlat(d.sg, Last(d.sg).length - n);
    assert SetLast(d.sg, Last(d.sg).length) == d.sg;
    assert r.sg[..|r.sg|] == r.sg;
    if r.nElem < |r.sg| { EmptyLast(r.sg); }
    if n == 0 { assert Tail(d.sg) == []; }
    assert r.sg == SetLast(d.sg, Last(d.sg).length - n);
  }

  lemma EmptyLast(sg: seq<Seg>)
    requires |sg| > 0 && Last(sg).length == 0
    ensures Flat(sg[..|sg| - 1]) == Flat(sg)
  {
    assert Range(Last(sg).addr, 0) == [];
  }

  lemma InMemParts(mem: seq<Byte>, a: seq<nat>, b: seq<nat>)
    requires InMem(mem, a + b)
    ensures InMem(mem, a) && InMem(mem, b)
    ensures Gather(mem, a + b) == Gather(mem, a) + Gather(mem, b)
  {
    assert forall k :: 0 <= k < |a| ==> (a + b)[k] == a[k];
    assert forall k :: 0 <= k < |b| ==> (a + b)[|a| + k] == b[k];
  }

  /** Writing: the device reads the original bytes followed by zeros, up to a multiple of four bytes
      in the last entry, for every list shape (a last entry trimmed to nothing included). */
  lemma WriteStream(d: Dma, mapOk: bool)
    requires Fresh(d) && Setup(d, true, mapOk).1
    ensures var r := Setup(d, true, mapOk).0;
            && r.nElem <= |r.sg| && InMem(r.mem, Flat(r.sg[..r.nElem]))
            && DeviceReads(r) == Gather(d.mem, Flat(d.sg)) + Zeros((ATA_DMA_PAD_SZ - PadOf(d.sg)) % ATA_DMA_PAD_SZ)
            && DeviceLen(r) == |DeviceReads(r)|
            && (DeviceLen(r) - Total(d.sg[..|d.sg| - 1])) % ATA_DMA_PAD_SZ == 0
  {
    hide Flat, Setup;
    SetupShape(d, true, mapOk);
    var r := Setup(d, true, mapOk).0;
    var n := PadOf(d.sg);
    InMemParts(d.mem, Flat(r.sg[..r.nElem]), Tail(d.sg));
    SetLastFlat(d.sg, Last(d.sg).length - n);
    if n == 0 {
      assert Zeros((ATA_DMA_PAD_SZ - n) % ATA_DMA_PAD_SZ) == [];
      assert Flat(d.sg) == Flat(r.sg[..r.nElem]);
    }
  }

  /** Reading: whatever the device transfers, after ata_sg_clean every length is back and memory is
      as if the device had written the first Total bytes of its data straight to the original list. */
  lemma ReadRoundTrip(d: Dma, mapOk: bool, data: seq<Byte>)
    requires Fresh(d) && Setup(d, false, mapOk).1
    requires var r := Setup(d, false, mapOk).0;
             r.nElem <= |r.sg| && |data| == DeviceLen(r)
    ensures var r := Setup(d, false, mapOk).0;
            && InMem(r.mem, Flat(r.sg[..r.nElem])) && |data| >= Total(d.sg)
            && (r.padLen > 0 ==> r.psg + r.padLen <= |d.mem|)
            && var c := Clean(DeviceWrites(r, data), false);
               c.sg == d.sg && c.mem == Scatter(d.mem, Flat(d.sg), data[..Total(d.sg)])
  {
    hide Flat, Setup;
    SetupShape(d, false, mapOk);
    var r := Setup(d, false, mapOk).0;
    var a, b := Flat(r.sg[..r.nElem]), Tail(d.sg);
    InMemParts(d.mem, a, b);
    if r.padLen > 0 { assert b[|b| - 1] < |d.mem|; }
    ScatterConcat(d.mem, a, b, data[..|a|], data[|a|..|a| + |b|]);
    assert data[..|a| + |b|] == data[..|a|] + data[|a|..|a| + |b|];
    if r.padLen > 0 {
      DropTake(data, |a|, |b|);
    } else {
      assert a + b == a;
      assert data[..|a| + |b|] == data[..|a|];
    }
  }

  lemma DropTake(data: seq<Byte>, n: nat, m: nat)
    requires n + m <= |data|
    ensures data[n..][..m] == data[n..n + m]
  {
  }

  /** With a list whose bytes are distinct, the data is then in place, and nothing else changed. */
  lemma ReadDelivers(d: Dma, mapOk: bool, data: seq<Byte>)
    requires Fresh(d) && Setup(d, false, mapOk).1
    requires var r := Setup(d, false, mapOk).0;
             r.nElem <= |r.sg| && |data| == DeviceLen(r)
    requires forall i, j :: 0 <= i < j < Total(d.sg) ==> Flat(d.sg)[i] != Flat(d.sg)[j]
    ensures var r := Setup(d, false, mapOk).0;
            && InMem(r.mem, Flat(r.sg[..r.nElem])) && (r.padLen > 0 ==> r.psg + r.padLen <= |d.mem|)
            && r.origNElem == |r.sg| && |data| >= Total(d.sg)
            && var c := Clean(DeviceWrites(r, data), false);
               && |c.mem| == |d.mem| && InMem(c.mem, Flat(d.sg)) && Gather(c.mem, Flat(d.sg)) == data[..Total(d.sg)]
               && forall x :: 0 <= x < |d.mem| && x !in Flat(d.sg) ==> c.mem[x] == d.mem[x]
  {
    hide Flat, Setup;
    SetupShape(d, false, mapOk);
    ReadRoundTrip(d, mapOk, data);
    GatherScatter(d.mem, Flat(d.sg), data[..Total(d.sg)]);
  }

  /** When mapping fails the list and memory are as before.  Mapping is not even tried when the only
      entry was trimmed to nothing, so then it cannot fail. */
  lemma MapFailure(d: Dma, write: bool, mapOk: bool)
    requires Fresh(d)
    ensures var (r, ok) := Setup(d, write, mapOk);
            && (ok <==> mapOk || (|d.sg| == 1 && 0 < Last(d.sg).length < ATA_DMA_PAD_SZ))
            && (!ok ==> r.sg == d.sg && r.mem == d.mem && r.nElem == d.nElem)
  {
    assert SetLast(d.sg, Last(d.sg).length) == d.sg;
  }

  /** A write leaves memory alone altogether. */
  lemma WriteRestores(d: Dma, mapOk: bool)
    requires Fresh(d) && Setup(d, true, mapOk).1
    ensures var r := Setup(d, true, mapOk).0;
            && 1 <= r.origNElem == |r.sg| && |r.pad| == ATA_DMA_PAD_SZ && r.padLen < ATA_DMA_PAD_SZ
            && (r.padLen > 0 ==> r.psg + r.padLen <= |d.mem|)
            && Clean(r, true).sg == d.sg && Clean(r, true).mem == d.mem
  {
    hide Flat, Setup;
    SetupShape(d, true, mapOk);
    var r := Setup(d, true, mapOk).0;
    if r.padLen > 0 { assert Tail(d.sg)[r.padLen - 1] < |d.mem|; }
  }

  /** The padded bytes are copied through one mapped page; that is enough, because in a 4-aligned
      segment they never straddle a page end. */
  lemma TailInOnePage(sg: seq<Seg>)
    requires |sg| > 0 && PadOf(sg) > 0
    ensures var a := Last(sg).addr + Last(sg).length - PadOf(sg);
            Last(sg).addr % ATA_DMA_PAD_SZ == 0 ==> a % PAGE_SIZE + PadOf(sg) <= PAGE_SIZE
  {
    var a := Last(sg).addr + Last(sg).length - PadOf(sg);
    if Last(sg).addr % ATA_DMA_PAD_SZ == 0 {
      var q := Last(sg).addr / 4 + Last(sg).length / 4;
      assert a == 4 * q;
      assert a % PAGE_SIZE == 4 * (q % 1024);
    }
  }

  // ---- in place ----

  class DmaCmd {
    const mem: array<Byte>
    const pad: array<Byte>
    var sg: seq<Seg>
    var nElem: nat
    var origNElem: nat
    var padLen: nat
    var psg: nat

    ghost function Now(): Dma
      reads this, mem, pad
    {
      Dma(mem[..], pad[..], sg, nElem, origNElem, padLen, psg)
    }

    /** ata_sg_init. */
    constructor (m: array<Byte>, p: array<Byte>, list: seq<Seg>)
      ensures mem == m && pad == p && Now() == Dma(m[..], p[..], list, |list|, |list|, 0, 0)
    {
      mem, pad, sg := m, p, list;
      nElem, origNElem, padLen, psg := |list|, |list|, 0, 0;
    }

    /** The pad buffer is cleared and, for a write, gets the last bytes of the data. */
    method FillPad(write: bool)
      requires pad.Length == ATA_DMA_PAD_SZ && padLen <= ATA_DMA_PAD_SZ && psg + padLen <= mem.Length && mem != pad
      modifies pad
      ensures InMem(mem[..], Range(psg, padLen))
      ensures var head := if write then Gather(mem[..], Range(psg, padLen)) else [];
              pad[..] == head + Zeros(ATA_DMA_PAD_SZ - |head|)
    {
      forall k | 0 <= k < ATA_DMA_PAD_SZ { pad[k] := 0; }
      if write {
        forall k | 0 <= k < padLen { pad[k] := mem[psg + k]; }
      }
    }

    /** ata_sg_setup. */
    method SgSetup(write: bool, mapOk: bool) returns (ok: bool)
      requires Fresh(Now()) && mem != pad
      modifies this, pad
      ensures (Now(), ok) == Setup(old(Now()), write, mapOk)
    {
      hide Flat, Gather, Zeros;
      ghost var d := Now();
      TailInMem(d);
      var last := |sg| - 1;
      padLen := sg[last].length % ATA_DMA_PAD_SZ;
      if padLen == 0 { return mapOk; }
      assert Tail(d.sg)[padLen - 1] < mem.Length;
      psg := sg[last].addr + sg[last].length - padLen;
      FillPad(write);
      sg := sg[last := Seg(sg[last].addr, sg[last].length - padLen)];
      var elems := if sg[last].length == 0 then nElem - 1 else nElem;
      if elems > 0 && !mapOk {
        sg := sg[last := Seg(sg[last].addr, sg[last].length + padLen)];
        return false;
      }
      nElem := elems;
      return true;
    }

    /** ata_sg_clean. */
    method SgClean(write: bool)
      requires 1 <= origNElem == |sg| && pad.Length == ATA_DMA_PAD_SZ && padLen < ATA_DMA_PAD_SZ
      requires psg + padLen <= mem.Length || padLen == 0
      requires mem != pad
      modifies this, mem
      ensures Now() == Clean(old(Now()), write)
    {
      ghost var d := Now();
      sg := sg[origNElem - 1 := Seg(sg[origNElem - 1].addr, sg[origNElem - 1].length + padLen)];
      if padLen != 0 && !write { CopyBack(); }
    }

    /** The memcpy out of the pad buffer. */
    method CopyBack()
      requires padLen <= pad.Length && psg + padLen <= mem.Length && mem != pad
      modifies mem
      ensures InMem(old(mem[..]), Range(psg, padLen))
      ensures mem[..] == Scatter(old(mem[..]), Range(psg, padLen), pad[..padLen])
    {
      var k := 0;
      while k < padLen
        invariant k <= padLen
        invariant mem[..] == Scatter(old(mem[..]), Range(psg, k), pad[..k])
      {
        assert Range(psg, k + 1)[..k] == Range(psg, k) && pad[..k + 1][..k] == pad[..k];
        mem[psg + k] := pad[k];
        k := k + 1;
      }
    }
  }
}
