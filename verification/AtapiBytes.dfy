/** __atapi_pio_bytes: moving a device-chosen number of bytes through the scatter list. */
module AtapiBytes {
  import opened Ata
  import opened ScatterList

  /** Where the transfer stands: qc->cursg, cursg_ofs and curbytes, and every buffer handed to
      data_xfer so far. */
  datatype Cursor = Cursor(cursg: nat, ofs: nat, curbytes: nat, xfers: seq<Seg>)

  const START := Cursor(0, 0, 0, [])

  /** One chunk: no further than the segment, the request and the page. */
  function ChunkLen(s: Seg, ofs: nat, bytes: nat): nat
    requires ofs <= s.length
  {
    Min(Min(s.length - ofs, bytes), PAGE_SIZE - (s.addr + ofs) % PAGE_SIZE)
  }

  predicate InList(sg: seq<Seg>, c: Cursor) {
    c.cursg < |sg| ==> c.ofs <= sg[c.cursg].length
  }

  /** Cursor after one chunk. */
  function Chunked(sg: seq<Seg>, c: Cursor, bytes: nat): (r: Cursor)
    requires c.cursg < |sg| && InList(sg, c)
    ensures InList(sg, r)
  {
    var s := sg[c.cursg];
    var n := ChunkLen(s, c.ofs, bytes);
    var x := c.xfers + [Seg(s.addr + c.ofs, n)];
    if c.ofs + n == s.length then Cursor(c.cursg + 1, 0, c.curbytes + n, x)
    else Cursor(c.cursg, c.ofs + n, c.curbytes + n, x)
  }

  /** Cursor after the call, and the trailing byte count if the list end was met. */
  function PioBytes(sg: seq<Seg>, c: Cursor, bytes: nat): (r: (Cursor, Option<nat>))
    requires InList(sg, c)
    ensures InList(sg, r.0)
    decreases |sg| - c.cursg, bytes
  {
    if c.cursg >= |sg| then (c, Some(bytes))
    else
      var rest := bytes - ChunkLen(sg[c.cursg], c.ofs, bytes);
      if rest == 0 then (Chunked(sg, c, bytes), None)
      else PioBytes(sg, Chunked(sg, c, bytes), rest)
  }

  /** The loop itself; the label next_sg is the loop head. */
  method XferBytes(sg: seq<Seg>, start: Cursor, count: nat) returns (c: Cursor, trailing: Option<nat>)
    requires InList(sg, start)
    ensures (c, trailing) == PioBytes(sg, start, count)
  {
    c := start;
    var bytes := count;
    while c.cursg < |sg|
      invariant InList(sg, c) && PioBytes(sg, start, count) == PioBytes(sg, c, bytes)
      decreases |sg| - c.cursg, bytes
    {
      ghost var c0, bytes0 := c, bytes;
      var s := sg[c.cursg];
      var n := Min(s.length - c.ofs, bytes);
      n := Min(n, PAGE_SIZE - (s.addr + c.ofs) % PAGE_SIZE);
      c := c.(xfers := c.xfers + [Seg(s.addr + c.ofs, n)], curbytes := c.curbytes + n, ofs := c.ofs + n);
      bytes := bytes - n;
      if c.ofs == s.length { c := c.(cursg := c.cursg + 1, ofs := 0); }
      assert c == Chunked(sg, c0, bytes0) && bytes == bytes0 - ChunkLen(s, c0.ofs, bytes0);
      if bytes == 0 { return c, None; }
    }
    return c, Some(bytes);
  }

  // ---- the cursor never loses its place ----

  /** A chunk lies in one page. */
  predicate InPage(x: Seg) { x.addr % PAGE_SIZE + x.length <= PAGE_SIZE }

  /** The bytes before cursg plus cursg_ofs are curbytes, and the buffers used so far are exactly
      the first curbytes bytes of the list, page by page. */
  ghost predicate Sound(sg: seq<Seg>, c: Cursor) {
    && c.cursg <= |sg| && (if c.cursg < |sg| then c.ofs < sg[c.cursg].length || c.ofs == 0 else c.ofs == 0)
    && c.curbytes == Total(sg[..c.cursg]) + c.ofs <= Total(sg)
    && Flat(c.xfers) == Flat(sg)[..c.curbytes]
    && forall x :: x in c.xfers ==> InPage(x)
  }

  lemma StartSound(sg: seq<Seg>)
    ensures Sound(sg, START)
  {
  }

  lemma ChunkSound(sg: seq<Seg>, c: Cursor, bytes: nat)
    requires Sound(sg, c) && c.cursg < |sg|
    ensures var r := Chunked(sg, c, bytes);
            var n := ChunkLen(sg[c.cursg], c.ofs, bytes);
            Sound(sg, r) && r.curbytes == c.curbytes + n <= Total(sg)
  {
    hide Flat, Range;
    var s := sg[c.cursg];
    var n := ChunkLen(s, c.ofs, bytes);
    Advance(sg, c.xfers, c.cursg, c.ofs, n);
    FlatNext(sg, c.cursg);
  }

  /** For any byte count: as many bytes as the list still has are moved, in order and chunk by
      chunk inside one segment and page; whatever the device wants beyond that is reported as
      trailing and touches no memory. */
  lemma {:induction false} PioBytesSound(sg: seq<Seg>, c: Cursor, bytes: nat)
    requires Sound(sg, c)
    ensures var (r, trailing) := PioBytes(sg, c, bytes);
            && Sound(sg, r) && c.xfers <= r.xfers
            && r.curbytes == Min(c.curbytes + bytes, Total(sg))
            && (trailing.Some? ==> r.cursg == |sg| && trailing.value == c.curbytes + bytes - Total(sg))
            && (trailing.None? ==> c.curbytes + bytes <= Total(sg))
    decreases |sg| - c.cursg, bytes
  {
    if c.cursg >= |sg| {
      assert sg[..c.cursg] == sg;
    } else {
      ChunkSound(sg, c, bytes);
      var rest := bytes - ChunkLen(sg[c.cursg], c.ofs, bytes);
      if rest != 0 { PioBytesSound(sg, Chunked(sg, c, bytes), rest); }
    }
  }

  /** A whole conversation: the device asks for counts[0], counts[1], ... bytes. */
  function Converse(sg: seq<Seg>, counts: seq<nat>): (c: Cursor)
    ensures InList(sg, c)
  {
    if counts == [] then START
    else PioBytes(sg, Converse(sg, counts[..|counts| - 1]), counts[|counts| - 1]).0
  }

  function Sum(counts: seq<nat>): nat {
    if counts == [] then 0 else Sum(counts[..|counts| - 1]) + counts[|counts| - 1]
  }

  /** How the device splits its transfer makes no difference: after any conversation the buffers
      used are the first min(sum, size) bytes of the list. */
  lemma {:induction false} ConverseSound(sg: seq<Seg>, counts: seq<nat>)
    ensures var c := Converse(sg, counts);
            Sound(sg, c) && c.curbytes == Min(Sum(counts), Total(sg)) && Flat(c.xfers) == Flat(sg)[..Min(Sum(counts), Total(sg))]
  {
    if counts != [] {
      ConverseSound(sg, counts[..|counts| - 1]);
      PioBytesSound(sg, Converse(sg, counts[..|counts| - 1]), counts[|counts| - 1]);
    }
  }
}
