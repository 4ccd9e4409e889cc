/** The PRD table of a PCI IDE controller: ata_fill_sg splits segments at 64K boundaries. */
module PrdTable {
  import opened ScatterList

  const U32: nat := 0x1_0000_0000
  const BOUNDARY: nat := 0x1_0000
  // Entries in a port's table, and the most segments a command of such a driver has.
  const ATA_MAX_PRD: nat := 256
  const LIBATA_MAX_PRD: nat := 128

  /** One entry: address, the low 16 bits of flags_len, and its top bit. */
  datatype Prd = Prd(addr: nat, count: nat, eot: bool)

  // ---- what a table means to the controller ----

  /** A count of zero stands for 64K (sections 1.1 and 1.2 of the Bus Master IDE Programming
      Interface 1.0). */
  function EntryLen(e: Prd): nat { if e.count == 0 then BOUNDARY else e.count }

  /** The bytes the controller transfers for a run of entries. */
  function Expand(t: seq<Prd>): seq<nat> {
    if t == [] then [] else Expand(t[..|t| - 1]) + Range(t[|t| - 1].addr, EntryLen(t[|t| - 1]))
  }

  predicate NoCrossing(e: Prd) { e.addr % BOUNDARY + EntryLen(e) <= BOUNDARY }

  // ---- ata_fill_sg ----

  /** How much of a segment goes into its first entry; the sum is taken in 32 bits. */
  function PieceLen(addr: nat, len: nat): (n: nat)
    ensures n <= len && (len > 0 ==> n > 0)
  {
    var offset := addr % BOUNDARY;
    if (offset + len) % U32 > BOUNDARY then BOUNDARY - offset else len
  }

  /** The inner loop over one segment. */
  function Pieces(addr: nat, len: nat): seq<Prd>
    decreases len
  {
    if len == 0 then []
    else [Prd(addr, PieceLen(addr, len) % BOUNDARY, false)]
         + Pieces((addr + PieceLen(addr, len)) % U32, len - PieceLen(addr, len))
  }

  /** The outer loop. */
  function Entries(sg: seq<Seg>): seq<Prd> {
    if sg == [] then []
    else Entries(sg[..|sg| - 1]) + Pieces(sg[|sg| - 1].addr, sg[|sg| - 1].length)
  }

  /** The last entry is marked. */
  function Table(sg: seq<Seg>): seq<Prd> {
    var t := Entries(sg);
    if t == [] then t else t[|t| - 1 := t[|t| - 1].(eot := true)]
  }

  /** Addresses and lengths are 32-bit values and the segment ends by 4G. */
  predicate Fits(s: Seg) { s.length < U32 && s.addr + s.length <= U32 }

  /** The 32-bit sum of offset and length does not wrap. */
  predicate NoWrap(s: Seg) { s.addr % BOUNDARY + s.length < U32 }

  /** A segment that makes the sum wrap starts inside the first 64K, not at its start, and reaches the
      very end of the address space. */
  predicate Wraps(s: Seg) { 0 < s.addr < BOUNDARY && s.addr + s.length == U32 }

  lemma WrapIsRare(s: Seg)
    requires Fits(s)
    ensures NoWrap(s) <==> !Wraps(s)
  {
  }

  // ---- one segment ----

  lemma ExpandCons(e: Prd, t: seq<Prd>)
    ensures Expand([e] + t) == Range(e.addr, EntryLen(e)) + Expand(t)
    decreases |t|
  {
    if t == [] {
      assert [e] + t == [e];
      assert [e][..0] == [];
    } else {
      var t' := t[..|t| - 1];
      assert ([e] + t)[..|t|] == [e] + t';
      ExpandCons(e, t');
    }
  }

  lemma {:induction false} ExpandConcat(a: seq<Prd>, b: seq<Prd>)
    ensures Expand(a + b) == Expand(a) + Expand(b)
  {
    if b == [] {
      assert a + b == a;
    } else {
      var b' := b[..|b| - 1];
      assert (a + b)[..|a + b| - 1] == a + b';
      ExpandConcat(a, b');
    }
  }

  /** A piece stays in its 64K window and its count is zero exactly when it is 64K long. */
  lemma PieceFits(addr: nat, len: nat)
    requires 0 < len && addr % BOUNDARY + len < U32
    ensures var n := PieceLen(addr, len);
            && 0 < n <= len && n <= BOUNDARY && addr % BOUNDARY + n <= BOUNDARY
            && EntryLen(Prd(addr, n % BOUNDARY, false)) == n
            && (n < len ==> addr % BOUNDARY + n == BOUNDARY && (addr + n) % BOUNDARY == 0)
  {
  }

  /** The pieces of a segment: exactly its bytes in order. */
  lemma {:induction false} PiecesExact(addr: nat, len: nat)
    requires addr + len <= U32 && addr % BOUNDARY + len < U32
    ensures Expand(Pieces(addr, len)) == Range(addr, len)
    decreases len
  {
    hide Expand, Range, PieceLen, Pieces;
    if len > 0 {
      PieceFits(addr, len);
      PieceStep(addr, len);
      var n := PieceLen(addr, len);
      var e := Prd(addr, n % BOUNDARY, false);
      var addr' := (addr + n) % U32;
      PiecesExact(addr', len - n);
      ExpandCons(e, Pieces(addr', len - n));
      RangeSplit(addr, n, len - n);
      if n == len { RangeNone(addr + n, addr'); }
    } else {
      PiecesEnd(addr);
      ExpandNone(addr);
    }
  }

  lemma RangeNone(a: nat, b: nat)
    ensures Range(a, 0) == Range(b, 0)
  {
  }

  /** No piece crosses a 64K boundary or is marked; there is at most one more than the 64K windows
      the segment needs. */
  lemma {:induction false} PiecesShape(addr: nat, len: nat)
    requires addr + len <= U32 && addr % BOUNDARY + len < U32
    ensures var t := Pieces(addr, len);
            && (forall e :: e in t ==> NoCrossing(e) && !e.eot)
            && (len > 0 ==> t != [] && BOUNDARY * (|t| - 1) < addr % BOUNDARY + len) && (len == 0 ==> t == [])
    decreases len
  {
    hide PieceLen, Pieces;
    if len > 0 {
      PieceFits(addr, len);
      PieceStep(addr, len);
      var n := PieceLen(addr, len);
      PiecesShape((addr + n) % U32, len - n);
    } else {
      PiecesEnd(addr);
    }
  }

  lemma ExpandNone(addr: nat)
    ensures Expand([]) == Range(addr, 0)
  {
  }

  /** When the sum wraps, the whole segment goes into one entry, which cannot hold it. */
  lemma WrappedPiece(addr: nat, len: nat)
    requires len < U32 && addr % BOUNDARY + len >= U32
    ensures |Expand(Pieces(addr, len))| < len
  {
    var e := Prd(addr, len % BOUNDARY, false);
    assert (addr % BOUNDARY + len) % U32 <= BOUNDARY;
    assert PieceLen(addr, len) == len;
    assert Pieces(addr, len) == [e] + [];
    ExpandCons(e, []);
  }

  // ---- the whole table ----

  lemma {:induction false} EntriesExact(sg: seq<Seg>)
    requires forall k :: 0 <= k < |sg| ==> Fits(sg[k]) && NoWrap(sg[k])
    ensures Expand(Entries(sg)) == Flat(sg)
    ensures forall e :: e in Entries(sg) ==> NoCrossing(e) && !e.eot
    ensures (forall k :: 0 <= k < |sg| ==> sg[k].length <= BOUNDARY) ==> |Entries(sg)| <= 2 * |sg|
  {
    hide Range, Pieces;
    if sg != [] {
      var n := |sg| - 1;
      EntriesExact(sg[..n]);
      PiecesExact(sg[n].addr, sg[n].length);
      PiecesShape(sg[n].addr, sg[n].length);
      ExpandConcat(Entries(sg[..n]), Pieces(sg[n].addr, sg[n].length));
    }
  }

  lemma MarkKeeps(t: seq<Prd>)
    requires t != []
    ensures Expand(t[|t| - 1 := t[|t| - 1].(eot := true)]) == Expand(t)
  {
    assert t[|t| - 1 := t[|t| - 1].(eot := true)][..|t| - 1] == t[..|t| - 1];
  }

  /** The table stands for exactly the bytes of the list, in order; no entry crosses a 64K boundary;
      the end mark is on the last entry and nowhere else; segments of at most 64K need at most two
      entries each, so the longest list fits the table. */
  lemma TableExact(sg: seq<Seg>)
    requires forall k :: 0 <= k < |sg| ==> Fits(sg[k]) && NoWrap(sg[k])
    ensures Expand(Table(sg)) == Flat(sg)
    ensures forall k :: 0 <= k < |Table(sg)| ==> NoCrossing(Table(sg)[k]) && (Table(sg)[k].eot <==> k == |Table(sg)| - 1)
    ensures (forall k :: 0 <= k < |sg| ==> sg[k].length <= BOUNDARY) ==> |Table(sg)| <= 2 * |sg|
    ensures (forall k :: 0 <= k < |sg| ==> sg[k].length <= BOUNDARY) && |sg| <= LIBATA_MAX_PRD ==> |Table(sg)| <= ATA_MAX_PRD
  {
    EntriesExact(sg);
    var t := Entries(sg);
    if t != [] { MarkKeeps(t); }
    forall k | 0 <= k < |Table(sg)| ensures NoCrossing(Table(sg)[k]) && (Table(sg)[k].eot <==> k == |Table(sg)| - 1) {
      assert t[k] in t;
    }
  }

  /** Total bytes of the table never exceed those of the list and reach them only without a wrap. */
  lemma {:induction false} EntriesLength(sg: seq<Seg>)
    requires forall k :: 0 <= k < |sg| ==> Fits(sg[k])
    ensures |Expand(Entries(sg))| <= Total(sg)
    ensures |Expand(Entries(sg))| == Total(sg) ==> forall k :: 0 <= k < |sg| ==> NoWrap(sg[k])
  {
    if sg != [] {
      var n := |sg| - 1;
      EntriesLength(sg[..n]);
      ExpandConcat(Entries(sg[..n]), Pieces(sg[n].addr, sg[n].length));
      if NoWrap(sg[n]) { PiecesExact(sg[n].addr, sg[n].length); } else { WrappedPiece(sg[n].addr, sg[n].length); }
      assert forall k :: 0 <= k < n ==> sg[..n][k] == sg[k];
    }
  }

  /** The exact condition: the table is right if and only if no segment makes the sum wrap, that is,
      none starts inside the first 64K and reaches the very end of the address space. */
  lemma RightIffNoWrap(sg: seq<Seg>)
    requires forall k :: 0 <= k < |sg| ==> Fits(sg[k])
    ensures Expand(Table(sg)) == Flat(sg) <==> forall k :: 0 <= k < |sg| ==> NoWrap(sg[k])
    ensures Expand(Table(sg)) == Flat(sg) <==> forall k :: 0 <= k < |sg| ==> !Wraps(sg[k])
  {
    EntriesLength(sg);
    if Entries(sg) != [] { MarkKeeps(Entries(sg)); }
    if forall k :: 0 <= k < |sg| ==> NoWrap(sg[k]) { TableExact(sg); }
    forall k | 0 <= k < |sg| ensures NoWrap(sg[k]) <==> !Wraps(sg[k]) { WrapIsRare(sg[k]); }
  }

  /** A list for which it fails: one segment from byte 1 to the end of the address space. */
  lemma WrapExample()
    ensures Fits(Seg(1, U32 - 1)) && Expand(Table([Seg(1, U32 - 1)])) != Flat([Seg(1, U32 - 1)])
  {
    var sg := [Seg(1, U32 - 1)];
    RightIffNoWrap(sg);
    assert !NoWrap(sg[0]);
  }

  // ---- in place ----

  /** ata_fill_sg on the port's table; the result is the number of entries. */
  method FillSg(sg: seq<Seg>, prd: array<Prd>) returns (idx: nat)
    requires |Entries(sg)| <= prd.Length
    modifies prd
    ensures idx == |Table(sg)| <= prd.Length && prd[..idx] == Table(sg)
    ensures prd[idx..] == old(prd[idx..])
  {
    idx := 0;
    var k := 0;
    while k < |sg|
      invariant k <= |sg| && idx <= prd.Length && prd[..idx] == Entries(sg[..k])
      invariant prd[idx..] == old(prd[idx..])
    {
      EntriesPrefix(sg, k);
      idx := FillSegment(sg[k], prd, idx);
      k := k + 1;
    }
    assert sg[..|sg|] == sg;
    if idx > 0 {
      prd[idx - 1] := prd[idx - 1].(eot := true);
    }
  }

  /** The inner loop: one segment's entries from index `from` on. */
  method FillSegment(s: Seg, prd: array<Prd>, from: nat) returns (idx: nat)
    requires from + |Pieces(s.addr, s.length)| <= prd.Length
    modifies prd
    ensures idx == from + |Pieces(s.addr, s.length)|
    ensures prd[..idx] == old(prd[..from]) + Pieces(s.addr, s.length) && prd[idx..] == old(prd[idx..])
  {
    hide PieceLen, Pieces, Range;
    var addr: nat, sgLen: nat := s.addr, s.length;
    idx := from;
    ghost var whole := prd[..from] + Pieces(addr, sgLen);
    while sgLen > 0
      invariant idx <= |whole| <= prd.Length && prd[..idx] + Pieces(addr, sgLen) == whole
      invariant prd[|whole|..] == old(prd[|whole|..])
      decreases sgLen
    {
      PieceStep(addr, sgLen);
      var offset := addr % BOUNDARY;
      var len := sgLen;
      if (offset + sgLen) % U32 > BOUNDARY { len := BOUNDARY - offset; }
      IsPieceLen(addr, sgLen, len);
      ghost var done := prd[..idx];
      prd[idx] := Prd(addr, len % BOUNDARY, false);
      idx := idx + 1;
      assert prd[..idx] == done + [Prd(addr, len % BOUNDARY, false)];
      addr := (addr + len) % U32;
      sgLen := sgLen - len;
    }
    PiecesEnd(addr);
    assert prd[..idx] + [] == prd[..idx];
  }

  lemma IsPieceLen(addr: nat, sgLen: nat, len: nat)
    requires len == if (addr % BOUNDARY + sgLen) % U32 > BOUNDARY then BOUNDARY - addr % BOUNDARY else sgLen
    ensures len == PieceLen(addr, sgLen)
  {
  }

  lemma PiecesEnd(addr: nat)
    ensures Pieces(addr, 0) == []
  {
  }

  /** One round of the inner loop. */
  lemma PieceStep(addr: nat, len: nat)
    requires 0 < len
    ensures var n := PieceLen(addr, len);
            var addr' := (addr + n) % U32;
            && Pieces(addr, len) == [Prd(addr, n % BOUNDARY, false)] + Pieces(addr', len - n)
            && (addr + len <= U32 && addr % BOUNDARY + len < U32 ==>
                  addr' + (len - n) <= U32 && addr' % BOUNDARY + (len - n) < U32)
  {
    hide PieceLen;
    if addr + len <= U32 && addr % BOUNDARY + len < U32 { PieceFits(addr, len); }
  }

  lemma EntriesPrefix(sg: seq<Seg>, k: nat)
    requires k < |sg|
    ensures Entries(sg[..k + 1]) == Entries(sg[..k]) + Pieces(sg[k].addr, sg[k].length)
    ensures |Entries(sg[..k + 1])| <= |Entries(sg)|
    decreases |sg| - k
  {
    assert sg[..k + 1][..k] == sg[..k];
    if k + 1 < |sg| { EntriesPrefix(sg, k + 1); } else { assert sg[..k + 1] == sg; }
  }
}
