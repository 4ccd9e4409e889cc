/** Scatter lists and the bytes they stand for. */
module ScatterList {

  const ATA_SECT_SIZE: nat := 512
  const PAGE_SIZE: nat := 4096

  /** A segment: its bytes are contiguous from addr (page and offset as one address) on. */
  datatype Seg = Seg(addr: nat, length: nat)

  function Range(a: nat, n: nat): (r: seq<nat>)
    ensures |r| == n
  {
    seq(n, i requires 0 <= i < n => a + i)
  }

  /** The addresses of a lists bytes, in order. */
  function Flat(sg: seq<Seg>): seq<nat> {
    if sg == [] then []
    else Flat(sg[..|sg| - 1]) + Range(sg[|sg| - 1].addr, sg[|sg| - 1].length)
  }

  function Total(sg: seq<Seg>): nat { |Flat(sg)| }

  lemma RangeSplit(a: nat, m: nat, n: nat)
    ensures Range(a, m) + Range(a + m, n) == Range(a, m + n)
  {
  }

  lemma FlatSnoc(sg: seq<Seg>, s: Seg)
    ensures Flat(sg + [s]) == Flat(sg) + Range(s.addr, s.length)
  {
    assert (sg + [s])[..|sg|] == sg;
  }

  lemma FlatNext(sg: seq<Seg>, k: nat)
    requires k < |sg|
    ensures Flat(sg[..k + 1]) == Flat(sg[..k]) + Range(sg[k].addr, sg[k].length)
  {
    assert sg[..k + 1] == sg[..k] + [sg[k]];
    FlatSnoc(sg[..k], sg[k]);
  }

  lemma {:induction false} FlatConcat(a: seq<Seg>, b: seq<Seg>)
    ensures Flat(a + b) == Flat(a) + Flat(b)
  {
    if b == [] {
      assert a + b == a;
    } else {
      var b' := b[..|b| - 1];
      var s := b[|b| - 1];
      assert b == b' + [s] && a + b == (a + b') + [s];
      FlatConcat(a, b');
      FlatSnoc(a + b', s);
      FlatSnoc(b', s);
    }
  }

  /** The bytes of the first k segments are a prefix of all bytes. */
  lemma FlatPrefix(sg: seq<Seg>, k: nat)
    requires k <= |sg|
    ensures Total(sg[..k]) <= Total(sg) && Flat(sg[..k]) == Flat(sg)[..Total(sg[..k])]
  {
    assert sg == sg[..k] + sg[k..];
    FlatConcat(sg[..k], sg[k..]);
  }

  lemma SliceOfPrefix(f: seq<nat>, m: nat, lo: nat, hi: nat)
    requires lo <= hi <= m <= |f|
    ensures f[lo..hi] == f[..m][lo..hi]
  {
  }

  lemma SliceOfTail(a: seq<nat>, r: seq<nat>, f: seq<nat>, i: nat, n: nat)
    requires i + n <= |r| && |a| + |r| <= |f| && f[..|a| + |r|] == a + r
    ensures f[|a| + i..|a| + i + n] == r[i..i + n]
  {
    var m := |a| + |r|;
    var lo, hi := |a| + i, |a| + i + n;
    SliceOfPrefix(f, m, lo, hi);
    assert (a + r)[lo..hi] == r[i..i + n];
  }

  lemma RangeSlice(a: nat, m: nat, i: nat, n: nat)
    requires i + n <= m
    ensures Range(a, m)[i..i + n] == Range(a + i, n)
  {
  }

  lemma FlatUpTo(sg: seq<Seg>, k: nat)
    requires k < |sg|
    ensures Total(sg[..k]) + sg[k].length <= Total(sg)
    ensures Flat(sg)[..Total(sg[..k]) + sg[k].length] == Flat(sg[..k]) + Range(sg[k].addr, sg[k].length)
  {
    hide Flat;
    FlatNext(sg, k);
    FlatPrefix(sg, k + 1);
  }

  /** n bytes of segment k from offset ofs on are n consecutive bytes of the list. */
  lemma FlatInside(sg: seq<Seg>, k: nat, ofs: nat, n: nat, b: nat)
    requires k < |sg| && ofs + n <= sg[k].length && b == Total(sg[..k]) + ofs
    ensures b + n <= Total(sg) && Flat(sg)[b..b + n] == Range(sg[k].addr + ofs, n)
  {
    hide Flat, Range;
    FlatUpTo(sg, k);
    InsideTail(Flat(sg[..k]), Flat(sg), Total(sg[..k]), sg[k].addr, sg[k].length, ofs, n, b);
  }

  lemma InsideTail(a: seq<nat>, f: seq<nat>, m: nat, addr: nat, len: nat, ofs: nat, n: nat, b: nat)
    requires ofs + n <= len && m == |a| && m + len <= |f| && f[..m + len] == a + Range(addr, len) && b == m + ofs
    ensures f[b..b + n] == Range(addr + ofs, n)
  {
    hide Range;
    SliceOfTail(a, Range(addr, len), f, ofs, n);
    RangeSlice(addr, len, ofs, n);
  }

  /** Moving n bytes on from byte b: the transfers so far still add up to a prefix of the list. */
  lemma Advance(sg: seq<Seg>, xfers: seq<Seg>, k: nat, ofs: nat, n: nat)
    requires k < |sg| && ofs + n <= sg[k].length
    requires Total(sg[..k]) + ofs <= Total(sg) && Flat(xfers) == Flat(sg)[..Total(sg[..k]) + ofs]
    ensures Total(sg[..k]) + ofs + n <= Total(sg)
    ensures Flat(xfers + [Seg(sg[k].addr + ofs, n)]) == Flat(sg)[..Total(sg[..k]) + ofs + n]
  {
    hide Flat, Range;
    var b := Total(sg[..k]) + ofs;
    FlatInside(sg, k, ofs, n, b);
    FlatSnoc(xfers, Seg(sg[k].addr + ofs, n));
    assert Flat(sg)[..b + n] == Flat(sg)[..b] + Flat(sg)[b..b + n];
  }
}
