/** The 32-bit words behind the tag sets of PortModel.  A tag is a word with one bit set (1 << tag);
    a mask stands for the set of its tags. */
module TagMask {

  type Word = bv32

  predicate IsTag(b: Word) { b != 0 && b & (b - 1) == 0 }

  predicate Has(m: Word, b: Word) { m & b != 0 }

  ghost function Tags(m: Word): iset<Word> { iset b: Word | IsTag(b) && Has(m, b) }

  lemma OneBit(m: Word, b: Word)
    requires IsTag(b)
    ensures m & b == 0 || m & b == b
  {
  }

  lemma XorBit(m: Word, n: Word, b: Word)
    requires IsTag(b)
    ensures (m ^ n) & b != 0 <==> ((m & b != 0) != (n & b != 0))
  {
    OneBit(m, b);
    OneBit(n, b);
    assert (m ^ n) & b == (m & b) ^ (n & b);
  }

  lemma XorHas(m: Word, n: Word, b: Word)
    requires IsTag(b)
    ensures Has(m ^ n, b) <==> !(Has(m, b) <==> Has(n, b))
  {
    hide IsTag;
    XorBit(m, n, b);
  }

  /** qc_active ^ new is what PortModel.CompleteMultiple calls `done`. */
  lemma XorIsDifference(m: Word, n: Word)
    ensures Tags(m ^ n) == (Tags(m) - Tags(n)) + (Tags(n) - Tags(m))
  {
    hide IsTag, Has;
    forall b: Word ensures b in Tags(m ^ n) <==> b in (Tags(m) - Tags(n)) + (Tags(n) - Tags(m)) {
      if IsTag(b) { XorHas(m, n, b); }
    }
  }

  /** done_mask & new is zero exactly when the new word shows no tag that was not active. */
  lemma DoneMaskLegal(m: Word, n: Word)
    ensures (m ^ n) & n == 0 <==> Tags(n) <= Tags(m)
  {
    if (m ^ n) & n == 0 { LegalMask(m, n); } else { IllegalMask(m, n); }
  }

  lemma LegalMask(m: Word, n: Word)
    requires (m ^ n) & n == 0
    ensures Tags(n) <= Tags(m)
  {
    hide IsTag, Has;
    forall b | b in Tags(n) ensures b in Tags(m) { SubsetBit(m, n, b); }
  }

  lemma IllegalMask(m: Word, n: Word)
    requires (m ^ n) & n != 0
    ensures !(Tags(n) <= Tags(m))
  {
    hide IsTag, Has;
    var w := (m ^ n) & n;
    var b := w & (0 - w);
    LowestBit(w);
    WitnessBit(m, n, b);
    assert b in Tags(n) && b !in Tags(m);
  }

  lemma SubsetBit(m: Word, n: Word, b: Word)
    requires (m ^ n) & n == 0 && Has(n, b)
    ensures Has(m, b)
  {
    assert n & !m == 0;
  }

  lemma LowestBit(w: Word)
    requires w != 0
    ensures IsTag(w & (0 - w)) && Has(w, w & (0 - w))
  {
  }

  lemma WitnessBit(m: Word, n: Word, b: Word)
    requires IsTag(b) && Has((m ^ n) & n, b)
    ensures Has(n, b) && !Has(m, b)
  {
    OneBit(m, b);
    OneBit(n, b);
  }

  lemma TwoTags(t: Word, b: Word)
    requires IsTag(t) && IsTag(b)
    ensures Has(t, b) <==> t == b
  {
    OneBit(t, b);
    OneBit(b, t);
  }

  lemma SetBit(m: Word, t: Word, b: Word)
    requires IsTag(t) && IsTag(b)
    ensures Has(m | t, b) <==> Has(m, b) || b == t
  {
    TwoTags(t, b);
    assert (m | t) & b == (m & b) | (t & b);
  }

  lemma ClearBit(m: Word, t: Word, b: Word)
    requires IsTag(t) && IsTag(b)
    ensures Has(m & !t, b) <==> Has(m, b) && b != t
  {
    TwoTags(t, b);
    OneBit(t, b);
  }

  /** Setting and clearing one tag. */
  lemma SetTag(m: Word, t: Word)
    requires IsTag(t)
    ensures Tags(m | t) == Tags(m) + iset{t}
  {
    hide IsTag, Has;
    forall b: Word ensures b in Tags(m | t) <==> b in Tags(m) + iset{t} {
      if IsTag(b) { SetBit(m, t, b); }
    }
  }

  lemma ClearTag(m: Word, t: Word)
    requires IsTag(t)
    ensures Tags(m & !t) == Tags(m) - iset{t}
  {
    hide IsTag, Has;
    forall b: Word ensures b in Tags(m & !t) <==> b in Tags(m) - iset{t} {
      if IsTag(b) { ClearBit(m, t, b); }
    }
  }

  /** A word without tags is zero, so tests against zero are tests for the empty set. */
  lemma NoTagsIsZero(m: Word)
    ensures m == 0 <==> Tags(m) == iset{}
  {
    if m != 0 {
      LowestBit(m);
      assert m & (0 - m) in Tags(m);
    }
  }
}
