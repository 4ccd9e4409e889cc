/** The ring of recent errors of a device and the decision to slow it down: ata_ering_record,
    ata_ering_map, ata_eh_speed_down_needed. */
module ErrorRing {
  import opened Ata

  const ATA_ERING_SIZE: nat := 32
  const HZ: nat := 100
  const INTERVAL: nat := 15 * 60 * HZ

  datatype Entry = Entry(isIo: bool, err: ErrMask, timestamp: nat)

  const EMPTY := Entry(false, {}, 0)

  /** ata_eh_categorize_ering_entry. */
  function Category(e: Entry): (c: nat)
    ensures c <= 2
  {
    if AtaBus in e.err || Timeout in e.err then 1
    else if e.isIo && AcErr.Hsm in e.err then 1
    else if e.isIo && AcErr.Dev in e.err && Media !in e.err && Invalid !in e.err then 2
    else 0
  }

  /** err_limits. */
  const LIMITS: seq<int> := [-1, 3, 10]

  // ---- the meaning: a log of all errors ever recorded, oldest first ----

  /** How many of the last n entries of the log are of category cat and not older than since. */
  function Recent(log: seq<Entry>, n: nat, since: nat, cat: nat): nat
    requires n <= |log|
  {
    if n == 0 then 0
    else Recent(log[..|log| - 1], n - 1, since, cat)
         + if log[|log| - 1].timestamp >= since && Category(log[|log| - 1]) == cat then 1 else 0
  }

  /** Cat-1: bus errors and timeouts of any command, protocol violations of known-good commands. */
  predicate Cat1(e: Entry) { AtaBus in e.err || Timeout in e.err || (e.isIo && AcErr.Hsm in e.err) }

  /** Cat-2: unclassified device errors of known-good commands. */
  predicate Cat2(e: Entry) { !Cat1(e) && e.isIo && {AcErr.Dev, Media, Invalid} * e.err == {AcErr.Dev} }

  lemma CategoryMeans(e: Entry)
    ensures Category(e) == 1 <==> Cat1(e)
    ensures Category(e) == 2 <==> Cat2(e)
    ensures Category(e) == 0 <==> !Cat1(e) && !Cat2(e)
  {
    var m: ErrMask := {AcErr.Dev, Media, Invalid};
    if AcErr.Dev in e.err && Media !in e.err && Invalid !in e.err { assert m * e.err == {AcErr.Dev}; }
    assert Media in e.err ==> Media in m * e.err;
    assert Invalid in e.err ==> Invalid in m * e.err;
    assert AcErr.Dev in m * e.err ==> AcErr.Dev in e.err;
  }

  function Since(now: nat): nat { if now >= INTERVAL then now - INTERVAL else 0 }

  /** Speed down is needed if the newest error has category 1 or 2 and, among the errors the ring
      keeps, more than 3 or 10 of that category are from the last 15 minutes. */
  predicate SpeedDownNeeded(log: seq<Entry>, now: nat) {
    log != [] &&
    var newest := log[|log| - 1];
    var n := Min(|log|, ATA_ERING_SIZE);
    (Cat1(newest) && Recent(log, n, Since(now), 1) > 3) || (Cat2(newest) && Recent(log, n, Since(now), 2) > 10)
  }

  /** The places of the log the ring still keeps whose entries are at most 15 minutes old and of
      category 1 or 2. */
  ghost function Fresh1(log: seq<Entry>, now: nat): set<int> {
    set i | 0 <= i < |log| && |log| - 32 <= i && log[i].timestamp + 90000 >= now && Cat1(log[i])
  }

  ghost function Fresh2(log: seq<Entry>, now: nat): set<int> {
    set i | 0 <= i < |log| && |log| - 32 <= i && log[i].timestamp + 90000 >= now && Cat2(log[i])
  }

  /** The places among the last n that Recent counts. */
  ghost function Places(log: seq<Entry>, n: nat, since: nat, cat: nat): set<int> {
    set i | 0 <= i < |log| && |log| - n <= i && log[i].timestamp >= since && Category(log[i]) == cat
  }

  lemma {:induction false} RecentIsSize(log: seq<Entry>, n: nat, since: nat, cat: nat)
    requires n <= |log|
    ensures Recent(log, n, since, cat) == |Places(log, n, since, cat)|
  {
    hide Category;
    if n == 0 {
      assert Places(log, 0, since, cat) == {};
    } else {
      var rest := log[..|log| - 1];
      RecentIsSize(rest, n - 1, since, cat);
      var last := |log| - 1;
      if log[last].timestamp >= since && Category(log[last]) == cat {
        assert Places(log, n, since, cat) == Places(rest, n - 1, since, cat) + {last};
      } else {
        assert Places(log, n, since, cat) == Places(rest, n - 1, since, cat);
      }
    }
  }

  /** The decision in numbers, for a clock of 100 ticks a second: the newest error is of category 1 and
      more than 3 of the last 32 errors are of that category and at most 15 minutes old, or the same
      with category 2 and more than 10. */
  lemma SpeedDownMeans(log: seq<Entry>, now: nat)
    ensures SpeedDownNeeded(log, now) <==>
              && log != []
              && ((Cat1(log[|log| - 1]) && |Fresh1(log, now)| > 3) || (Cat2(log[|log| - 1]) && |Fresh2(log, now)| > 10))
  {
    var n := Min(|log|, ATA_ERING_SIZE);
    RecentIsSize(log, n, Since(now), 1);
    RecentIsSize(log, n, Since(now), 2);
    forall e: Entry ensures (Category(e) == 1 <==> Cat1(e)) && (Category(e) == 2 <==> Cat2(e)) { CategoryMeans(e); }
    assert Places(log, n, Since(now), 1) == Fresh1(log, now);
    assert Places(log, n, Since(now), 2) == Fresh2(log, now);
  }

  predicate Ordered(log: seq<Entry>) {
    forall i, j :: 0 <= i < j < |log| ==> log[i].timestamp <= log[j].timestamp
  }

  /** What a walk from the newest entry that stops at the first entry older than since counts. */
  function Walk(log: seq<Entry>, n: nat, since: nat, cat: nat): nat
    requires n <= |log|
  {
    if n == 0 || log[|log| - 1].timestamp < since then 0
    else Walk(log[..|log| - 1], n - 1, since, cat) + if Category(log[|log| - 1]) == cat then 1 else 0
  }

  /** Stopping early loses nothing when timestamps do not decrease. */
  lemma {:induction false} WalkIsRecent(log: seq<Entry>, n: nat, since: nat, cat: nat)
    requires n <= |log| && Ordered(log)
    ensures Walk(log, n, since, cat) == Recent(log, n, since, cat)
  {
    if n > 0 {
      var rest := log[..|log| - 1];
      if log[|log| - 1].timestamp < since {
        forall i | 0 <= i < |rest| ensures rest[i].timestamp < since { assert log[i].timestamp <= log[|log| - 1].timestamp; }
        NoneRecent(rest, n - 1, since, cat);
      } else {
        WalkIsRecent(rest, n - 1, since, cat);
      }
    }
  }

  lemma {:induction false} NoneRecent(log: seq<Entry>, n: nat, since: nat, cat: nat)
    requires n <= |log| && forall i :: 0 <= i < |log| ==> log[i].timestamp < since
    ensures Recent(log, n, since, cat) == 0
  {
    if n > 0 { NoneRecent(log[..|log| - 1], n - 1, since, cat); }
  }

  /** With timestamps out of order the walk may miss errors, never invent any. */
  lemma {:induction false} WalkNeverMore(log: seq<Entry>, n: nat, since: nat, cat: nat)
    requires n <= |log|
    ensures Walk(log, n, since, cat) <= Recent(log, n, since, cat)
  {
    if n > 0 && log[|log| - 1].timestamp >= since { WalkNeverMore(log[..|log| - 1], n - 1, since, cat); }
  }

  /** The last n entries are recent. */
  ghost predicate AllSince(log: seq<Entry>, n: nat, since: nat) {
    forall i :: 0 <= i < |log| && |log| - n <= i ==> log[i].timestamp >= since
  }

  /** One more step of the walk, seen from the old end. */
  lemma {:induction false} WalkExtend(log: seq<Entry>, n: nat, since: nat, cat: nat)
    requires n < |log| && AllSince(log, n, since)
    ensures var e := log[|log| - 1 - n];
            Walk(log, n + 1, since, cat) ==
              Walk(log, n, since, cat) + if e.timestamp >= since && Category(e) == cat then 1 else 0
    ensures log[|log| - 1 - n].timestamp >= since ==> AllSince(log, n + 1, since)
  {
    hide Category;
    if n > 0 {
      WalkExtend(log[..|log| - 1], n - 1, since, cat);
    }
  }

  /** Past an old entry the walk counts nothing. */
  lemma {:induction false} WalkStops(log: seq<Entry>, n: nat, m: nat, since: nat, cat: nat)
    requires n < m <= |log| && log[|log| - 1 - n].timestamp < since
    ensures Walk(log, m, since, cat) == Walk(log, n, since, cat)
  {
    if n > 0 && log[|log| - 1].timestamp >= since {
      assert log[..|log| - 1][|log| - 2 - (n - 1)] == log[|log| - 1 - n];
      WalkStops(log[..|log| - 1], n - 1, m - 1, since, cat);
    }
  }

  // ---- the ring ----

  class Ering {
    const ring: array<Entry>
    var cursor: nat
    // Every error ever recorded, oldest first.
    ghost var log: seq<Entry>

    /** The entry k places before the cursor. */
    function At(k: nat): Entry
      requires ring.Length == ATA_ERING_SIZE && cursor < ATA_ERING_SIZE && k < ATA_ERING_SIZE
      reads this, ring
    {
      ring[(cursor + ATA_ERING_SIZE - k) % ATA_ERING_SIZE]
    }

    /** The ring read backwards from the cursor is the log read backwards, as far as it goes; unused
        places are empty. */
    ghost predicate Valid()
      reads this, ring
    {
      && ring.Length == ATA_ERING_SIZE && cursor < ATA_ERING_SIZE
      && (forall k: nat :: k < ATA_ERING_SIZE ==> At(k) == if k < |log| then log[|log| - 1 - k] else EMPTY)
      && (forall e :: e in log ==> e.err != {})
    }

    constructor ()
      ensures Valid() && fresh(ring) && log == []
    {
      ring := new Entry[ATA_ERING_SIZE](_ => EMPTY);
      cursor := 0;
      log := [];
    }

    /** ata_ering_record. */
    method Record(isIo: bool, err: ErrMask, now: nat)
      requires Valid() && err != {}
      modifies this, ring
      ensures Valid() && log == old(log) + [Entry(isIo, err, now)]
    {
      cursor := (cursor + 1) % ATA_ERING_SIZE;
      ring[cursor] := Entry(isIo, err, now);
      log := log + [Entry(isIo, err, now)];
      forall k: nat | k < ATA_ERING_SIZE ensures At(k) == if k < |log| then log[|log| - 1 - k] else EMPTY {
        if k > 0 {
          StepBack(old(cursor), k);
          assert At(k) == old(At(k - 1));
        }
      }
    }

    /** ata_eh_speed_down_needed, with the walk of ata_ering_map and its callback. */
    method Needed(now: nat) returns (r: bool)
      requires Valid()
      ensures Ordered(log) ==> r == SpeedDownNeeded(log, now)
      ensures r ==> SpeedDownNeeded(log, now)
    {
      var top := ring[cursor];
      assert top == At(0);
      if top.err == {} { return false; }
      var cat := Category(top);
      if cat == 0 {
        CategoryMeans(top);
        return false;
      }
      CategoryMeans(top);
      var since := Since(now);
      var nr := CountRecent(since, cat);
      ghost var n := Min(|log|, ATA_ERING_SIZE);
      if Ordered(log) { WalkIsRecent(log, n, since, cat); }
      WalkNeverMore(log, n, since, cat);
      return nr > LIMITS[cat];
    }

    /** The walk: newest first, until an empty or an old entry or once around. */
    method CountRecent(since: nat, cat: nat) returns (nr: nat)
      requires Valid()
      ensures nr == Walk(log, Min(|log|, ATA_ERING_SIZE), since, cat)
    {
      hide Category, Walk, AllSince;
      nr := 0;
      var idx := cursor;
      var k := 0;
      WalkStart(log, since, cat);
      while k < ATA_ERING_SIZE && ring[idx].err != {} && ring[idx].timestamp >= since
        invariant k <= ATA_ERING_SIZE && k <= |log| && idx < ATA_ERING_SIZE
        invariant k < ATA_ERING_SIZE ==> idx == (cursor + ATA_ERING_SIZE - k) % ATA_ERING_SIZE
        invariant nr == Walk(log, k, since, cat) && AllSince(log, k, since)
        decreases ATA_ERING_SIZE - k
      {
        assert ring[idx] == At(k);
        WalkExtend(log, k, since, cat);
        if Category(ring[idx]) == cat { nr := nr + 1; }
        IndexBack(cursor, k);
        idx := (idx + ATA_ERING_SIZE - 1) % ATA_ERING_SIZE;
        k := k + 1;
      }
      if k < ATA_ERING_SIZE && k < |log| {
        assert ring[idx] == At(k);
        assert log[|log| - 1 - k] in log;
        WalkStops(log, k, Min(|log|, ATA_ERING_SIZE), since, cat);
      }
    }
  }

  lemma WalkStart(log: seq<Entry>, since: nat, cat: nat)
    ensures Walk(log, 0, since, cat) == 0 && AllSince(log, 0, since)
  {
  }

  lemma IndexBack(c: nat, k: nat)
    requires c < ATA_ERING_SIZE && k < ATA_ERING_SIZE
    ensures k + 1 < ATA_ERING_SIZE ==>
              ((c + ATA_ERING_SIZE - k) % ATA_ERING_SIZE + ATA_ERING_SIZE - 1) % ATA_ERING_SIZE == (c + ATA_ERING_SIZE - (k + 1)) % ATA_ERING_SIZE
  {
  }

  lemma StepBack(c: nat, k: nat)
    requires c < ATA_ERING_SIZE && 0 < k < ATA_ERING_SIZE
    ensures ((c + 1) % ATA_ERING_SIZE + ATA_ERING_SIZE - k) % ATA_ERING_SIZE == (c + ATA_ERING_SIZE - (k - 1)) % ATA_ERING_SIZE
    ensures ((c + 1) % ATA_ERING_SIZE + ATA_ERING_SIZE - k) % ATA_ERING_SIZE != (c + 1) % ATA_ERING_SIZE
  {
  }
}
