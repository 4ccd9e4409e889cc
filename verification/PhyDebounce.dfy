/** sata_phy_debounce: wait until the DET field of SStatus has been stable long enough. */
module PhyDebounce {
  import opened Ata

  /** What the hardware and the clock do.  status(i) is SStatus at poll i (None: not readable), poll 0
      being the read before the loop.  Poll i looks at the clock at most twice, at first(i) and
      second(i); start is the reading before poll 0, first(0) the one just after it. */
  datatype Env = Env(status: nat -> Option<nat>, start: nat, first: nat -> nat, second: nat -> nat)

  /** Time advances while a poll sleeps. */
  ghost predicate Advances(e: Env) {
    && e.start <= e.first(0)
    && forall i: nat :: e.first(i) <= e.second(i) < e.first(i + 1)
  }

  /** Duration and timeout in jiffies. */
  datatype Params = Params(duration: nat, timeout: nat)

  /** The DET field: 1 means that a device is there but the link is not up. */
  function Det(e: Env, i: nat): Option<nat> {
    match e.status(i)
    case None => None
    case Some(x) => Some(x % 16)
  }

  function Deadline(e: Env, p: Params): nat { e.start + p.timeout }

  // ---- what the result should be ----

  predicate Changed(e: Env, i: nat) { i > 0 && Det(e, i) != Det(e, i - 1) }

  /** The poll at which DET took the value it has at poll i. */
  function LastChange(e: Env, i: nat): (m: nat)
    ensures m <= i && (m > 0 ==> Changed(e, m))
    ensures forall k: nat :: m <= k <= i ==> Det(e, k) == Det(e, i)
  {
    if i == 0 || Changed(e, i) then i else LastChange(e, i - 1)
  }

  datatype Rc = Stable | Busy | Unreadable

  /** When poll i ends the loop, and how. */
  function Verdict(e: Env, p: Params, i: nat): Option<Rc> {
    if Det(e, i).None? then Some(Unreadable)
    else if Changed(e, i) then (if e.second(i) > Deadline(e, p) then Some(Busy) else None)
    else if Det(e, i) == Some(1) && e.first(i) < Deadline(e, p) then None
    else if e.second(i) > e.first(LastChange(e, i)) + p.duration then Some(Stable)
    else None
  }

  // ---- what the verdicts mean ----

  /** Two samples are readable and show the same DET field, the low four bits. */
  predicate Agree(e: Env, i: nat, j: nat) {
    e.status(i).Some? && e.status(j).Some? && e.status(i).value % 16 == e.status(j).value % 16
  }

  /** Success means: all samples since the last change agree, for longer than duration, and the value
      is not 1 unless the timeout has passed. */
  lemma StableMeans(e: Env, p: Params, n: nat)
    requires Verdict(e, p, n) == Some(Stable)
    ensures var m := LastChange(e, n);
            && (forall k: nat :: m <= k <= n ==> Agree(e, k, n))
            && (m > 0 ==> !Agree(e, m - 1, m))
            && e.second(n) > e.first(m) + p.duration
            && (e.status(n).value % 16 == 1 ==> e.first(n) >= e.start + p.timeout)
  {
    hide Det, Agree, Advances;
    var m := LastChange(e, n);
    forall k: nat | m <= k <= n ensures Agree(e, k, n) { AgreeIs(e, k, n); }
    if m > 0 { AgreeIs(e, m - 1, m); }
    DetIs(e, n);
  }

  lemma AgreeIs(e: Env, i: nat, j: nat)
    ensures Agree(e, i, j) <==> Det(e, i).Some? && Det(e, i) == Det(e, j)
  {
  }

  lemma DetIs(e: Env, i: nat)
    ensures Det(e, i).Some? <==> e.status(i).Some?
    ensures Det(e, i).Some? ==> Det(e, i).value == e.status(i).value % 16
  {
  }

  /** -EBUSY means that the link was still changing after the timeout. */
  lemma BusyMeans(e: Env, p: Params, n: nat)
    requires Verdict(e, p, n) == Some(Busy)
    ensures n > 0 && e.status(n).Some? && !Agree(e, n - 1, n) && e.second(n) > e.start + p.timeout
  {
  }

  // ---- the loop ----

  /** No poll after this moment leaves the loop running. */
  function Bound(e: Env, p: Params): nat { Max(Deadline(e, p), e.first(0)) + p.duration }

  /** A poll later than timeout and duration ends the loop, if no change has been let through after
      the timeout before. */
  lemma LateEnds(e: Env, p: Params, i: nat)
    requires Advances(e) && i > 0 && e.first(i) > Bound(e, p)
    requires forall k: nat :: 0 < k < i ==> Verdict(e, p, k).None?
    ensures Verdict(e, p, i).Some?
  {
    var m := LastChange(e, i);
    assert e.second(i) >= e.first(i);
    if 0 < m < i {
      assert Verdict(e, p, m).None?;
      assert e.first(m) <= e.second(m) <= Deadline(e, p);
    }
  }

  /** What the loop variables know of the polls so far. */
  ghost predicate Knows(e: Env, n: nat, last: nat, lastJiffies: nat) {
    Det(e, n) == Some(last) && lastJiffies == e.first(LastChange(e, n))
  }

  /** The branches of one poll, in terms of the loop variables. */
  lemma PollIs(e: Env, p: Params, n: nat, last: nat, lastJiffies: nat)
    requires Knows(e, n, last, lastJiffies)
    ensures var d := Det(e, n + 1);
            && Verdict(e, p, n + 1) ==
                 (if d.None? then Some(Unreadable)
                  else if d.value != last then (if e.second(n + 1) > Deadline(e, p) then Some(Busy) else None)
                  else if d.value == 1 && e.first(n + 1) < Deadline(e, p) then None
                  else if e.second(n + 1) > lastJiffies + p.duration then Some(Stable) else None)
            && (d.Some? ==> Knows(e, n + 1, d.value, if d.value != last then e.first(n + 1) else lastJiffies))
  {
  }

  /** Time since the start is used up poll by poll. */
  lemma Ticks(e: Env, p: Params, n: nat)
    requires Advances(e) && n > 0
    requires forall k: nat :: 0 < k <= n ==> Verdict(e, p, k).None?
    ensures e.first(n) <= Bound(e, p) && e.first(n) < e.first(n + 1)
  {
    assert e.first(n) <= e.second(n) < e.first(n + 1);
    if e.first(n) > Bound(e, p) { LateEnds(e, p, n); }
  }

  /** sata_phy_debounce: the first poll with a verdict decides, and it comes no later than the first
      poll after timeout and duration.  Success means that all samples since the last change agree for
      longer than duration, on a value that is not 1 unless the timeout has passed; -EBUSY means that
      the link was still changing after the timeout. */
  method Debounce(e: Env, p: Params) returns (rc: Rc, n: nat)
    requires Advances(e)
    ensures n == 0 ==> Det(e, 0).None? && rc == Unreadable
    ensures n > 0 ==> Det(e, 0).Some? && Verdict(e, p, n) == Some(rc) && forall k: nat :: 0 < k < n ==> Verdict(e, p, k).None?
    ensures forall k: nat :: 0 < k < n ==> e.first(k) <= Bound(e, p)
    ensures rc == Stable ==>
              var m := LastChange(e, n);
              && n > 0 && (forall k: nat :: m <= k <= n ==> Agree(e, k, n))
              && (m > 0 ==> !Agree(e, m - 1, m))
              && e.second(n) > e.first(m) + p.duration
              && (e.status(n).value % 16 == 1 ==> e.first(n) >= e.start + p.timeout)
    ensures rc == Busy ==> n > 0 && e.status(n).Some? && !Agree(e, n - 1, n) && e.second(n) > e.start + p.timeout
    ensures rc == Unreadable <==> e.status(n).None?
  {
    hide Verdict, LastChange, Bound, Advances;
    var deadline := Deadline(e, p);
    if e.status(0).None? { return Unreadable, 0; }
    var last: nat := e.status(0).value % 16;
    var lastJiffies: nat := e.first(0);
    FirstChange(e);
    n := 0;
    while true
      invariant Knows(e, n, last, lastJiffies) && Det(e, 0).Some?
      invariant forall k: nat :: 0 < k <= n ==> Verdict(e, p, k).None? && e.first(k) <= Bound(e, p)
      decreases Bound(e, p) + 1 - if n == 0 then 0 else e.first(n), n == 0
    {
      PollIs(e, p, n, last, lastJiffies);
      n := n + 1;
      if e.status(n).None? { return Unreadable, n; }
      var cur := e.status(n).value % 16;
      if cur == last {
        if !(cur == 1 && e.first(n) < deadline) {
          if e.second(n) > lastJiffies + p.duration {
            StableMeans(e, p, n);
            return Stable, n;
          }
        }
      } else {
        last := cur;
        lastJiffies := e.first(n);
        if e.second(n) > deadline {
          BusyMeans(e, p, n);
          return Busy, n;
        }
      }
      Ticks(e, p, n);
      if n > 1 { Ticks(e, p, n - 1); }
    }
  }

  lemma FirstChange(e: Env)
    ensures LastChange(e, 0) == 0
  {
  }

  /** A link that stays at one readable value other than 1 from some poll on is reported stable: no
      later poll that comes more than duration after it leaves the loop running. */
  lemma SettledIsReported(e: Env, p: Params, m: nat, n: nat)
    requires Advances(e) && m < n && Det(e, m).Some? && Det(e, m) != Some(1)
    requires forall k: nat :: m <= k <= n ==> Det(e, k) == Det(e, m)
    requires e.first(n) > e.first(m) + p.duration
    ensures Verdict(e, p, n) == Some(Stable)
  {
    var c := LastChange(e, n);
    assert !Changed(e, n);
    assert c <= m;
    FirstMonotone(e, c, m);
    assert e.first(n) <= e.second(n);
  }

  lemma {:induction false} FirstMonotone(e: Env, i: nat, j: nat)
    requires Advances(e) && i <= j
    ensures e.first(i) <= e.first(j)
    decreases j
  {
    if i < j {
      FirstMonotone(e, i, j - 1);
      assert e.first(j - 1) <= e.second(j - 1) < e.first(j - 1 + 1);
    }
  }
}
