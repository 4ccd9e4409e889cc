/** ata_eh_reset: up to three resets, each possibly with a follow-up softreset. */
module EhReset {
  const ATA_EH_RESET_TRIES: nat := 3

  datatype Kind = SoftReset | HardReset

  datatype Rc = Ok | EAgain | EInval | Failure

  /** What one ata_do_reset call reports; unknown: classes[0] is still ATA_DEV_UNKNOWN. */
  datatype Ans = Ans(rc: Rc, unknown: bool)

  /** The reset methods the driver has, and whether the caller wants classification. */
  datatype Cfg = Cfg(soft: bool, hard: bool, classify: bool)

  /** One ata_do_reset call that was made. */
  datatype Call = Call(kind: Kind, followup: bool, ans: Ans)

  /** ata_eh_followup_srst_needed, for a hardreset only. */
  predicate FollowupNeeded(g: Cfg, kind: Kind, a: Ans) {
    kind == HardReset && (a.rc == EAgain || (a.rc == Ok && g.classify && a.unknown))
  }

  /** One round from label retry: the calls it makes, its result, and whether that is final. */
  datatype Round = Round(calls: seq<Call>, rc: Rc, final: bool)

  function RunRound(g: Cfg, kind: Kind, ans: nat -> Ans, n: nat): Round {
    var a := ans(n);
    if !FollowupNeeded(g, kind, a) then Round([Call(kind, false, a)], a.rc, false)
    else if !g.soft then Round([Call(kind, false, a)], EInval, true)
    else
      var b := ans(n + 1);
      var calls := [Call(kind, false, a), Call(SoftReset, true, b)];
      if b.rc == Ok && g.classify && b.unknown then Round(calls, EInval, true)
      else Round(calls, b.rc, false)
  }

  function RoundKind(g: Cfg, kind: Kind, r: Round): Kind {
    if g.hard then HardReset else if |r.calls| == 2 then SoftReset else kind
  }

  /** From label retry on, with `tries` rounds left. */
  function Reset(g: Cfg, kind: Kind, ans: nat -> Ans, n: nat, tries: nat): (Rc, seq<Call>)
    decreases tries
  {
    if tries == 0 then (Failure, []) else
    var r := RunRound(g, kind, ans, n);
    if r.final || r.rc == Ok || tries == 1 then (r.rc, r.calls)
    else
      var (rc, calls) := Reset(g, RoundKind(g, kind, r), ans, n + |r.calls|, tries - 1);
      (rc, r.calls + calls)
  }

  /** The body of the retry loop. */
  method DoRound(g: Cfg, kind: Kind, ans: nat -> Ans, n: nat) returns (r: Round)
    ensures r == RunRound(g, kind, ans, n)
  {
    var a := ans(n);
    var calls, rc := [Call(kind, false, a)], a.rc;
    if FollowupNeeded(g, kind, a) {
      if !g.soft { return Round(calls, EInval, true); }
      var b := ans(n + 1);
      calls := calls + [Call(SoftReset, true, b)];
      rc := b.rc;
      if b.rc == Ok && g.classify && b.unknown { return Round(calls, EInval, true); }
    }
    return Round(calls, rc, false);
  }

  /** One round of Reset. */
  lemma ResetStep(g: Cfg, kind: Kind, ans: nat -> Ans, n: nat, tries: nat, r: Round, calls: seq<Call>)
    requires tries > 0 && r == RunRound(g, kind, ans, n)
    ensures var whole := Reset(g, kind, ans, n, tries);
            if r.final || r.rc == Ok || tries == 1 then whole == (r.rc, r.calls)
            else
              var rest := Reset(g, RoundKind(g, kind, r), ans, n + |r.calls|, tries - 1);
              whole == (rest.0, r.calls + rest.1) && calls + whole.1 == (calls + r.calls) + rest.1
  {
  }

  method EhReset(g: Cfg, first: Kind, ans: nat -> Ans) returns (rc: Rc, calls: seq<Call>)
    ensures (rc, calls) == Reset(g, first, ans, 0, ATA_EH_RESET_TRIES)
  {
    hide RunRound, Reset, RoundKind;
    var tries, kind := ATA_EH_RESET_TRIES, first;
    ghost var whole := Reset(g, first, ans, 0, ATA_EH_RESET_TRIES);
    ghost var rest := whole;
    calls := [];
    assert calls + rest.1 == rest.1;
    while true
      invariant 1 <= tries <= ATA_EH_RESET_TRIES
      invariant rest == Reset(g, kind, ans, |calls|, tries)
      invariant whole.0 == rest.0 && whole.1 == calls + rest.1
      decreases tries
    {
      var r := DoRound(g, kind, ans, |calls|);
      ResetStep(g, kind, ans, |calls|, tries, r, calls);
      calls := calls + r.calls;
      rc := r.rc;
      tries := tries - 1;
      if r.final || rc == Ok || tries == 0 { return; }
      kind := RoundKind(g, kind, r);
      rest := Reset(g, kind, ans, |calls|, tries);
    }
  }

  /** The call went through and left the device classified if that was wanted. */
  predicate Good(g: Cfg, c: Call) {
    c.ans.rc == Ok && (g.classify && (c.kind == HardReset || c.followup) ==> !c.ans.unknown)
  }

  /** A hardreset that leaves the device to a softreset: it says so with -EAGAIN, or it went through
      and classification is still wanting. */
  predicate AsksFollowup(g: Cfg, c: Call) {
    c.kind == HardReset && !c.followup && (c.ans.rc == EAgain || (c.ans.rc == Ok && g.classify && c.ans.unknown))
  }

  /** The two exits with -EINVAL: a follow-up softreset is needed and the driver has none, or the
      device is still unclassified after it. */
  predicate Unclassified(g: Cfg, c: Call) {
    || (AsksFollowup(g, c) && !g.soft)
    || (c.followup && c.ans.rc == Ok && g.classify && c.ans.unknown)
  }

  /** Follow-ups are softresets, and come straight after each hardreset that asks for one and after
      nothing else; the last call asks for none, unless the driver has no softreset. */
  ghost predicate FollowsUp(g: Cfg, calls: seq<Call>) {
    && (forall k :: 0 <= k < |calls| && calls[k].followup ==> calls[k].kind == SoftReset)
    && (forall k :: 0 <= k < |calls| - 1 ==> (calls[k + 1].followup <==> AsksFollowup(g, calls[k])))
    && (|calls| > 0 ==> !calls[0].followup && (AsksFollowup(g, calls[|calls| - 1]) ==> !g.soft))
  }

  /** A call that opens a new round is a hardreset if the driver has one, and of the last kind if not. */
  predicate KindFits(g: Cfg, calls: seq<Call>, k: nat)
    requires 0 < k < |calls|
  {
    !calls[k].followup ==> calls[k].kind == if g.hard then HardReset else calls[k - 1].kind
  }

  /** Success means the last call was good and the first good one; failure means no call was good, and
      the error is the last call's, or -EINVAL at the two exits.  The first call is of the kind asked
      for. */
  ghost predicate Sensible(g: Cfg, kind: Kind, rc: Rc, calls: seq<Call>) {
    && |calls| >= 1 && calls[0].kind == kind && FollowsUp(g, calls)
    && (rc == Ok <==> Good(g, calls[|calls| - 1]))
    && rc == (if Unclassified(g, calls[|calls| - 1]) then EInval else calls[|calls| - 1].ans.rc)
    && (forall k :: 0 <= k < |calls| - 1 ==> !Good(g, calls[k]))
    && (forall k: nat :: 0 < k < |calls| ==> KindFits(g, calls, k))
  }

  lemma RoundSensible(g: Cfg, kind: Kind, ans: nat -> Ans, n: nat)
    requires g.soft || g.hard
    ensures var r := RunRound(g, kind, ans, n);
            && Sensible(g, kind, r.rc, r.calls) && |r.calls| <= 2
            && (forall k :: 0 <= k < |r.calls| ==> r.calls[k].ans == ans(n + k))
            && (r.final <==> Unclassified(g, r.calls[|r.calls| - 1]))
            && RoundKind(g, kind, r) == if g.hard then HardReset else r.calls[|r.calls| - 1].kind
  {
  }

  lemma SensibleJoin(g: Cfg, kind: Kind, rc: Rc, calls: seq<Call>, kind': Kind, rc': Rc, calls': seq<Call>)
    requires Sensible(g, kind, rc, calls) && rc != Ok && Sensible(g, kind', rc', calls')
    requires !Unclassified(g, calls[|calls| - 1])
    requires kind' == if g.hard then HardReset else calls[|calls| - 1].kind
    ensures Sensible(g, kind, rc', calls + calls')
  {
    var all := calls + calls';
    var m := |calls|;
    hide Good, AsksFollowup;
    assert all[|all| - 1] == calls'[|calls'| - 1];
    forall k | 0 <= k < |all| - 1
      ensures all[k + 1].followup <==> AsksFollowup(g, all[k])
    {
      if k >= m {
        assert all[k] == calls'[k - m] && all[k + 1] == calls'[k - m + 1];
      } else if k == m - 1 {
        assert all[k] == calls[m - 1] && all[k + 1] == calls'[0];
      } else {
        assert all[k] == calls[k] && all[k + 1] == calls[k + 1];
      }
    }
    forall k | 0 <= k < |all| - 1 ensures !Good(g, all[k]) {
      if k >= m { assert all[k] == calls'[k - m]; }
    }
    forall k: nat | 0 < k < |all| ensures KindFits(g, all, k) {
      if k > m {
        assert all[k] == calls'[k - m] && all[k - 1] == calls'[k - m - 1] && KindFits(g, calls', k - m);
      } else if k == m {
        assert all[k] == calls'[0] && all[k - 1] == calls[m - 1];
      } else {
        assert KindFits(g, calls, k);
      }
    }
  }

  /** The whole reset, for any answers of the hardware: sensible, and never more than three rounds of
      at most two calls. */
  lemma {:induction false} ResetMeaning(g: Cfg, kind: Kind, ans: nat -> Ans, n: nat, tries: nat)
    requires (g.soft || g.hard) && tries > 0
    ensures var (rc, calls) := Reset(g, kind, ans, n, tries);
            && Sensible(g, kind, rc, calls) && |calls| <= 2 * tries
            && forall k :: 0 <= k < |calls| ==> calls[k].ans == ans(n + k)
    decreases tries
  {
    hide Sensible, RunRound, Unclassified;
    var r := RunRound(g, kind, ans, n);
    RoundSensible(g, kind, ans, n);
    if !(r.final || r.rc == Ok || tries == 1) {
      var kind' := RoundKind(g, kind, r);
      ResetMeaning(g, kind', ans, n + |r.calls|, tries - 1);
      var rest := Reset(g, kind', ans, n + |r.calls|, tries - 1);
      SensibleJoin(g, kind, r.rc, r.calls, kind', rest.0, rest.1);
      forall k | |r.calls| <= k < |r.calls + rest.1| ensures (r.calls + rest.1)[k].ans == ans(n + k) {
        assert (r.calls + rest.1)[k] == rest.1[k - |r.calls|];
        assert n + |r.calls| + (k - |r.calls|) == n + k;
      }
    }
  }

  /** How many rounds the calls make up. */
  function Rounds(calls: seq<Call>): nat {
    if calls == [] then 0 else Rounds(calls[..|calls| - 1]) + if calls[|calls| - 1].followup then 0 else 1
  }

  lemma {:induction false} RoundsJoin(a: seq<Call>, b: seq<Call>)
    ensures Rounds(a + b) == Rounds(a) + Rounds(b)
  {
    if b == [] {
      assert a + b == a;
    } else {
      assert (a + b)[..|a + b| - 1] == a + b[..|b| - 1];
      RoundsJoin(a, b[..|b| - 1]);
    }
  }

  lemma OneRound(g: Cfg, kind: Kind, ans: nat -> Ans, n: nat)
    ensures var r := RunRound(g, kind, ans, n);
            Rounds(r.calls) == 1 && |r.calls| > 0 && (r.final ==> r.rc == EInval && Unclassified(g, r.calls[|r.calls| - 1]))
  {
    var r := RunRound(g, kind, ans, n);
    var c := r.calls[0];
    assert [c][..0] == [] && Rounds([c]) == 1;
    assert r.calls == [c] || r.calls[..1] == [c];
  }

  /** Giving up early is for those two exits only; any other failure, whatever its code, has used up
      all the rounds there are, and no run makes more. */
  lemma {:induction false} GivesUpLate(g: Cfg, kind: Kind, ans: nat -> Ans, n: nat, tries: nat)
    requires tries > 0
    ensures var (rc, calls) := Reset(g, kind, ans, n, tries);
            && |calls| > 0 && Rounds(calls) <= tries
            && (rc == Ok || Rounds(calls) == tries || (rc == EInval && Unclassified(g, calls[|calls| - 1])))
    decreases tries
  {
    hide RunRound, Unclassified, Rounds, RoundKind;
    var r := RunRound(g, kind, ans, n);
    OneRound(g, kind, ans, n);
    if !(r.final || r.rc == Ok || tries == 1) {
      GivesUpLate(g, RoundKind(g, kind, r), ans, n + |r.calls|, tries - 1);
      RoundsJoin(r.calls, Reset(g, RoundKind(g, kind, r), ans, n + |r.calls|, tries - 1).1);
    }
  }
}
