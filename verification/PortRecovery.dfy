/** The error handler's own steps on the port: timeout sort-out on entry, freezing and thawing,
    handing every failed command back on exit. */
module PortRecovery {
  import opened Ata
  import opened PortModel
  import opened PortInvariant
  import opened PortPreserve

  // ---- timeout sort-out (ata_scsi_error) ----

  /** The midlayer starts the error handler only when no timer is pending any more. */
  ghost predicate NoTimers(s: seq<Scmd>) {
    forall c: nat :: c < |s| ==> s[c].phase != Armed && s[c].phase != Expired
  }

  /** How the sort-out leaves a qc it finds not failed. */
  function TimeoutQc(qc: Qc): Qc { qc.(err := qc.err + {Timeout}, failed := true) }

  ghost predicate SortedCmd(q: Qcs, s: seq<Scmd>, c: nat) {
    c < |s| && (s[c].phase == OnDoneQ || (s[c].phase == OnEhQ && HasQc(q, s, c) && q[s[c].tag].failed))
  }

  /** One command handled: its qc, if it has one, is failed now; nothing else moved. */
  ghost predicate OneStep(p: Port, r: Port, c: nat, late: bool)
    requires |p.qcmd| == |r.qcmd| == ATA_MAX_QUEUE
  {
    && Inv(r, false, None) && SortedCmd(r.qcmd, r.mid.scmds, c)
    && |r.mid.scmds| == |p.mid.scmds| && r.frozen == p.frozen
    && (forall d: nat :: d < |p.mid.scmds| && d != c ==> r.mid.scmds[d] == p.mid.scmds[d])
    && (late == (r.qcmd != p.qcmd))
    && (late ==> exists t: nat :: t < ATA_TAG_INTERNAL && FromTag(p, t) && r.qcmd == p.qcmd[t := TimeoutQc(p.qcmd[t])])
  }

  lemma SortOutOneKeeps(p: Port, c: nat)
    requires Inv(p, false, None) && c < |p.mid.scmds| && p.mid.scmds[c].phase == OnEhQ
    ensures OneStep(p, SortOutOne(p, c), c, TimedOut(p, c))
  {
    FindQcFound(p, c, 0);
    match FindQc(p, c, 0)
    case Some(t) =>
      assert Linked(p.qcmd, p.mid.scmds, t);
      if FromTag(p, t) { SortOutLate(p, c, t); }
    case None => SortOutNone(p, c);
  }

  lemma SortOutLate(p: Port, c: nat, t: nat)
    requires Inv(p, false, None) && c < |p.mid.scmds| && p.mid.scmds[c].phase == OnEhQ
    requires t < ATA_TAG_INTERNAL && FromTag(p, t) && p.qcmd[t].scsicmd == Some(c)
    ensures OneStep(p, SetQc(p, t, TimeoutQc(p.qcmd[t])), c, true)
  {
    var r := SetQc(p, t, TimeoutQc(p.qcmd[t]));
    assert Linked(p.qcmd, p.mid.scmds, t);
    assert r.qcmd[t] != p.qcmd[t];
    LifeSame(p.qcmd, r.qcmd, p.tags, p.life);
    RegsSame(p.regs, p.qcmd, r.qcmd, 0, ATA_MAX_QUEUE);
    LinkFail(p.qcmd, r.qcmd, p.mid.scmds, p.mid.scmds, false, false, t, c);
    assert Inv(r, false, None);
  }

  lemma SortOutNone(p: Port, c: nat)
    requires Inv(p, false, None) && c < |p.mid.scmds| && p.mid.scmds[c].phase == OnEhQ
    requires forall k: nat :: k < ATA_MAX_QUEUE ==> !(p.qcmd[k].active && p.qcmd[k].scsicmd == Some(c))
    ensures OneStep(p, p.(mid := EhFinishCmd(SetRetries(p.mid, c, p.mid.scmds[c].allowed), c)), c, false)
  {
    var m := SetRetries(p.mid, c, p.mid.scmds[c].allowed);
    var r := p.(mid := EhFinishCmd(m, c));
    MidFinish(m, c);
    forall i: nat | i < ATA_TAG_INTERNAL ensures Linked(r.qcmd, r.mid.scmds, i) {
      assert Linked(p.qcmd, p.mid.scmds, i);
    }
    forall d: nat | d < |r.mid.scmds| && r.mid.scmds[d].phase == Armed ensures HasQc(r.qcmd, r.mid.scmds, d) {
      assert HasQc(p.qcmd, p.mid.scmds, d);
    }
  }

  lemma QueueDistinct(q: seq<nat>, j: nat, k: nat)
    requires j < k < |q| && multiset(q)[q[k]] <= 1
    ensures q[j] != q[k]
  {
    assert q == q[..k] + q[k..];
    CountIn(q[..k], q[j]);
    CountIn(q[k..], q[k]);
    assert q[..k][j] == q[j] && q[k..][0] == q[k];
  }

  /** Qcs after part of the sort-out: as before, or timed out. */
  ghost predicate PartlyTimedOut(q: Qcs, q': Qcs) {
    forall i: nat :: i < ATA_MAX_QUEUE ==>
      q'[i] == q[i] || (q[i].active && !q[i].failed && q'[i] == TimeoutQc(q[i]))
  }

  /** After the first n commands of the queue. */
  ghost predicate SortedTo(p: Port, r: Port, nr: nat, n: nat)
    requires |p.qcmd| == ATA_MAX_QUEUE && n <= |p.mid.ehCmdQ|
  {
    && Inv(r, false, None) && r.frozen == p.frozen && |r.mid.scmds| == |p.mid.scmds|
    && (forall k: nat :: k < n ==> SortedCmd(r.qcmd, r.mid.scmds, p.mid.ehCmdQ[k]))
    && (forall d: nat :: d < |p.mid.scmds| && d !in p.mid.ehCmdQ[..n] ==> r.mid.scmds[d] == p.mid.scmds[d])
    && PartlyTimedOut(p.qcmd, r.qcmd) && (nr > 0 <==> r.qcmd != p.qcmd)
  }

  lemma SortedStart(p: Port)
    requires Inv(p, false, None)
    ensures SortedTo(p, p, 0, 0)
  {
  }

  lemma {:induction false} SortOutQKeeps(p: Port, n: nat)
    requires Inv(p, false, None) && n <= |p.mid.ehCmdQ|
    ensures SortedTo(p, SortOutQ(p, p.mid.ehCmdQ, n).0, SortOutQ(p, p.mid.ehCmdQ, n).1, n)
  {
    hide SortOutOne, TimedOut, SortedTo;
    if n == 0 {
      SortedStart(p);
    } else {
      SortOutQKeeps(p, n - 1);
      var s := SortOutQ(p, p.mid.ehCmdQ, n - 1);
      assert p.mid.ehCmdQ[n - 1] in p.mid.ehCmdQ;
      SortOutNext(p, s.0, s.1, n, p.mid.ehCmdQ[n - 1]);
    }
  }

  lemma SortOutNext(p: Port, s: Port, nr: nat, n: nat, c: nat)
    requires Inv(p, false, None) && 0 < n <= |p.mid.ehCmdQ| && c == p.mid.ehCmdQ[n - 1] && SortedTo(p, s, nr, n - 1)
    ensures c < |s.mid.scmds|
    ensures SortedTo(p, SortOutOne(s, c), if TimedOut(s, c) then nr + 1 else nr, n)
  {
    StillQueued(p, s, nr, n, c);
    SortOutOneKeeps(s, c);
    SortStep(p, s, SortOutOne(s, c), nr, n, c, TimedOut(s, c));
  }

  lemma StillQueued(p: Port, s: Port, nr: nat, n: nat, c: nat)
    requires Inv(p, false, None) && 0 < n <= |p.mid.ehCmdQ| && c == p.mid.ehCmdQ[n - 1] && SortedTo(p, s, nr, n - 1)
    ensures c < |s.mid.scmds| && s.mid.scmds[c].phase == OnEhQ
    ensures forall j: nat :: j < n - 1 ==> p.mid.ehCmdQ[j] != c
  {
    var q := p.mid.ehCmdQ;
    assert c in q;
    CountIn(q, c);
    forall j: nat | j < n - 1 ensures q[j] != c { QueueDistinct(q, j, n - 1); }
    assert c !in q[..n - 1];
  }

  lemma SortStep(p: Port, s: Port, r: Port, nr: nat, n: nat, c: nat, late: bool)
    requires |p.qcmd| == |s.qcmd| == |r.qcmd| == ATA_MAX_QUEUE && 0 < n <= |p.mid.ehCmdQ| && c == p.mid.ehCmdQ[n - 1]
    requires forall j: nat :: j < n - 1 ==> p.mid.ehCmdQ[j] != c
    requires SortedTo(p, s, nr, n - 1) && c < |s.mid.scmds| && OneStep(s, r, c, late)
    ensures SortedTo(p, r, if late then nr + 1 else nr, n)
  {
    assert p.mid.ehCmdQ[..n] == p.mid.ehCmdQ[..n - 1] + [c];
    SortStepRest(p, s, r, n, c);
  }

  lemma SortStepRest(p: Port, s: Port, r: Port, n: nat, c: nat)
    requires |p.qcmd| == ATA_MAX_QUEUE && Inv(s, false, None) && Inv(r, false, None) && |r.mid.scmds| == |s.mid.scmds|
    requires 0 < n <= |p.mid.ehCmdQ| && (forall j: nat :: j < n - 1 ==> p.mid.ehCmdQ[j] != c) && c == p.mid.ehCmdQ[n - 1]
    requires forall k: nat :: k < n - 1 ==> SortedCmd(s.qcmd, s.mid.scmds, p.mid.ehCmdQ[k])
    requires SortedCmd(r.qcmd, r.mid.scmds, c)
    requires forall d: nat :: d < |s.mid.scmds| && d != c ==> r.mid.scmds[d] == s.mid.scmds[d]
    requires PartlyTimedOut(p.qcmd, s.qcmd)
    requires r.qcmd == s.qcmd || exists t: nat :: t < ATA_TAG_INTERNAL && FromTag(s, t) && r.qcmd == s.qcmd[t := TimeoutQc(s.qcmd[t])]
    ensures forall k: nat :: k < n ==> SortedCmd(r.qcmd, r.mid.scmds, p.mid.ehCmdQ[k])
    ensures PartlyTimedOut(p.qcmd, r.qcmd)
    ensures s.qcmd != p.qcmd || r.qcmd != s.qcmd ==> r.qcmd != p.qcmd
  {
    forall k: nat | k < n ensures SortedCmd(r.qcmd, r.mid.scmds, p.mid.ehCmdQ[k]) {
      if k < n - 1 { SortedStays(s, r, p.mid.ehCmdQ[k], c); }
    }
    SortOutChanges(p, s, r);
  }

  lemma SortedStays(s: Port, r: Port, d: nat, c: nat)
    requires Inv(s, false, None) && Inv(r, false, None) && |r.mid.scmds| == |s.mid.scmds| && d < |s.mid.scmds| && d != c
    requires SortedCmd(s.qcmd, s.mid.scmds, d) && r.mid.scmds[d] == s.mid.scmds[d]
    requires r.qcmd == s.qcmd || exists t: nat :: t < ATA_TAG_INTERNAL && FromTag(s, t) && r.qcmd == s.qcmd[t := TimeoutQc(s.qcmd[t])]
    ensures SortedCmd(r.qcmd, r.mid.scmds, d)
  {
    if r.qcmd != s.qcmd {
      var t: nat :| t < ATA_TAG_INTERNAL && FromTag(s, t) && r.qcmd == s.qcmd[t := TimeoutQc(s.qcmd[t])];
      assert s.mid.scmds[d].phase == OnEhQ ==> s.mid.scmds[d].tag != t;
    }
  }

  lemma SortOutChanges(p: Port, s: Port, r: Port)
    requires |p.qcmd| == |s.qcmd| == |r.qcmd| == ATA_MAX_QUEUE && PartlyTimedOut(p.qcmd, s.qcmd)
    requires r.qcmd == s.qcmd || exists t: nat :: t < ATA_TAG_INTERNAL && FromTag(s, t) && r.qcmd == s.qcmd[t := TimeoutQc(s.qcmd[t])]
    ensures PartlyTimedOut(p.qcmd, r.qcmd)
    ensures s.qcmd != p.qcmd || r.qcmd != s.qcmd ==> r.qcmd != p.qcmd
  {
    if r.qcmd != s.qcmd {
      var t: nat :| t < ATA_TAG_INTERNAL && FromTag(s, t) && r.qcmd == s.qcmd[t := TimeoutQc(s.qcmd[t])];
      assert s.qcmd[t] == p.qcmd[t];
      assert r.qcmd[t] != p.qcmd[t];
      assert forall i: nat :: i < ATA_MAX_QUEUE && i != t ==> r.qcmd[i] == s.qcmd[i];
    }
  }

  // What becomes of the SCSI commands on eh_cmd_q.

  /** A qc still works for the command. */
  ghost predicate Served(q: Qcs, c: nat) {
    exists t: nat :: t < ATA_MAX_QUEUE && q[t].active && q[t].scsicmd == Some(c)
  }

  /** A command whose qc is gone is over: it is handed back with its retries used up, so that it is
      not issued again. */
  function HandedBack(s: Scmd): Scmd { s.(phase := OnDoneQ, retries := s.allowed) }

  lemma SortOutOneMid(p: Port, c: nat)
    requires WellFormed(p) && c < |p.mid.scmds|
    ensures SortOutOne(p, c).mid.scmds ==
              if Served(p.qcmd, c) then p.mid.scmds else p.mid.scmds[c := HandedBack(p.mid.scmds[c])]
  {
    FindQcFound(p, c, 0);
    if FindQc(p, c, 0).Some? { assert p.qcmd[FindQc(p, c, 0).value].active; }
  }

  lemma ServedStays(q: Qcs, q': Qcs, c: nat)
    requires PartlyTimedOut(q, q')
    ensures Served(q', c) <==> Served(q, c)
  {
    if Served(q, c) {
      var t: nat :| t < ATA_MAX_QUEUE && q[t].active && q[t].scsicmd == Some(c);
      assert q'[t].active && q'[t].scsicmd == Some(c);
    }
    if Served(q', c) {
      var t: nat :| t < ATA_MAX_QUEUE && q'[t].active && q'[t].scsicmd == Some(c);
      assert q[t].active && q[t].scsicmd == Some(c);
    }
  }

  /** The records once the first n commands of eh_cmd_q are handled. */
  ghost predicate Recorded(p: Port, s: seq<Scmd>, n: nat)
    requires |p.qcmd| == ATA_MAX_QUEUE && n <= |p.mid.ehCmdQ|
  {
    && |s| == |p.mid.scmds|
    && forall c: nat :: c < |s| ==>
         s[c] == if c in p.mid.ehCmdQ[..n] && !Served(p.qcmd, c) then HandedBack(p.mid.scmds[c]) else p.mid.scmds[c]
  }

  lemma RecordNext(p: Port, s: seq<Scmd>, s': seq<Scmd>, n: nat, c: nat)
    requires |p.qcmd| == ATA_MAX_QUEUE && 0 < n <= |p.mid.ehCmdQ| && c == p.mid.ehCmdQ[n - 1] && c < |s|
    requires Recorded(p, s, n - 1) && forall j: nat :: j < n - 1 ==> p.mid.ehCmdQ[j] != c
    requires s' == if Served(p.qcmd, c) then s else s[c := HandedBack(s[c])]
    ensures Recorded(p, s', n)
  {
    hide Served;
    assert p.mid.ehCmdQ[..n] == p.mid.ehCmdQ[..n - 1] + [c];
    assert c !in p.mid.ehCmdQ[..n - 1];
  }

  lemma {:induction false} SortOutRecords(p: Port, n: nat)
    requires Inv(p, false, None) && n <= |p.mid.ehCmdQ|
    ensures Recorded(p, SortOutQ(p, p.mid.ehCmdQ, n).0.mid.scmds, n)
  {
    hide SortOutOne, TimedOut, InvTags, InvRegs, InvQuiet, InvLink, InvLife, Served, Recorded, HandedBack;
    if n == 0 {
      RecordStart(p);
    } else {
      var q := p.mid.ehCmdQ;
      SortOutRecords(p, n - 1);
      SortOutQKeeps(p, n - 1);
      var s := SortOutQ(p, q, n - 1);
      assert q[n - 1] in q;
      StillQueued(p, s.0, s.1, n, q[n - 1]);
      SortOutOneMid(s.0, q[n - 1]);
      ServedStays(p.qcmd, s.0.qcmd, q[n - 1]);
      RecordNext(p, s.0.mid.scmds, SortOutOne(s.0, q[n - 1]).mid.scmds, n, q[n - 1]);
    }
  }

  lemma RecordStart(p: Port)
    requires |p.qcmd| == ATA_MAX_QUEUE
    ensures Recorded(p, p.mid.scmds, 0)
  {
  }

  lemma AllRecorded(p: Port, s: seq<Scmd>)
    requires Inv(p, false, None) && Recorded(p, s, |p.mid.ehCmdQ|)
    ensures |s| == |p.mid.scmds|
    ensures forall c: nat :: c < |s| ==>
              s[c] == if p.mid.scmds[c].phase == OnEhQ && !Served(p.qcmd, c)
                      then p.mid.scmds[c].(phase := OnDoneQ, retries := p.mid.scmds[c].allowed)
                      else p.mid.scmds[c]
  {
    hide Served, InvTags, InvRegs, InvQuiet, InvLink, InvLife;
    var q := p.mid.ehCmdQ;
    assert q[..|q|] == q;
    forall c: nat | c < |p.mid.scmds| ensures c in q <==> p.mid.scmds[c].phase == OnEhQ { CountIn(q, c); }
  }

  /** A scmd has timed out exactly if its qc is active and not failed.  Those qcs, all of them and
      no others, are charged AC_ERR_TIMEOUT and fail, and the port is frozen if there is one.  After
      that every active qc belongs to the error handler and every command left on eh_cmd_q has one.
      A command of eh_cmd_q that no active qc serves any more is handed back, its retries used up;
      every other command's record is as it was. */
  lemma SortOutKeeps(p: Port)
    requires Inv(p, false, None) && NoTimers(p.mid.scmds)
    ensures Inv(SortOut(p), true, None)
    ensures forall i: nat :: i < ATA_MAX_QUEUE ==>
              SortOut(p).qcmd[i] == if FromTag(p, i) then TimeoutQc(p.qcmd[i]) else p.qcmd[i]
    ensures SortOut(p).frozen == (p.frozen || exists i: nat :: i < ATA_MAX_QUEUE && FromTag(p, i))
    ensures |SortOut(p).mid.scmds| == |p.mid.scmds|
    ensures forall c: nat :: c < |p.mid.scmds| ==>
              SortOut(p).mid.scmds[c] ==
                if p.mid.scmds[c].phase == OnEhQ && !Served(p.qcmd, c)
                then p.mid.scmds[c].(phase := OnDoneQ, retries := p.mid.scmds[c].allowed)
                else p.mid.scmds[c]
  {
    hide Served, Recorded, SortedTo, InvTags, InvRegs, InvQuiet, InvLink, InvLife, SortOutQ;
    var q := p.mid.ehCmdQ;
    SortOutQKeeps(p, |q|);
    var s := SortOutQ(p, q, |q|);
    SortedAll(p, s.0, s.1);
    SortOutRecords(p, |q|);
    AllRecorded(p, s.0.mid.scmds);
  }

  lemma SortedAll(p: Port, s: Port, nr: nat)
    requires Inv(p, false, None) && NoTimers(p.mid.scmds) && SortedTo(p, s, nr, |p.mid.ehCmdQ|)
    ensures Inv(if nr > 0 then s.(frozen := true) else s, true, None)
    ensures forall i: nat :: i < ATA_MAX_QUEUE ==> s.qcmd[i] == if FromTag(p, i) then TimeoutQc(p.qcmd[i]) else p.qcmd[i]
    ensures s.frozen == p.frozen && (nr > 0 <==> exists i: nat :: i < ATA_MAX_QUEUE && FromTag(p, i))
  {
    SortedLinks(p, s, nr);
    forall i: nat | i < ATA_TAG_INTERNAL && s.qcmd[i].active ensures s.qcmd[i].failed { ActiveSorted(p, s, i); }
    forall i: nat | i < ATA_MAX_QUEUE
      ensures s.qcmd[i] == if FromTag(p, i) then TimeoutQc(p.qcmd[i]) else p.qcmd[i]
    {
      assert s.qcmd[i] == p.qcmd[i] || s.qcmd[i] == TimeoutQc(p.qcmd[i]);
    }
    if s.qcmd != p.qcmd {
      var i: nat :| i < ATA_MAX_QUEUE && s.qcmd[i] != p.qcmd[i];
      assert FromTag(p, i);
    }
  }

  lemma SortedLinks(p: Port, s: Port, nr: nat)
    requires Inv(p, false, None) && NoTimers(p.mid.scmds) && SortedTo(p, s, nr, |p.mid.ehCmdQ|)
    ensures InvLink(s.qcmd, s.mid.scmds, false, true)
  {
    var q := p.mid.ehCmdQ;
    assert q[..|q|] == q;
    forall c: nat | c < |s.mid.scmds|
      ensures s.mid.scmds[c].phase != Armed && s.mid.scmds[c].phase != Expired
      ensures s.mid.scmds[c].phase == OnEhQ ==> HasQc(s.qcmd, s.mid.scmds, c)
    {
      CountIn(q, c);
      if c in q { var k: nat :| k < |q| && q[k] == c; assert SortedCmd(s.qcmd, s.mid.scmds, q[k]); }
    }
  }

  lemma ActiveSorted(p: Port, s: Port, i: nat)
    requires Inv(p, false, None) && Inv(s, false, None) && NoTimers(p.mid.scmds)
    requires i < ATA_TAG_INTERNAL && s.qcmd[i].active && PartlyTimedOut(p.qcmd, s.qcmd)
    requires |s.mid.scmds| == |p.mid.scmds|
    requires forall k: nat :: k < |p.mid.ehCmdQ| ==> SortedCmd(s.qcmd, s.mid.scmds, p.mid.ehCmdQ[k])
    ensures s.qcmd[i].failed
  {
    assert Linked(p.qcmd, p.mid.scmds, i);
    assert Linked(s.qcmd, s.mid.scmds, i);
    var c := p.qcmd[i].scsicmd.value;
    assert p.mid.scmds[c].phase == OnEhQ;
    CountIn(p.mid.ehCmdQ, c);
    var k: nat :| k < |p.mid.ehCmdQ| && p.mid.ehCmdQ[k] == c;
    assert SortedCmd(s.qcmd, s.mid.scmds, p.mid.ehCmdQ[k]);
  }

  // ---- handing commands back (ata_eh_finish) ----

  lemma EhRawShape(p: Port, t: nat, c: nat)
    requires Owned(p, t) && p.qcmd[t].scsicmd == Some(c) && p.qcmd[t].active
    ensures var r := EhRawComplete(p, t);
            var n := p.qcmd[t].serial;
            && r.qcmd == p.qcmd[t := p.qcmd[t].(active := false, failed := false, sense := false, tag := ATA_TAG_POISON, done := EhScsiDone)]
            && r.tags == p.tags - {t} && r.regs == RegsDone(p.regs, t, p.qcmd[t].ncq)
            && r.life == p.life[n := p.life[n].(completions := p.life[n].completions + 1, frees := p.life[n].frees + 1)]
            && r.mid == EhFinishCmd(p.mid, c)
            && r.frozen == p.frozen && r.warned == p.warned
  {
    var e := SetQc(p, t, p.qcmd[t].(done := EhScsiDone));
    RawShape(e, t, c);
    assert EhRawComplete(p, t).qcmd == RawComplete(e, t).qcmd;
  }

  /** __ata_eh_qc_complete moves the command to eh_done_q and frees the tag; the scsidone callback
      is the one that does nothing. */
  lemma EhRawKeeps(p: Port, t: nat, c: nat)
    requires Inv(p, true, None) && t < ATA_TAG_INTERNAL && p.qcmd[t].failed && p.qcmd[t].scsicmd == Some(c)
    ensures Owned(p, t) && Inv(EhRawComplete(p, t), true, None) && c < |p.mid.scmds|
    ensures EhRawComplete(p, t).mid == EhFinishCmd(p.mid, c)
    ensures !EhRawComplete(p, t).qcmd[t].active && !EhRawComplete(p, t).qcmd[t].failed
    ensures forall i: nat :: i < ATA_MAX_QUEUE && i != t ==> EhRawComplete(p, t).qcmd[i] == p.qcmd[i]
  {
    assert p.qcmd[t].active;
    assert Linked(p.qcmd, p.mid.scmds, t);
    EhRawShape(p, t, c);
    MidFinish(p.mid, c);
    ReleaseParts(p, EhRawComplete(p, t), true, t, c);
  }

  lemma SetRetriesKeeps(p: Port, c: nat, n: nat)
    requires Inv(p, true, None) && c < |p.mid.scmds|
    ensures Inv(p.(mid := SetRetries(p.mid, c, n)), true, None)
  {
    var r := p.(mid := SetRetries(p.mid, c, n));
    forall i: nat | i < ATA_TAG_INTERNAL ensures Linked(r.qcmd, r.mid.scmds, i) {
      assert Linked(p.qcmd, p.mid.scmds, i);
    }
    forall d: nat | d < |r.mid.scmds| && r.mid.scmds[d].phase == OnEhQ ensures HasQc(r.qcmd, r.mid.scmds, d) {
      assert HasQc(p.qcmd, p.mid.scmds, d);
    }
  }

  /** A failed qc whose description the error handler rewrites. */
  lemma RewriteKeeps(p: Port, t: nat, qc: Qc)
    requires Inv(p, true, None) && t < ATA_TAG_INTERNAL && p.qcmd[t].failed
    requires qc == p.qcmd[t].(err := qc.err, sense := qc.sense, result := qc.result)
    ensures Inv(SetQc(p, t, qc), true, None)
  {
    var r := SetQc(p, t, qc);
    assert Linked(p.qcmd, p.mid.scmds, t);
    LifeSame(p.qcmd, r.qcmd, p.tags, p.life);
    RegsSame(p.regs, p.qcmd, r.qcmd, 0, ATA_MAX_QUEUE);
    LinkFail(p.qcmd, r.qcmd, p.mid.scmds, p.mid.scmds, false, true, t, p.qcmd[t].scsicmd.value);
  }

  /** The retries the midlayer sees after the error handler has finished a command. */
  function FinalRetries(qc: Qc, s: Scmd): nat {
    if Invalid in qc.err || (qc.err == {} && qc.sense) then s.allowed
    else if qc.err == {} && s.retries > 0 then s.retries - 1
    else s.retries
  }

  /** Every failed qc of the loop in ata_eh_finish ends with its command on eh_done_q, its tag free,
      its retries settled; nothing else changes. */
  lemma EhFinishTagKeeps(p: Port, t: nat)
    requires Inv(p, true, None) && t < ATA_MAX_QUEUE
    ensures p.qcmd[t].failed ==> t < ATA_TAG_INTERNAL && t in p.tags
    ensures Inv(EhFinishTag(p, t), true, None)
    ensures !EhFinishTag(p, t).qcmd[t].active && !EhFinishTag(p, t).qcmd[t].failed
    ensures forall i: nat :: i < ATA_MAX_QUEUE && i != t ==> EhFinishTag(p, t).qcmd[i] == p.qcmd[i]
    ensures p.qcmd[t].failed ==>
              && p.qcmd[t].scsicmd.Some? && p.qcmd[t].scsicmd.value < |p.mid.scmds|
              && var c := p.qcmd[t].scsicmd.value;
                 EhFinishTag(p, t).mid == EhFinishCmd(SetRetries(p.mid, c, FinalRetries(p.qcmd[t], p.mid.scmds[c])), c)
  {
    if p.qcmd[t].failed {
      assert p.qcmd[t].active;
      assert Linked(p.qcmd, p.mid.scmds, t);
      FinishFailed(p, t, p.qcmd[t].scsicmd.value);
    }
  }

  lemma FinishFailed(p: Port, t: nat, c: nat)
    requires Inv(p, true, None) && Owned(p, t) && t < ATA_TAG_INTERNAL && c < |p.mid.scmds|
    requires p.qcmd[t].failed && p.qcmd[t].scsicmd == Some(c)
    ensures var r := EhRawComplete(FinishPrep(p, t), t);
            && Inv(r, true, None) && !r.qcmd[t].active && !r.qcmd[t].failed
            && (forall i: nat :: i < ATA_MAX_QUEUE && i != t ==> r.qcmd[i] == p.qcmd[i])
            && r.mid == EhFinishCmd(SetRetries(p.mid, c, FinalRetries(p.qcmd[t], p.mid.scmds[c])), c)
  {
    FinishPrepKeeps(p, t, c);
    EhRawKeeps(FinishPrep(p, t), t, c);
  }

  /** What ata_eh_finish prepares: the retries are settled, a clean qc's taskfile is zeroed. */
  lemma FinishPrepKeeps(p: Port, t: nat, c: nat)
    requires Inv(p, true, None) && Owned(p, t) && t < ATA_TAG_INTERNAL && c < |p.mid.scmds|
    requires p.qcmd[t].failed && p.qcmd[t].scsicmd == Some(c)
    ensures Inv(FinishPrep(p, t), true, None)
    ensures var qc := p.qcmd[t];
            && FinishPrep(p, t).mid == SetRetries(p.mid, c, FinalRetries(qc, p.mid.scmds[c]))
            && FinishPrep(p, t).qcmd == p.qcmd[t := if qc.err == {} && !qc.sense then qc.(result := TF_ZERO) else qc]
  {
    hide FinishPrep, InvTags, InvRegs, InvQuiet, InvLink, InvMid, InvLife;
    var qc := p.qcmd[t];
    var qc' := if qc.err == {} && !qc.sense then qc.(result := TF_ZERO) else qc;
    var z := SetQc(p, t, qc');
    RewriteKeeps(p, t, qc');
    SetRetriesKeeps(z, c, FinalRetries(qc, p.mid.scmds[c]));
    FinishPrepIs(p, t, c);
  }

  lemma FinishPrepIs(p: Port, t: nat, c: nat)
    requires Owned(p, t) && p.qcmd[t].scsicmd == Some(c) && c < |p.mid.scmds|
    ensures var qc := p.qcmd[t];
            FinishPrep(p, t) ==
              SetQc(p, t, if qc.err == {} && !qc.sense then qc.(result := TF_ZERO) else qc)
                .(mid := SetRetries(p.mid, c, FinalRetries(qc, p.mid.scmds[c])))
  {
    hide OnlyTag;
    assert p.qcmd[t := p.qcmd[t]] == p.qcmd;
  }

  /** When no qc is active any more, eh_cmd_q is empty: the WARN_ON at the end of ata_scsi_error
      cannot fire. */
  lemma NothingLeft(p: Port)
    requires Inv(p, true, None) && forall i: nat :: i < ATA_MAX_QUEUE ==> !p.qcmd[i].active
    ensures p.mid.ehCmdQ == [] && p.mid.hostFailed == 0
    ensures forall c: nat :: c < |p.mid.scmds| ==> p.mid.scmds[c].phase in {OnDoneQ, Finished}
    ensures p.regs == IDLE_REGS && p.tags == {}
  {
    forall c: nat | c < |p.mid.scmds| ensures p.mid.scmds[c].phase in {OnDoneQ, Finished} {
    }
    if p.mid.ehCmdQ != [] {
      var c := p.mid.ehCmdQ[0];
      CountIn(p.mid.ehCmdQ, c);
    }
    assert p.regs.sactive == {};
    assert p.regs.qcActive == {};
    assert p.tags == {};
  }

  /** Flushing eh_done_q ends the session: every command is finished. */
  lemma FlushKeeps(p: Port)
    requires Inv(p, true, None) && forall i: nat :: i < ATA_MAX_QUEUE ==> !p.qcmd[i].active
    ensures Inv(p.(mid := FlushDoneQ(p.mid)), false, None)
    ensures forall c: nat :: c < |p.mid.scmds| ==> FlushDoneQ(p.mid).scmds[c].phase == Finished
  {
    NothingLeft(p);
    MidFlush(p.mid);
    var r := p.(mid := FlushDoneQ(p.mid));
    forall i: nat | i < ATA_TAG_INTERNAL ensures Linked(r.qcmd, r.mid.scmds, i) {}
  }

  // ---- timers ----

  lemma TimerKeeps(p: Port, c: nat)
    requires Inv(p, false, None) && c < |p.mid.scmds| && p.mid.scmds[c].phase == Armed
    ensures Inv(p.(mid := SetPhase(p.mid, c, Expired)), false, None)
  {
    var r := p.(mid := SetPhase(p.mid, c, Expired));
    forall i: nat | i < ATA_TAG_INTERNAL ensures Linked(r.qcmd, r.mid.scmds, i) {
      assert Linked(p.qcmd, p.mid.scmds, i);
    }
    forall d: nat | d < |r.mid.scmds| && r.mid.scmds[d].phase == Armed ensures HasQc(r.qcmd, r.mid.scmds, d) {
      assert HasQc(p.qcmd, p.mid.scmds, d);
    }
  }

  lemma TimeoutKeeps(p: Port, c: nat)
    requires Inv(p, false, None) && c < |p.mid.scmds| && p.mid.scmds[c].phase == Expired
    ensures Inv(p.(mid := EhScmdAdd(p.mid, c)), false, None)
  {
    var r := p.(mid := EhScmdAdd(p.mid, c));
    MidAdd(p.mid, c);
    forall i: nat | i < ATA_TAG_INTERNAL ensures Linked(r.qcmd, r.mid.scmds, i) {
      assert Linked(p.qcmd, p.mid.scmds, i);
    }
    forall d: nat | d < |r.mid.scmds| && r.mid.scmds[d].phase == Armed ensures HasQc(r.qcmd, r.mid.scmds, d) {
      assert HasQc(p.qcmd, p.mid.scmds, d);
    }
  }
}
