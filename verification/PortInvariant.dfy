/**
 What every reachable state of a port keeps, stated on the fields each part is about, and how
 the elementary updates keep each part.

 `ehOn` says that the error handler runs (timeouts are sorted out); `saved` holds the fields
 ata_exec_internal has put aside while an internal command is outstanding.
 */
module PortInvariant {
  import opened Ata
  import opened PortModel

  type Qcs = q: seq<Qc> | |q| == ATA_MAX_QUEUE
    witness seq(ATA_MAX_QUEUE, _ => Qc(0, false, false, false, false, {}, None, ScsiDone, 0, TF_ZERO))

  /** The queue bitmaps agree with the ACTIVE flags of tags lo..hi, and NCQ and non-NCQ commands
      exclude each other. */
  ghost predicate RegsOk(r: Regs, q: Qcs, lo: nat, hi: nat)
    requires hi <= ATA_MAX_QUEUE
  {
    && (forall i: nat :: i in r.qcActive <==> lo <= i < hi && q[i].active)
    && (forall i: nat :: i in r.sactive <==> lo <= i < hi && q[i].active && q[i].ncq)
    && (forall i: nat :: lo <= i < hi && q[i].active && !q[i].ncq ==> r.activeTag == i)
    && (if TagValid(r.activeTag)
        then lo <= r.activeTag < hi && q[r.activeTag].active && !q[r.activeTag].ncq && r.sactive == {}
        else r.activeTag == ATA_TAG_POISON)
  }

  ghost predicate InvRegs(r: Regs, q: Qcs, saved: Option<Regs>) {
    match saved
    case None => RegsOk(r, q, 0, ATA_MAX_QUEUE)
    case Some(s) => RegsOk(s, q, 0, ATA_TAG_INTERNAL) && RegsOk(r, q, ATA_TAG_INTERNAL, ATA_MAX_QUEUE)
  }

  ghost predicate InvTags(q: Qcs, tags: set<nat>, internal: bool) {
    && (forall i: nat :: i in tags ==> i < ATA_MAX_QUEUE && q[i].tag == i)
    && (forall i: nat :: i < ATA_TAG_INTERNAL ==> (i in tags <==> q[i].active))
    && (forall i: nat :: i < ATA_TAG_INTERNAL && q[i].failed ==> q[i].active)
    && (ATA_TAG_INTERNAL in tags <==> internal)
    && (q[ATA_TAG_INTERNAL].active ==> internal && !q[ATA_TAG_INTERNAL].failed)
    && (!internal ==> !q[ATA_TAG_INTERNAL].failed)
  }

  /** Every active qc below n belongs to the error handler. */
  ghost predicate AllFailed(q: Qcs, n: nat)
    requires n <= ATA_MAX_QUEUE
  {
    forall i: nat :: i < n && q[i].active ==> q[i].failed
  }

  ghost predicate InvQuiet(q: Qcs, frozen: bool, ehOn: bool) {
    (frozen ==> AllFailed(q, ATA_MAX_QUEUE)) && (ehOn ==> AllFailed(q, ATA_TAG_INTERNAL))
  }

  /** Qc i, if active, serves its own SCSI command; if failed, the timer is out of the way. */
  ghost predicate Linked(q: Qcs, s: seq<Scmd>, i: nat)
    requires i < ATA_MAX_QUEUE
  {
    q[i].active ==>
      && q[i].scsicmd.Some? && q[i].done == ScsiDone
      && var c := q[i].scsicmd.value;
         c < |s| && s[c].tag == i && s[c].phase in {Armed, Expired, OnEhQ}
         && (q[i].failed ==> s[c].phase != Armed)
  }

  ghost predicate HasQc(q: Qcs, s: seq<Scmd>, c: nat)
    requires c < |s|
  {
    var t := s[c].tag;
    t < ATA_TAG_INTERNAL && q[t].active && q[t].scsicmd == Some(c)
  }

  /** Every active qc has its SCSI command, every command whose timer runs has its qc; on entry to
      the error handler and after it, so has every command on eh_cmd_q. */
  ghost predicate InvLink(q: Qcs, s: seq<Scmd>, internal: bool, ehOn: bool) {
    && (forall i: nat :: i < ATA_TAG_INTERNAL ==> Linked(q, s, i))
    && (forall c: nat :: c < |s| && (s[c].phase == Armed || (ehOn && s[c].phase == OnEhQ)) ==> HasQc(q, s, c))
    && (ehOn ==> forall c: nat :: c < |s| ==> s[c].phase != Armed && s[c].phase != Expired)
    && (internal ==> q[ATA_TAG_INTERNAL].scsicmd == None)
  }

  function One(b: bool): nat { if b then 1 else 0 }

  ghost predicate InvMid(m: Mid) {
    && m.hostFailed == |m.ehCmdQ|
    && (forall c :: c in m.ehCmdQ || c in m.ehDoneQ ==> c < |m.scmds|)
    && (forall c :: 0 <= c < |m.scmds| ==> multiset(m.ehCmdQ)[c] == One(m.scmds[c].phase == OnEhQ))
    && (forall c :: 0 <= c < |m.scmds| ==> multiset(m.ehDoneQ)[c] == One(m.scmds[c].phase == OnDoneQ))
    && (forall c :: 0 <= c < |m.scmds| ==> m.scmds[c].dones == One(m.scmds[c].phase == Finished))
  }

  /** Serial n is over (freed once; completed once if it was issued) or is the current holder of its tag. */
  ghost predicate LifeOk(q: Qcs, tags: set<nat>, life: seq<Life>, n: nat)
    requires n < |life|
  {
    var l := life[n];
    if l.frees == 0
    then l.tag < ATA_MAX_QUEUE && l.tag in tags && q[l.tag].serial == n && l.issued
         && l.completions == One(!q[l.tag].active)
    else l.frees == 1 && l.completions == One(l.issued)
  }

  ghost predicate InvLife(q: Qcs, tags: set<nat>, life: seq<Life>) {
    && (forall n: nat :: n < |life| ==> LifeOk(q, tags, life, n))
    && (forall i: nat :: i < ATA_MAX_QUEUE && i in tags ==>
          q[i].serial < |life| && life[q[i].serial].frees == 0 && life[q[i].serial].tag == i)
  }

  ghost predicate Inv(p: Port, ehOn: bool, saved: Option<Regs>) {
    && WellFormed(p)
    && InvTags(p.qcmd, p.tags, saved.Some?)
    && InvRegs(p.regs, p.qcmd, saved)
    && InvQuiet(p.qcmd, p.frozen, ehOn)
    && InvLink(p.qcmd, p.mid.scmds, saved.Some?, ehOn)
    && InvMid(p.mid)
    && InvLife(p.qcmd, p.tags, p.life)
    && !p.warned
  }

  // ---- the midlayer queues ----

  lemma {:induction false} WithoutCount(q: seq<nat>, c: nat)
    requires c in q
    ensures multiset(Without(q, c)) == multiset(q) - multiset{c} && |Without(q, c)| == |q| - 1
    ensures forall d :: d in Without(q, c) ==> d in q
  {
    assert q == [q[0]] + q[1..];
    if q[0] != c { WithoutCount(q[1..], c); }
  }

  lemma CountIn(q: seq<nat>, c: nat)
    ensures c in q <==> multiset(q)[c] > 0
  {
    assert c in q <==> c in multiset(q);
  }

  lemma MidAdd(m: Mid, c: nat)
    requires InvMid(m) && c < |m.scmds| && m.scmds[c].phase in {Armed, Expired}
    ensures InvMid(EhScmdAdd(m, c))
  {
    assert multiset(m.ehCmdQ + [c]) == multiset(m.ehCmdQ) + multiset{c};
  }

  lemma MidFinish(m: Mid, c: nat)
    requires InvMid(m) && c < |m.scmds| && m.scmds[c].phase == OnEhQ
    ensures InvMid(EhFinishCmd(m, c))
  {
    CountIn(m.ehCmdQ, c);
    WithoutCount(m.ehCmdQ, c);
    assert multiset(m.ehDoneQ + [c]) == multiset(m.ehDoneQ) + multiset{c};
  }

  lemma MidFlush(m: Mid)
    requires InvMid(m)
    ensures InvMid(FlushDoneQ(m))
    ensures forall c :: 0 <= c < |m.scmds| ==>
              FlushDoneQ(m).scmds[c].phase == if m.scmds[c].phase == OnDoneQ then Finished else m.scmds[c].phase
  {
    forall c | 0 <= c < |m.scmds|
      ensures c in m.ehDoneQ <==> m.scmds[c].phase == OnDoneQ
    {
      CountIn(m.ehDoneQ, c);
    }
  }

  // ---- queue bitmaps ----

  lemma RegsSame(r: Regs, q: Qcs, q': Qcs, lo: nat, hi: nat)
    requires hi <= ATA_MAX_QUEUE && RegsOk(r, q, lo, hi)
    requires forall i: nat :: lo <= i < hi ==> q'[i].active == q[i].active && (q[i].active ==> q'[i].ncq == q[i].ncq)
    ensures RegsOk(r, q', lo, hi)
  {
  }

  /** __ata_qc_complete. */
  function RegsDone(r: Regs, t: nat, ncq: bool): Regs {
    Regs(if ncq then r.activeTag else ATA_TAG_POISON, if ncq then r.sactive - {t} else r.sactive, r.qcActive - {t})
  }

  lemma RegsDrop(r: Regs, q: Qcs, q': Qcs, lo: nat, hi: nat, t: nat)
    requires hi <= ATA_MAX_QUEUE && RegsOk(r, q, lo, hi) && lo <= t < hi && q[t].active
    requires !q'[t].active && forall i: nat :: lo <= i < hi && i != t ==> q'[i] == q[i]
    ensures RegsOk(RegsDone(r, t, q[t].ncq), q', lo, hi)
  {
    var r' := RegsDone(r, t, q[t].ncq);
    assert forall i: nat :: i in r'.qcActive <==> i in r.qcActive && i != t;
    assert forall i: nat :: i in r'.sactive <==> i in r.sactive && (i != t || !q[t].ncq);
  }

  function RegsIssue(r: Regs, t: nat, ncq: bool): Regs {
    Regs(if ncq then r.activeTag else t, if ncq then r.sactive + {t} else r.sactive, r.qcActive + {t})
  }

  /** ata_qc_issue keeps the bitmaps exactly when none of its three WARN_ONs fires. */
  ghost predicate MayIssue(r: Regs, t: nat, ncq: bool) {
    !TagValid(r.activeTag) && (if ncq then t !in r.sactive else r.sactive == {})
  }

  lemma RegsAdd(r: Regs, q: Qcs, q': Qcs, lo: nat, hi: nat, t: nat)
    requires hi <= ATA_MAX_QUEUE && RegsOk(r, q, lo, hi) && lo <= t < hi && !q[t].active
    requires q'[t].active && forall i: nat :: lo <= i < hi && i != t ==> q'[i] == q[i]
    ensures RegsOk(RegsIssue(r, t, q'[t].ncq), q', lo, hi) <==> MayIssue(r, t, q'[t].ncq)
  {
    var r' := RegsIssue(r, t, q'[t].ncq);
    assert forall i: nat :: i in r'.qcActive <==> i in r.qcActive || i == t;
    assert forall i: nat :: i in r'.sactive <==> i in r.sactive || (i == t && q'[t].ncq);
    if TagValid(r.activeTag) { assert q'[r.activeTag].active; }
    if !q'[t].ncq && r.sactive != {} { var i :| i in r.sactive; assert i in r'.sactive; }
  }

  // ---- bookkeeping of allocations ----

  lemma LifeSame(q: Qcs, q': Qcs, tags: set<nat>, life: seq<Life>)
    requires InvLife(q, tags, life)
    requires forall i: nat :: i < ATA_MAX_QUEUE ==> q'[i].active == q[i].active && q'[i].serial == q[i].serial
    ensures InvLife(q', tags, life)
  {
    forall n: nat | n < |life| ensures LifeOk(q', tags, life, n) { assert LifeOk(q, tags, life, n); }
  }

  /** A completion without release (internal command). */
  lemma LifeComplete(q: Qcs, q': Qcs, tags: set<nat>, life: seq<Life>, t: nat)
    requires InvLife(q, tags, life) && t < ATA_MAX_QUEUE && t in tags && q[t].active
    requires !q'[t].active && q'[t].serial == q[t].serial
    requires forall i: nat :: i < ATA_MAX_QUEUE && i != t ==> q'[i] == q[i]
    ensures InvLife(q', tags, life[q[t].serial := life[q[t].serial].(completions := life[q[t].serial].completions + 1)])
  {
    var n0 := q[t].serial;
    var life' := life[n0 := life[n0].(completions := life[n0].completions + 1)];
    forall n: nat | n < |life'| ensures LifeOk(q', tags, life', n) { assert LifeOk(q, tags, life, n); }
  }

  /** A release after the completion callback. */
  lemma LifeFree(q: Qcs, q': Qcs, tags: set<nat>, life: seq<Life>, t: nat)
    requires InvLife(q, tags, life) && t < ATA_MAX_QUEUE && t in tags && !q[t].active
    requires forall i: nat :: i < ATA_MAX_QUEUE && i != t ==> q'[i] == q[i]
    ensures InvLife(q', tags - {t}, life[q[t].serial := life[q[t].serial].(frees := life[q[t].serial].frees + 1)])
  {
    var n0 := q[t].serial;
    var life' := life[n0 := life[n0].(frees := life[n0].frees + 1)];
    forall n: nat | n < |life'| ensures LifeOk(q', tags - {t}, life', n) { assert LifeOk(q, tags, life, n); }
  }

  /** A slot is taken and its command issued. */
  lemma LifeTake(q: Qcs, q': Qcs, tags: set<nat>, life: seq<Life>, t: nat)
    requires InvLife(q, tags, life) && t < ATA_MAX_QUEUE && t !in tags
    requires q'[t].serial == |life| && q'[t].active
    requires forall i: nat :: i < ATA_MAX_QUEUE && i != t ==> q'[i] == q[i]
    ensures InvLife(q', tags + {t}, life + [Life(t, true, 0, 0)])
  {
    var life' := life + [Life(t, true, 0, 0)];
    forall n: nat | n < |life'| ensures LifeOk(q', tags + {t}, life', n) {
      if n < |life| { assert LifeOk(q, tags, life, n); }
    }
  }

  /** A slot is taken and given back without a command. */
  lemma LifeBounce(q: Qcs, q': Qcs, tags: set<nat>, life: seq<Life>, t: nat)
    requires InvLife(q, tags, life) && t < ATA_MAX_QUEUE && t !in tags
    requires forall i: nat :: i < ATA_MAX_QUEUE && i != t ==> q'[i] == q[i]
    ensures InvLife(q', tags, life + [Life(t, false, 0, 1)])
  {
    var life' := life + [Life(t, false, 0, 1)];
    forall n: nat | n < |life'| ensures LifeOk(q', tags, life', n) {
      if n < |life| { assert LifeOk(q, tags, life, n); }
    }
  }
}
