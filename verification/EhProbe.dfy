/** What ata_eh_recover makes of the requests it finds, device by device: detach and probe requests
    in the preparation, and a whole pass from label retry in terms of the devices' own fields. */
module EhProbe {
  import opened Ata
  import opened EhRecover

  // ---- preparation ----

  predicate InUse(d: Dev) { d.cls == AtaDev || d.cls == AtapiDev }

  /** A probe is requested and due for a device that is out of use, or is about to be detached. */
  predicate ToProbe(d: Dev) { (d.detach || !InUse(d)) && d.probe && !d.didProbe }

  /** The class of a device that is taken out of use. */
  function OutOfUse(c: Class): Class { if c == AtaDev then AtaUnsup else if c == AtapiDev then AtapiUnsup else c }

  /** What preparation makes of one device. */
  predicate Prepared(d: Dev, r: Dev) {
    && r.probe == d.probe && r.tries == 3 && !r.detach
    && (ToProbe(d) ==> r.cls == Unknown && r.didProbe)
    && (!ToProbe(d) ==> r.didProbe == d.didProbe && r.cls == if d.detach then OutOfUse(d.cls) else d.cls)
  }

  lemma PreparesDev(d: Dev)
    ensures Prepared(d, PrepDev(d, true))
  {
  }

  lemma {:induction false} SoftIff(s: Rec, n: nat)
    requires n <= |s.devs|
    ensures var r := Prep(s, true, n);
            && r.hard == s.hard && r.didReset == s.didReset
            && (r.soft <==> s.soft || exists i :: 0 <= i < n && ToProbe(s.devs[i]))
  {
    if n > 0 {
      PrepKeeps(s, n - 1);
      SoftIff(s, n - 1);
    }
  }

  /** Preparation: every device has its three tries; a detach request takes the device out of use and
      is off the list; a device that is then out of use and is to be probed for the first time loses
      its class and counts as probed; nothing else changes but one thing: a soft reset is on order as
      soon as there is something to probe, and is not ordered otherwise. */
  lemma Prepares(s: Rec)
    ensures var r := Prep(s, true, |s.devs|);
            && (forall i :: 0 <= i < |s.devs| ==> Prepared(s.devs[i], r.devs[i]))
            && r.hard == s.hard && r.didReset == s.didReset
            && (r.soft <==> s.soft || exists i :: 0 <= i < |s.devs| && ToProbe(s.devs[i]))
  {
    hide PrepDev;
    PrepKeeps(s, |s.devs|);
    SoftIff(s, |s.devs|);
    forall i | 0 <= i < |s.devs| ensures Prepared(s.devs[i], Prep(s, true, |s.devs|).devs[i]) {
      PreparesDev(s.devs[i]);
    }
  }

  // ---- one pass ----

  predicate ResetWanted(s: Rec, a: Pass) { !a.skip && (s.soft || s.hard) }

  predicate ResetDone(s: Rec, a: Pass) { ResetWanted(s, a) && a.reset.ResetOk? }

  /** The reset of this pass has found something new behind port i. */
  predicate Newcomer(s: Rec, a: Pass, i: nat)
    requires i < |s.devs|
  {
    && ResetDone(s, a) && i < |a.reset.classes| && a.reset.classes[i] in {AtaDev, AtapiDev}
    && s.devs[i].cls == Unknown && s.devs[i].tries != 0
  }

  /** The error of device i in this pass: its revalidation if it is in use, its attachment if it is a
      newcomer. */
  function Failure(s: Rec, a: Pass, i: nat): Option<Errno>
    requires i < |s.devs| <= |a.devs|
  {
    if InUse(s.devs[i]) then
      if !a.devs[i].wanted then None else if a.offline then Some(EIo) else a.devs[i].reval
    else if Newcomer(s, a, i) then a.devs[i].attach
    else None
  }

  /** The class of device i if nothing has gone wrong: a newcomer has what its IDENTIFY data say. */
  function ClassAfter(s: Rec, a: Pass, i: nat): Class
    requires i < |s.devs| <= |a.devs|
  {
    if Newcomer(s, a, i) then (if a.devs[i].newClass == AtapiDev then AtapiDev else AtaDev) else s.devs[i].cls
  }

  /** The devices below n are done: each has its new class. */
  ghost predicate Done(s: Rec, a: Pass, r: Rec, n: nat)
    requires n <= |s.devs| == |r.devs| <= |a.devs|
  {
    forall j :: 0 <= j < n ==> Failure(s, a, j).None? && r.devs[j] == s.devs[j].(cls := ClassAfter(s, a, j))
  }

  ghost predicate Untouched(s: Rec, r: Rec, n: nat)
    requires n <= |s.devs| == |r.devs|
  {
    forall j :: n <= j < |s.devs| ==> r.devs[j] == s.devs[j]
  }

  function Reset(s: Rec, a: Pass): Rec {
    Rec(s.devs, if a.skip || ResetWanted(s, a) then false else s.soft, if a.skip || ResetWanted(s, a) then false else s.hard,
        s.didReset || ResetDone(s, a))
  }

  function Classes(s: Rec, a: Pass): seq<Class> { if ResetDone(s, a) then a.reset.classes else [] }

  lemma OneDev(s: Rec, a: Pass, i: nat)
    requires i < |s.devs| <= |a.devs|
    ensures var (cls, rc) := RevalidateDev(s.devs[i], a.devs[i], a.offline, Classes(s, a), i);
            rc == Failure(s, a, i) && (rc.None? ==> cls == ClassAfter(s, a, i)) && (rc.Some? ==> cls == s.devs[i].cls)
  {
  }

  /** Device after device, until one fails. */
  lemma {:induction false} EachDev(s: Rec, a: Pass, n: nat)
    requires n <= |s.devs| <= |a.devs|
    ensures var (r, fail) := Revalidate(Reset(s, a), a, Classes(s, a), n);
            && r == Reset(s, a).(devs := r.devs)
            && (fail.None? ==> Done(s, a, r, n) && Untouched(s, r, n))
            && (fail.Some? ==> var i := fail.value.0;
                  i < n && Done(s, a, r, i) && Untouched(s, r, i) && Failure(s, a, i) == Some(fail.value.1))
  {
    hide RevalidateDev, Failure, ClassAfter, Reset;
    assert Reset(s, a).devs == s.devs by { ResetDevs(s, a); }
    if n > 0 {
      EachDev(s, a, n - 1);
      var (q, fail) := Revalidate(Reset(s, a), a, Classes(s, a), n - 1);
      if fail.None? {
        assert q.devs[n - 1] == s.devs[n - 1];
        OneDev(s, a, n - 1);
      }
    }
  }

  lemma ResetDevs(s: Rec, a: Pass)
    ensures Reset(s, a).devs == s.devs
  {
  }

  /** Setting the transfer mode, done once there has been a reset, blames device i: it is in use. */
  predicate ModeBlames(s: Rec, a: Pass, r: Rec)
    requires |r.devs| == |s.devs|
  {
    && (s.didReset || ResetDone(s, a)) && a.setMode.Some?
    && a.setMode.value.0 < |s.devs| && InUse(r.devs[a.setMode.value.0])
  }

  predicate ResetFails(s: Rec, a: Pass) { ResetWanted(s, a) && a.reset.ResetFailed? }

  /** The devices when the loop of ata_eh_revalidate_and_attach stops; fail: what stopped it. */
  ghost predicate Revalidated(s: Rec, a: Pass, r: Rec, fail: Option<(nat, Errno)>)
    requires |s.devs| == |r.devs| <= |a.devs|
  {
    match fail
    case None => Done(s, a, r, |s.devs|)
    case Some((i, rc)) => i < |s.devs| && Done(s, a, r, i) && Untouched(s, r, i) && Failure(s, a, i) == Some(rc)
  }

  /** A whole pass.  Recovery is over at once if the port is being unloaded, and with the reset's
      error and all devices out of use if a reset is wanted and fails.  Otherwise the devices are
      revalidated or attached up to the first that fails; recovery is over without an error if none
      does and no transfer mode either, and goes to dev_fail with the device to blame if one does. */
  lemma PassMeans(s: Rec, a: Pass)
    requires |a.devs| >= |s.devs|
    ensures var o := Attempt(s, a, true);
            && (a.unloading ==> o == Over(s, None))
            && (!a.unloading && ResetFails(s, a) ==>
                  && o.Over? && o.rc == Some(a.reset.rc)
                  && forall i :: 0 <= i < |s.devs| ==> o.s.devs[i] == s.devs[i].(cls := OutOfUse(s.devs[i].cls)))
            && (!a.unloading && !ResetFails(s, a) ==>
                  exists r: Rec, fail: Option<(nat, Errno)> ::
                    && |r.devs| == |s.devs| && r == Reset(s, a).(devs := r.devs) && Revalidated(s, a, r, fail)
                    && match fail
                       case Some((i, rc)) => o == Retry(DevFail(r, i, rc, false, a, true))
                       case None =>
                         if ModeBlames(s, a, r) then o == Retry(DevFail(r, a.setMode.value.0, a.setMode.value.1, true, a, true))
                         else o == Over(r, None))
  {
    hide Revalidate, DevFail, Failure, ClassAfter;
    if !a.unloading && !ResetFails(s, a) {
      EachDev(s, a, |s.devs|);
      var (r, fail) := Revalidate(Reset(s, a), a, Classes(s, a), |s.devs|);
      assert Revalidated(s, a, r, fail);
    }
  }

  /** What becomes of a device that was found with a probe request: if nothing fails in the first pass
      and its reset finds a device there, the device is in use afterwards; and the first pass does want
      a reset unless recovery is skipped. */
  lemma ProbedComesIntoUse(s: Rec, a: Pass, i: nat)
    requires i < |s.devs| <= |a.devs| && ToProbe(s.devs[i])
    requires !a.unloading && !a.skip
    ensures var p := Prep(s, true, |s.devs|);
            var o := Attempt(p, a, true);
            && ResetWanted(p, a)
            && (a.reset.ResetOk? && o.Over? && i < |a.reset.classes| && a.reset.classes[i] in {AtaDev, AtapiDev} ==>
                  && a.devs[i].attach.None? && InUse(o.s.devs[i])
                  && (o.s.devs[i].cls == AtapiDev <==> a.devs[i].newClass == AtapiDev))
  {
    hide Attempt, Prep, DevFail;
    Prepares(s);
    var p := Prep(s, true, |s.devs|);
    assert p.soft;
    PassMeans(p, a);
    var o := Attempt(p, a, true);
    if a.reset.ResetOk? && o.Over? && i < |a.reset.classes| && a.reset.classes[i] in {AtaDev, AtapiDev} {
      assert Prepared(s.devs[i], p.devs[i]);
      assert Newcomer(p, a, i);
      assert Done(p, a, o.s, |p.devs|);
      assert Failure(p, a, i).None? && o.s.devs[i] == p.devs[i].(cls := ClassAfter(p, a, i));
    }
  }
}
