/** ata_eh_recover as it runs: the devices an array, the gotos loops. */
module EhRecovery {
  import opened Ata
  import opened EhRecover

  class Recovery {
    const devs: array<Dev>
    var soft: bool
    var hard: bool
    var didReset: bool

    ghost function Now(): Rec
      reads this, devs
    {
      Rec(devs[..], soft, hard, didReset)
    }

    constructor (ds: seq<Dev>, softReset: bool, hardReset: bool)
      ensures fresh(devs) && Now() == Rec(ds, softReset, hardReset, false)
    {
      devs := new Dev[|ds|](i requires 0 <= i < |ds| => ds[i]);
      soft, hard, didReset := softReset, hardReset, false;
    }

    /** The preparation loop. */
    method Prepare()
      modifies this, devs
      ensures Now() == Prep(old(Now()), true, devs.Length)
    {
      ghost var s := Now();
      var i := 0;
      while i < devs.Length
        invariant i <= devs.Length && Now() == Prep(s, true, i)
      {
        var d := devs[i].(tries := ATA_EH_DEV_TRIES);
        if d.detach { d := Detach(d, true); }
        if WantsProbe(d) {
          d := Init(Detach(d, true)).(didProbe := true);
          soft := true;
        }
        devs[i] := d;
        i := i + 1;
      }
    }

    /** ata_eh_revalidate_and_attach. */
    method RevalidateAndAttach(a: Pass, classes: seq<Class>) returns (fail: Option<(nat, Errno)>)
      requires |a.devs| >= devs.Length
      modifies devs
      ensures (Now(), fail) == Revalidate(old(Now()), a, classes, devs.Length)
      ensures fail.Some? ==> fail.value.0 < devs.Length
    {
      ghost var s := Now();
      fail := None;
      var i := 0;
      while i < devs.Length && fail.None?
        invariant i <= devs.Length && (Now(), fail) == Revalidate(s, a, classes, i)
      {
        var cls, rc := AttachOne(devs[i], a.devs[i], a.offline, classes, i);
        devs[i] := devs[i].(cls := cls);
        if rc.Some? { fail := Some((i, rc.value)); }
        i := i + 1;
      }
      StopsAtFailure(s, a, classes, i);
    }

    /** One device: revalidate it, attach it, or leave it alone. */
    static method AttachOne(d: Dev, w: DevAns, offline: bool, classes: seq<Class>, i: nat)
      returns (cls: Class, rc: Option<Errno>)
      ensures (cls, rc) == RevalidateDev(d, w, offline, classes, i)
    {
      cls, rc := d.cls, None;
      if Enabled(d.cls) && w.wanted {
        if offline { return cls, Some(EIo); }
        rc := w.reval;
      } else if d.cls == Unknown && d.tries != 0 && i < |classes| && Enabled(classes[i]) {
        cls := classes[i];
        rc := w.attach;
        cls := if rc.Some? then Unknown else if w.newClass == AtapiDev then AtapiDev else AtaDev;
      }
    }

    /** The switch on the error code. */
    static method ChargeOne(d0: Dev, rc: Errno, down: bool, xferGone: bool) returns (d: Dev)
      ensures d == Charged(d0, rc, down, xferGone)
    {
      match rc {
        case ENoDev => d := d0.(probe := true, tries := 0);
        case EInval => d := d0.(tries := 0);
        case _ =>
          d := d0.(tries := d0.tries - 1);
          if down && xferGone { d := d.(tries := 0); }
      }
    }

    /** A device out of chances; probed tells whether it starts afresh. */
    static method GiveUpOne(d0: Dev, offline: bool) returns (d: Dev, probed: bool)
      ensures d == GivenUp(d0, offline, true) && probed == (d0.probe && !d0.didProbe)
    {
      d := Disable(d0, true);
      if offline { d := Detach(d, true); }
      probed := d.probe && !d.didProbe;
      if probed { d := Init(Detach(d, true)).(tries := ATA_EH_DEV_TRIES, didProbe := true); }
    }

    /** Label dev_fail. */
    method Fail(i: nat, rc: Errno, down: bool, a: Pass)
      requires i < devs.Length
      modifies this, devs
      ensures Now() == DevFail(old(Now()), i, rc, down, a, true)
    {
      hide GivenUp, Charged, Disable, Detach, DevFail;
      ghost var s := Now();
      var d := ChargeOne(devs[i], rc, down, a.xferGone);
      if Enabled(d.cls) && d.tries == 0 {
        var probed;
        d, probed := GiveUpOne(d, a.offline);
        if probed { soft := true; }
      } else if didReset {
        hard := true;
      } else {
        soft := true;
      }
      devs[i] := d;
      assert devs[..] == s.devs[i := d];
      FailShape(s, Now(), i, rc, down, a);
    }

    /** One pass from label retry; done tells whether recovery is over. */
    method TryOnce(a: Pass) returns (done: bool, rc: Option<Errno>)
      requires |a.devs| >= devs.Length
      modifies this, devs
      ensures (if done then Over(Now(), rc) else EhRecover.Retry(Now())) == Attempt(old(Now()), a, true)
    {
      hide DevFail, Revalidate;
      done, rc := true, None;
      if a.unloading { return; }
      if a.skip { soft, hard := false, false; }
      var classes := [];
      if soft || hard {
        match a.reset {
          case ResetFailed(e) =>
            ghost var s := Now();
            forall i | 0 <= i < devs.Length { devs[i] := Disable(devs[i], true); }
            assert Now().devs == DisableAll(s, true).devs;
            return true, Some(e);
          case ResetOk(cs) =>
            soft, hard, didReset, classes := false, false, true, cs;
          case NotWanted =>
            soft, hard := false, false;
        }
      }
      var fail := RevalidateAndAttach(a, classes);
      if fail.Some? {
        Fail(fail.value.0, fail.value.1, false, a);
        done := false;
      } else if didReset && a.setMode.Some? && a.setMode.value.0 < devs.Length && Enabled(devs[a.setMode.value.0].cls) {
        Fail(a.setMode.value.0, a.setMode.value.1, true, a);
        done := false;
      }
    }

    /** ata_eh_recover: the loop ends because the measure goes down with every retry. */
    method Recover(script: Script) returns (rc: Option<Errno>, passes: nat)
      requires Fits(devs.Length, script)
      modifies this, devs
      ensures Inv(Prep(old(Now()), true, devs.Length))
      ensures (Now(), rc, passes) == RecoverFrom(Prep(old(Now()), true, devs.Length), script, 0)
      ensures passes <= 6 * devs.Length + 1
    {
      hide Attempt, Prep;
      ghost var s := Now();
      Prepare();
      PrepInv(s);
      ghost var start := Now();
      RecoverEnds(start, script, 0);
      passes := 0;
      while true
        invariant Inv(Now()) && RecoverFrom(start, script, 0) == RecoverFrom(Now(), script, passes)
        decreases Measure(devs[..])
      {
        assert |script(passes).devs| >= devs.Length;
        AttemptDescends(Now(), script(passes));
        NotNegative(Now());
        var done;
        done, rc := TryOnce(script(passes));
        passes := passes + 1;
        if done { return; }
      }
    }
  }

  /** DevFail, field by field. */
  lemma FailShape(s: Rec, r: Rec, i: nat, rc: Errno, down: bool, a: Pass)
    requires i < |s.devs| && r.didReset == s.didReset
    requires var d := Charged(s.devs[i], rc, down, a.xferGone);
             && r.devs == s.devs[i := if UsedUp(d) then GivenUp(d, a.offline, true) else d]
             && r.soft == (s.soft || (if UsedUp(d) then d.probe && !d.didProbe else !s.didReset))
             && r.hard == (s.hard || (!UsedUp(d) && s.didReset))
    ensures r == DevFail(s, i, rc, down, a, true)
  {
    hide GivenUp, Charged;
  }

  /** Once a device has failed the loop over the others stops. */
  lemma {:induction false} StopsAtFailure(s: Rec, a: Pass, classes: seq<Class>, n: nat)
    requires n <= |s.devs| && |a.devs| >= |s.devs|
    ensures Revalidate(s, a, classes, n).1.Some? ==> Revalidate(s, a, classes, |s.devs|) == Revalidate(s, a, classes, n)
    decreases |s.devs| - n
  {
    if n < |s.devs| { StopsAtFailure(s, a, classes, n + 1); }
  }
}
