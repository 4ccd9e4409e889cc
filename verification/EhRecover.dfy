/**
 The recovery loop of libata's error handler (ata_eh_recover): reset, revalidate or attach, set
 transfer modes, and on a failing device fall back and retry.  What the hardware answers in each
 pass is an arbitrary `Pass`.
 */
module EhRecover {
  import opened Ata

  const ATA_EH_DEV_TRIES: int := 3

  /** dev->class. */
  datatype Class = Unknown | AtaDev | AtaUnsup | AtapiDev | AtapiUnsup | NoDev

  predicate Enabled(c: Class) { c == AtaDev || c == AtapiDev }

  datatype Errno = ENoDev | EInval | EIo | EOther

  /** A device with ehc->tries[], its bits of probe_mask and did_probe_mask, and ATA_DFLAG_DETACH. */
  datatype Dev = Dev(cls: Class, tries: int, probe: bool, didProbe: bool, detach: bool)

  /** The port during recovery: its devices, the reset bits of ehc->i.action, ATA_EHI_DID_RESET. */
  datatype Rec = Rec(devs: seq<Dev>, soft: bool, hard: bool, didReset: bool)

  /** How ata_eh_reset ends; see module EhReset for the inside. */
  datatype ResetAns = NotWanted | ResetOk(classes: seq<Class>) | ResetFailed(rc: Errno)

  /** Per device: does its action ask for revalidation of a ready device, and how does that, or an
      attach, end. */
  datatype DevAns = DevAns(wanted: bool, reval: Option<Errno>, attach: Option<Errno>, newClass: Class)

  /** Everything one pass learns from outside. */
  datatype Pass = Pass(unloading: bool, skip: bool, reset: ResetAns, devs: seq<DevAns>,
                       setMode: Option<(nat, Errno)>, xferGone: bool, offline: bool)

  // ---- devices ----

  /** ata_dev_disable; it does nothing when driver messages are masked out (msg). */
  function Disable(d: Dev, msg: bool): Dev {
    if !msg then d
    else
      match d.cls
      case AtaDev => d.(cls := AtaUnsup)
      case AtapiDev => d.(cls := AtapiUnsup)
      case _ => d
  }

  function Detach(d: Dev, msg: bool): Dev { Disable(d, msg).(detach := false) }

  /** ata_dev_init forgets the device's class. */
  function Init(d: Dev): Dev { d.(cls := Unknown) }

  // ---- preparation ----

  predicate WantsProbe(d: Dev) { !Enabled(d.cls) && d.probe && !d.didProbe }

  function PrepDev(d: Dev, msg: bool): Dev {
    var d1 := d.(tries := ATA_EH_DEV_TRIES);
    var d2 := if d1.detach then Detach(d1, msg) else d1;
    if WantsProbe(d2) then Init(Detach(d2, msg)).(didProbe := true) else d2
  }

  /** The preparation loop over devices below n. */
  function Prep(s: Rec, msg: bool, n: nat): (r: Rec)
    requires n <= |s.devs|
    ensures |r.devs| == |s.devs|
  {
    if n == 0 then s else
    var q := Prep(s, msg, n - 1);
    var d := q.devs[n - 1];
    var probed := WantsProbe(if d.detach then Detach(d.(tries := ATA_EH_DEV_TRIES), msg) else d.(tries := ATA_EH_DEV_TRIES));
    q.(devs := q.devs[n - 1 := PrepDev(d, msg)], soft := q.soft || probed)
  }

  // ---- one pass ----

  /** A device that is attached: read_id may settle on either class. */
  function Attached(c: Class): Class { if c == AtapiDev then AtapiDev else AtaDev }

  predicate Attaches(d: Dev, classes: seq<Class>, i: nat) {
    d.cls == Unknown && d.tries != 0 && i < |classes| && Enabled(classes[i])
  }

  /** One device of ata_eh_revalidate_and_attach: its class afterwards and why it failed, if it did. */
  function RevalidateDev(d: Dev, w: DevAns, offline: bool, classes: seq<Class>, i: nat): (Class, Option<Errno>) {
    if Enabled(d.cls) && w.wanted then (d.cls, if offline then Some(EIo) else w.reval)
    else if Attaches(d, classes, i) then
      if w.attach.Some? then (Unknown, w.attach) else (Attached(w.newClass), None)
    else (d.cls, None)
  }

  /** ata_eh_revalidate_and_attach over devices below n, with the failing device. */
  function Revalidate(s: Rec, a: Pass, classes: seq<Class>, n: nat): (r: (Rec, Option<(nat, Errno)>))
    requires n <= |s.devs| && |a.devs| >= |s.devs|
    ensures |r.0.devs| == |s.devs| && (r.1.Some? ==> r.1.value.0 < |s.devs|)
  {
    if n == 0 then (s, None) else
    var (q, fail) := Revalidate(s, a, classes, n - 1);
    if fail.Some? then (q, fail)
    else
      var (cls, rc) := RevalidateDev(q.devs[n - 1], a.devs[n - 1], a.offline, classes, n - 1);
      (q.(devs := q.devs[n - 1 := q.devs[n - 1].(cls := cls)]), if rc.Some? then Some((n - 1, rc.value)) else None)
  }

  /** The tries of a device that has failed. */
  function Charged(d: Dev, rc: Errno, down: bool, xferGone: bool): Dev {
    match rc
    case ENoDev => d.(probe := true, tries := 0)
    case EInval => d.(tries := 0)
    case _ => d.(tries := if down && xferGone then 0 else d.tries - 1)
  }

  predicate UsedUp(d: Dev) { Enabled(d.cls) && d.tries == 0 }

  /** A device that is given up: disabled, and started afresh if probing is wanted and was not done
      before. */
  function GivenUp(d: Dev, offline: bool, msg: bool): Dev {
    var d' := if offline then Detach(Disable(d, msg), msg) else Disable(d, msg);
    if d'.probe && !d'.didProbe then Init(Detach(d', msg)).(tries := ATA_EH_DEV_TRIES, didProbe := true) else d'
  }

  /** Label dev_fail. */
  function DevFail(s: Rec, i: nat, rc: Errno, down: bool, a: Pass, msg: bool): (r: Rec)
    requires i < |s.devs|
    ensures |r.devs| == |s.devs|
  {
    var d := Charged(s.devs[i], rc, down, a.xferGone);
    if UsedUp(d) then
      var d' := GivenUp(d, a.offline, msg);
      s.(devs := s.devs[i := d'], soft := s.soft || (d.probe && !d.didProbe))
    else if s.didReset then s.(devs := s.devs[i := d], hard := true)
    else s.(devs := s.devs[i := d], soft := true)
  }

  function DisableAll(s: Rec, msg: bool): Rec {
    s.(devs := seq(|s.devs|, i requires 0 <= i < |s.devs| => Disable(s.devs[i], msg)))
  }

  /** Where a pass leads: out of recovery with rc, or to dev_fail and back to label retry. */
  datatype Outcome = Over(s: Rec, rc: Option<Errno>) | Retry(s: Rec)

  /** The pass from label retry until a device fails or recovery is over. */
  function Attempt(s: Rec, a: Pass, msg: bool): (r: Outcome)
    requires |a.devs| >= |s.devs|
    ensures |r.s.devs| == |s.devs|
  {
    if a.unloading then Over(s, None)
    else
      var s0 := if a.skip then s.(soft := false, hard := false) else s;
      var wants := s0.soft || s0.hard;
      if wants && a.reset.ResetFailed? then Over(DisableAll(s0, msg), Some(a.reset.rc))
      else
        var s1 := if !wants then s0
                  else s0.(soft := false, hard := false, didReset := s0.didReset || a.reset.ResetOk?);
        var (s2, fail) := Revalidate(s1, a, if wants && a.reset.ResetOk? then a.reset.classes else [], |s.devs|);
        if fail.Some? then Retry(DevFail(s2, fail.value.0, fail.value.1, false, a, msg))
        else if ModeFails(s2, a) then Retry(DevFail(s2, a.setMode.value.0, a.setMode.value.1, true, a, msg))
        else Over(s2, None)
  }

  /** ata_set_mode runs after a reset and can blame enabled devices only. */
  predicate ModeFails(s: Rec, a: Pass) {
    s.didReset && a.setMode.Some? && a.setMode.value.0 < |s.devs| && Enabled(s.devs[a.setMode.value.0].cls)
  }

  // ---- why it ends ----

  /** A device still in use has a try left, so each failure costs something. */
  ghost predicate Inv(s: Rec) {
    forall i :: 0 <= i < |s.devs| ==> s.devs[i].tries >= 0 && (Enabled(s.devs[i].cls) ==> s.devs[i].tries >= 1)
  }

  function Fuel(d: Dev): int { d.tries + if d.didProbe then 0 else ATA_EH_DEV_TRIES }

  /** Tries left, plus a fresh set for each device that has not been probed yet. */
  function Measure(devs: seq<Dev>): int {
    if devs == [] then 0 else Fuel(devs[0]) + Measure(devs[1..])
  }

  lemma {:induction false} MeasureUpdate(devs: seq<Dev>, i: nat, d: Dev)
    requires i < |devs|
    ensures Measure(devs[i := d]) == Measure(devs) - Fuel(devs[i]) + Fuel(d)
  {
    if i == 0 {
      assert devs[i := d][1..] == devs[1..];
    } else {
      assert devs[i := d][1..] == devs[1..][i - 1 := d];
      MeasureUpdate(devs[1..], i - 1, d);
    }
  }

  lemma {:induction false} MeasureBounds(devs: seq<Dev>, lo: int, hi: int)
    requires forall i :: 0 <= i < |devs| ==> lo <= Fuel(devs[i]) <= hi
    ensures lo * |devs| <= Measure(devs) <= hi * |devs|
  {
    if devs != [] { MeasureBounds(devs[1..], lo, hi); }
  }

  lemma RevalidateDevKeeps(d: Dev, w: DevAns, offline: bool, classes: seq<Class>, i: nat)
    requires d.tries >= 0 && (Enabled(d.cls) ==> d.tries >= 1)
    ensures var (cls, rc) := RevalidateDev(d, w, offline, classes, i);
            && (Enabled(cls) || rc.Some? ==> d.tries >= 1)
            && (cls != d.cls ==> d.cls == Unknown && Enabled(cls))
  {
  }

  /** Revalidation costs nothing and blames a device with a try left. */
  lemma {:induction false} RevalidateKeeps(s: Rec, a: Pass, classes: seq<Class>, n: nat)
    requires Inv(s) && n <= |s.devs| && |a.devs| >= |s.devs|
    ensures var (r, fail) := Revalidate(s, a, classes, n);
            && Inv(r) && Measure(r.devs) == Measure(s.devs) && r == s.(devs := r.devs)
            && (fail.Some? ==> fail.value.0 < |r.devs| && r.devs[fail.value.0].tries >= 1)
  {
    hide RevalidateDev, Measure;
    if n > 0 {
      RevalidateKeeps(s, a, classes, n - 1);
      var (q, fail) := Revalidate(s, a, classes, n - 1);
      if fail.None? {
        var d := q.devs[n - 1];
        RevalidateDevKeeps(d, a.devs[n - 1], a.offline, classes, n - 1);
        MeasureUpdate(q.devs, n - 1, d.(cls := RevalidateDev(d, a.devs[n - 1], a.offline, classes, n - 1).0));
      }
    }
  }

  /** Every failure of a device uses up a try, or its one fresh set of tries. */
  lemma DevFailDescends(s: Rec, i: nat, rc: Errno, down: bool, a: Pass)
    requires Inv(s) && i < |s.devs| && s.devs[i].tries >= 1
    ensures Inv(DevFail(s, i, rc, down, a, true)) && Measure(DevFail(s, i, rc, down, a, true).devs) < Measure(s.devs)
  {
    hide Charged, GivenUp, Measure, Fuel;
    var d := Charged(s.devs[i], rc, down, a.xferGone);
    var d' := if UsedUp(d) then GivenUp(d, a.offline, true) else d;
    ChargeDescends(s.devs[i], rc, down, a.xferGone, a.offline);
    assert DevFail(s, i, rc, down, a, true).devs == s.devs[i := d'];
    MeasureUpdate(s.devs, i, d');
  }

  lemma ChargeDescends(d: Dev, rc: Errno, down: bool, xferGone: bool, offline: bool)
    requires d.tries >= 1
    ensures var d1 := Charged(d, rc, down, xferGone);
            var d2 := if UsedUp(d1) then GivenUp(d1, offline, true) else d1;
            Fuel(d2) < Fuel(d) && d2.tries >= 0 && (Enabled(d2.cls) ==> d2.tries >= 1)
  {
  }

  lemma AttemptDescends(s: Rec, a: Pass)
    requires Inv(s) && |a.devs| >= |s.devs|
    ensures var r := Attempt(s, a, true);
            r.Retry? ==> Inv(r.s) && 0 <= Measure(r.s.devs) < Measure(s.devs)
  {
    hide DevFail, Revalidate;
    var s0 := if a.skip then s.(soft := false, hard := false) else s;
    var wants := s0.soft || s0.hard;
    var s1 := if !wants then s0
              else s0.(soft := false, hard := false, didReset := s0.didReset || a.reset.ResetOk?);
    var classes := if wants && a.reset.ResetOk? then a.reset.classes else [];
    RevalidateKeeps(s1, a, classes, |s.devs|);
    var (s2, fail) := Revalidate(s1, a, classes, |s.devs|);
    if fail.Some? {
      DevFailDescends(s2, fail.value.0, fail.value.1, false, a);
    } else if ModeFails(s2, a) {
      DevFailDescends(s2, a.setMode.value.0, a.setMode.value.1, true, a);
    }
    var r := Attempt(s, a, true);
    if r.Retry? { NotNegative(r.s); }
  }

  lemma NotNegative(s: Rec)
    requires Inv(s)
    ensures 0 <= Measure(s.devs)
  {
    if |s.devs| > 0 { MeasureFloor(s.devs); }
  }

  lemma {:induction false} MeasureFloor(devs: seq<Dev>)
    requires forall i :: 0 <= i < |devs| ==> devs[i].tries >= 0
    ensures 0 <= Measure(devs)
  {
    if devs != [] { MeasureFloor(devs[1..]); }
  }

  // ---- the whole recovery ----

  /** The hardware's answers, pass by pass. */
  type Script = nat -> Pass

  ghost predicate Fits(n: nat, script: Script) { forall k :: |script(k).devs| >= n }

  /** Recovery from label retry on; k counts the passes made. */
  ghost function RecoverFrom(s: Rec, script: Script, k: nat): (Rec, Option<Errno>, nat)
    requires Inv(s) && Fits(|s.devs|, script)
    decreases Measure(s.devs)
  {
    AttemptDescends(s, script(k));
    match Attempt(s, script(k), true)
    case Over(r, rc) => (r, rc, k + 1)
    case Retry(r) => RecoverFrom(r, script, k + 1)
  }

  /** A device as every recovery finds it: did_probe_mask is the only thing that carries over. */
  lemma {:induction false} PrepKeeps(s: Rec, n: nat)
    requires n <= |s.devs|
    ensures var r := Prep(s, true, n);
            forall i :: 0 <= i < |s.devs| ==> r.devs[i] == if i < n then PrepDev(s.devs[i], true) else s.devs[i]
  {
    if n > 0 { PrepKeeps(s, n - 1); }
  }

  lemma PrepTries(d: Dev)
    ensures PrepDev(d, true).tries == ATA_EH_DEV_TRIES
  {
  }

  lemma PrepInv(s: Rec)
    ensures Inv(Prep(s, true, |s.devs|))
    ensures Measure(Prep(s, true, |s.devs|).devs) <= 2 * ATA_EH_DEV_TRIES * |s.devs|
  {
    hide PrepDev, Prep, Measure;
    PrepKeeps(s, |s.devs|);
    forall d: Dev ensures PrepDev(d, true).tries == ATA_EH_DEV_TRIES { PrepTries(d); }
    MeasureBounds(Prep(s, true, |s.devs|).devs, 0, 2 * ATA_EH_DEV_TRIES);
  }

  /** ata_eh_recover ends for every sequence of device results, after at most as many passes as
      the measure allows and one more. */
  lemma {:induction false} RecoverEnds(s: Rec, script: Script, k: nat)
    requires Inv(s) && Fits(|s.devs|, script)
    ensures k < RecoverFrom(s, script, k).2 <= k + Measure(s.devs) + 1
    decreases Measure(s.devs)
  {
    AttemptDescends(s, script(k));
    NotNegative(s);
    match Attempt(s, script(k), true)
    case Over(_, _) =>
    case Retry(r) => RecoverEnds(r, script, k + 1);
  }

  /** A port has two devices, so recovery takes at most thirteen passes. */
  lemma ThirteenPasses(s: Rec, script: Script)
    requires |s.devs| == 2 && Fits(2, script)
    ensures Inv(Prep(s, true, 2)) && RecoverFrom(Prep(s, true, 2), script, 0).2 <= 13
  {
    PrepInv(s);
    RecoverEnds(Prep(s, true, 2), script, 0);
  }

  /** How recovery leaves the devices: with an error, none is in use; without one, each device in use
      still had a try left and passed the last round. */
  lemma {:induction false} RecoverResult(s: Rec, script: Script, k: nat)
    requires Inv(s) && Fits(|s.devs|, script)
    ensures var (r, rc, _) := RecoverFrom(s, script, k);
            && |r.devs| == |s.devs|
            && (rc.Some? ==> forall i :: 0 <= i < |r.devs| ==> !Enabled(r.devs[i].cls))
            && (rc.None? ==> Inv(r))
    decreases Measure(s.devs)
  {
    AttemptDescends(s, script(k));
    match Attempt(s, script(k), true)
    case Over(_, _) => AttemptOver(s, script(k));
    case Retry(r) => RecoverResult(r, script, k + 1);
  }

  lemma AttemptOver(s: Rec, a: Pass)
    requires Inv(s) && |a.devs| >= |s.devs|
    ensures var r := Attempt(s, a, true);
            r.Over? ==> if r.rc.Some? then forall i :: 0 <= i < |r.s.devs| ==> !Enabled(r.s.devs[i].cls) else Inv(r.s)
  {
    hide DevFail, Revalidate;
    var s0 := if a.skip then s.(soft := false, hard := false) else s;
    var wants := s0.soft || s0.hard;
    var s1 := if !wants then s0
              else s0.(soft := false, hard := false, didReset := s0.didReset || a.reset.ResetOk?);
    RevalidateKeeps(s1, a, if wants && a.reset.ResetOk? then a.reset.classes else [], |s.devs|);
  }

  // ---- three chances ----

  /** The failures of device i that cost one try each. */
  predicate MildFailure(rc: Errno, down: bool, a: Pass) {
    rc in {EIo, EOther} && !(down && a.xferGone)
  }

  /** At dev_fail a device in use loses exactly one try per mild failure and goes out of use with its
      last one, not earlier; a missing or invalid device goes at once.  One that goes starts afresh if
      it is to be probed for the first time; otherwise a detach request for it is void if the port is
      offline.  A device that could not be attached stays what it is and
      only pays. */
  lemma ThreeChances(s: Rec, i: nat, rc: Errno, down: bool, a: Pass)
    requires i < |s.devs| && s.devs[i].tries >= 1
    ensures var d := s.devs[i];
            var d' := DevFail(s, i, rc, down, a, true).devs[i];
            var left := if MildFailure(rc, down, a) then d.tries - 1 else 0;
            && (Enabled(d'.cls) <==> Enabled(d.cls) && left > 0)
            && (Enabled(d'.cls) ==> d' == d.(tries := left))
            && (Enabled(d.cls) && !Enabled(d'.cls) ==>
                  if (d.probe || rc == ENoDev) && !d.didProbe
                  then d' == Dev.Dev(Unknown, 3, true, true, false)
                  else d' == Dev.Dev(if d.cls == AtaDev then AtaUnsup else AtapiUnsup, 0, d.probe || rc == ENoDev, d.didProbe,
                                     d.detach && !a.offline))
            && (!Enabled(d.cls) ==> d' == d.(tries := left, probe := d.probe || rc == ENoDev))
  {
    hide GivenUp;
    var d1 := Charged(s.devs[i], rc, down, a.xferGone);
    if UsedUp(d1) { GivenUpIs(d1, a.offline); }
  }

  lemma GivenUpIs(d: Dev, offline: bool)
    requires Enabled(d.cls)
    ensures var d' := GivenUp(d, offline, true);
            d' == if d.probe && !d.didProbe then Dev.Dev(Unknown, 3, true, true, false)
                  else Dev.Dev(if d.cls == AtaDev then AtaUnsup else AtapiUnsup, d.tries, d.probe, d.didProbe, d.detach && !offline)
  {
  }

  /** A failure touches the failing device only.  A device that keeps its class asks for the next
      reset, a hard one if there has been a reset already and a soft one if not; one that starts
      afresh asks for a soft reset; one that is given up for good asks for none. */
  lemma FailureIsLocal(s: Rec, i: nat, rc: Errno, down: bool, a: Pass)
    requires i < |s.devs| && s.devs[i].tries >= 1
    ensures var r := DevFail(s, i, rc, down, a, true);
            var d := s.devs[i];
            var goes := Enabled(d.cls) && !(MildFailure(rc, down, a) && d.tries > 1);
            && (forall j :: 0 <= j < |s.devs| && j != i ==> r.devs[j] == s.devs[j])
            && r.didReset == s.didReset
            && (r.hard <==> s.hard || (!goes && s.didReset))
            && (r.soft <==> s.soft || if goes then (d.probe || rc == ENoDev) && !d.didProbe else !s.didReset)
  {
    hide GivenUp;
    var d := Charged(s.devs[i], rc, down, a.xferGone);
    if UsedUp(d) { GivenUpIs(d, a.offline); }
  }

  // ---- exactly when recovery always ends ----

  /** n passes along a script; None once recovery is over. */
  function Passes(s: Rec, script: Script, msg: bool, n: nat): (r: Option<Rec>)
    requires forall k :: |script(k).devs| >= |s.devs|
    ensures r.Some? ==> |r.value.devs| == |s.devs|
  {
    if n == 0 then Some(s)
    else
      match Passes(s, script, msg, n - 1)
      case None => None
      case Some(q) =>
        match Attempt(q, script(n - 1), msg)
        case Over(_, _) => None
        case Retry(r) => Some(r)
  }

  /** Whatever the hardware answers, recovery from s ends after some number of passes. */
  ghost predicate AlwaysEnds(s: Rec, msg: bool) {
    forall script: Script | Fits(|s.devs|, script) :: exists n: nat :: Passes(s, script, msg, n).None?
  }

  /** Device i is in use, or can come into use in the next pass. */
  predicate Usable(s: Rec, i: nat)
    requires i < |s.devs|
  {
    Enabled(s.devs[i].cls) || (s.devs[i].cls == Unknown && s.devs[i].tries != 0 && (s.soft || s.hard))
  }

  /** With messages on every pass costs fuel. */
  lemma {:induction false} PassesCost(s: Rec, script: Script, n: nat)
    requires Inv(s) && Fits(|s.devs|, script)
    ensures Passes(s, script, true, n).Some? ==>
              Inv(Passes(s, script, true, n).value) && Measure(Passes(s, script, true, n).value.devs) + n <= Measure(s.devs)
  {
    hide Attempt, Inv, Measure;
    if n > 0 {
      PassesCost(s, script, n - 1);
      var q := Passes(s, script, true, n - 1);
      if q.Some? {
        assert |script(n - 1).devs| >= |s.devs|;
        AttemptDescends(q.value, script(n - 1));
      }
    }
  }

  /** Recovery retries until a pass is over, not before and not longer: it ends with that pass, and
      with its state and error. */
  lemma {:induction false} RecoverRuns(s0: Rec, script: Script, s: Rec, k: nat)
    requires Inv(s) && Fits(|s0.devs|, script) && |s.devs| == |s0.devs|
    requires Passes(s0, script, true, k) == Some(s)
    ensures var (r, rc, n) := RecoverFrom(s, script, k);
            && n > k && Passes(s0, script, true, n - 1).Some?
            && Attempt(Passes(s0, script, true, n - 1).value, script(n - 1), true) == Over(r, rc)
            && Passes(s0, script, true, n).None?
    decreases Measure(s.devs)
  {
    hide Attempt, Inv, Measure;
    assert |script(k).devs| >= |s.devs|;
    AttemptDescends(s, script(k));
    match Attempt(s, script(k), true)
    case Over(_, _) =>
    case Retry(r) => RecoverRuns(s0, script, r, k + 1);
  }

  /** Hardware on which device i, and no other, keeps failing with -EIO while resets go well. */
  function FailingPass(n: nat, i: nat): Pass {
    Pass(false, false, ResetOk(seq(n, j => if j == i then AtaDev else NoDev)),
         seq(n, j => DevAns(j == i, Some(EIo), None, AtaDev)), Some((i, EIo)), false, false)
  }

  /** The other devices are left alone. */
  lemma {:induction false} FailingOthers(s: Rec, i: nat, classes: seq<Class>, n: nat)
    requires n <= i < |s.devs|
    requires classes == [] || classes == FailingPass(|s.devs|, i).reset.classes
    ensures Revalidate(s, FailingPass(|s.devs|, i), classes, n) == (s, None)
  {
    if n > 0 {
      FailingOthers(s, i, classes, n - 1);
      assert s.devs[n - 1 := s.devs[n - 1].(cls := s.devs[n - 1].cls)] == s.devs;
    }
  }

  lemma {:induction false} FailingRest(s: Rec, i: nat, classes: seq<Class>, n: nat)
    requires i < n <= |s.devs|
    requires classes == [] || classes == FailingPass(|s.devs|, i).reset.classes
    ensures var d := s.devs[i];
            var (cls, rc) := RevalidateDev(d, FailingPass(|s.devs|, i).devs[i], false, classes, i);
            Revalidate(s, FailingPass(|s.devs|, i), classes, n) ==
              (s.(devs := s.devs[i := d.(cls := cls)]), if rc.Some? then Some((i, rc.value)) else None)
  {
    hide RevalidateDev;
    FailingOthers(s, i, classes, i);
    if n > i + 1 {
      FailingRest(s, i, classes, n - 1);
      var a := FailingPass(|s.devs|, i);
      var (q, fail) := Revalidate(s, a, classes, n - 1);
      if fail.None? {
        OtherAlone(q.devs[n - 1], a.devs[n - 1], classes, n - 1);
        assert q.devs[n - 1 := q.devs[n - 1].(cls := q.devs[n - 1].cls)] == q.devs;
      }
    }
  }

  lemma OtherAlone(d: Dev, w: DevAns, classes: seq<Class>, j: nat)
    requires !w.wanted && (j < |classes| ==> !Enabled(classes[j]))
    ensures RevalidateDev(d, w, false, classes, j) == (d.cls, None)
  {
  }

  /** With messages masked out a usable device on such hardware fails, and stays usable. */
  lemma FailingRetries(s: Rec, i: nat)
    requires i < |s.devs| && Usable(s, i)
    ensures var o := Attempt(s, FailingPass(|s.devs|, i), false);
            o.Retry? && |o.s.devs| == |s.devs| && Usable(o.s, i)
  {
    hide Revalidate, DevFail;
    var a := FailingPass(|s.devs|, i);
    var wants := s.soft || s.hard;
    var s1 := if wants then s.(soft := false, hard := false, didReset := true) else s;
    var classes := if wants then a.reset.classes else [];
    FailingRest(s1, i, classes, |s.devs|);
    var s2 := Revalidate(s1, a, classes, |s.devs|).0;
    FailingKept(s2, i, false, a);
    FailingKept(s2, i, true, a);
  }

  lemma FailingKept(s: Rec, i: nat, down: bool, a: Pass)
    requires i < |s.devs| && Enabled(s.devs[i].cls) && !a.xferGone && !a.offline
    ensures Usable(DevFail(s, i, EIo, down, a, false), i)
  {
  }

  lemma {:induction false} FailingForever(s: Rec, i: nat, script: Script, n: nat)
    requires i < |s.devs| && Usable(s, i) && Fits(|s.devs|, script)
    requires forall k :: script(k) == FailingPass(|s.devs|, i)
    ensures Passes(s, script, false, n).Some? && Usable(Passes(s, script, false, n).value, i)
  {
    hide Attempt, Usable;
    if n > 0 {
      FailingForever(s, i, script, n - 1);
      assert script(n - 1) == FailingPass(|s.devs|, i);
      FailingRetries(Passes(s, script, false, n - 1).value, i);
    }
  }

  /** Without a usable device nothing can fail. */
  lemma {:induction false} NothingUsable(s: Rec, a: Pass, classes: seq<Class>, n: nat)
    requires n <= |s.devs| && |a.devs| >= |s.devs|
    requires forall i :: 0 <= i < |s.devs| ==>
               !Enabled(s.devs[i].cls) && (classes == [] || s.devs[i].cls != Unknown || s.devs[i].tries == 0)
    ensures Revalidate(s, a, classes, n) == (s, None)
  {
    if n > 0 {
      NothingUsable(s, a, classes, n - 1);
      assert s.devs[n - 1 := s.devs[n - 1].(cls := s.devs[n - 1].cls)] == s.devs;
    }
  }

  lemma UnusableEnds(s: Rec, a: Pass, msg: bool)
    requires |a.devs| >= |s.devs| && forall i: nat :: i < |s.devs| ==> !Usable(s, i)
    ensures Attempt(s, a, msg).Over?
  {
    hide Revalidate;
    var s0 := if a.skip then s.(soft := false, hard := false) else s;
    var wants := s0.soft || s0.hard;
    var s1 := if !wants then s0
              else s0.(soft := false, hard := false, didReset := s0.didReset || a.reset.ResetOk?);
    assert forall i: nat :: i < |s.devs| ==> !Usable(s, i) && s1.devs[i] == s.devs[i];
    NothingUsable(s1, a, if wants && a.reset.ResetOk? then a.reset.classes else [], |s.devs|);
  }

  /** Exactly when recovery ends for every sequence of device results: driver messages are on, so
      that ata_dev_disable takes effect, or no device is in use or can come into use. */
  lemma AlwaysEndsIff(s: Rec, msg: bool)
    requires Inv(s)
    ensures AlwaysEnds(s, msg) <==> msg || forall i: nat :: i < |s.devs| ==> !Usable(s, i)
  {
    hide Attempt, Usable, Inv, Measure;
    if msg {
      NotNegative(s);
      forall script: Script | Fits(|s.devs|, script) ensures exists n: nat :: Passes(s, script, msg, n).None? {
        PassesEnd(s, script);
      }
    } else if forall i: nat :: i < |s.devs| ==> !Usable(s, i) {
      forall script: Script | Fits(|s.devs|, script) ensures exists n: nat :: Passes(s, script, msg, n).None? {
        assert |script(0).devs| >= |s.devs|;
        UnusableEnds(s, script(0), msg);
        assert Passes(s, script, msg, 0) == Some(s);
        assert Passes(s, script, msg, 1).None?;
      }
    } else {
      var i: nat :| i < |s.devs| && Usable(s, i);
      var script: Script := _ => FailingPass(|s.devs|, i);
      assert Fits(|s.devs|, script);
      forall n: nat ensures Passes(s, script, false, n).Some? { FailingForever(s, i, script, n); }
    }
  }

  lemma PassesEnd(s: Rec, script: Script)
    requires Inv(s) && Fits(|s.devs|, script)
    ensures exists n: nat :: Passes(s, script, true, n).None?
  {
    hide Attempt;
    NotNegative(s);
    var n := Measure(s.devs) + 1;
    PassesCost(s, script, n);
    if Passes(s, script, true, n).Some? { NotNegative(Passes(s, script, true, n).value); }
  }

  /** The same for the states recovery starts from. */
  lemma PreparedEndsIff(s: Rec, msg: bool)
    ensures var p := Prep(s, msg, |s.devs|);
            AlwaysEnds(p, msg) <==> msg || forall i: nat :: i < |p.devs| ==> !Usable(p, i)
  {
    PrepFull(s, msg, |s.devs|);
    AlwaysEndsIff(Prep(s, msg, |s.devs|), msg);
  }

  lemma {:induction false} PrepFull(s: Rec, msg: bool, n: nat)
    requires n <= |s.devs|
    ensures forall i :: 0 <= i < n ==> Prep(s, msg, n).devs[i].tries == ATA_EH_DEV_TRIES
  {
    if n > 0 { PrepFull(s, msg, n - 1); }
  }

  // ---- the failing disk ----

  /** A disk that keeps failing with messages masked out: its tries run below zero. */
  const ONE_DISK := Rec([Dev.Dev(AtaDev, ATA_EH_DEV_TRIES, false, false, false)], false, false, false)

  lemma {:induction false} NeverEndsWithoutMessages(script: Script, n: nat)
    requires forall k :: script(k) == FailingPass(1, 0)
    ensures Passes(ONE_DISK, script, false, n).Some?
    ensures var r := Passes(ONE_DISK, script, false, n).value;
            |r.devs| == 1 && r.devs[0] == ONE_DISK.devs[0].(tries := ATA_EH_DEV_TRIES - n)
  {
    hide Attempt;
    if n > 0 {
      NeverEndsWithoutMessages(script, n - 1);
      assert script(n - 1) == FailingPass(1, 0);
      OneDiskPass(Passes(ONE_DISK, script, false, n - 1).value);
    }
  }

  lemma OneDiskPass(q: Rec)
    requires |q.devs| == 1 && q.devs[0].cls == AtaDev && !q.devs[0].probe && !q.devs[0].detach
    ensures var o := Attempt(q, FailingPass(1, 0), false);
            o.Retry? && |o.s.devs| == 1 && o.s.devs[0] == q.devs[0].(tries := q.devs[0].tries - 1)
  {
    hide Revalidate;
    var a := FailingPass(1, 0);
    var wants := q.soft || q.hard;
    var s1 := if wants then q.(soft := false, hard := false, didReset := true) else q;
    FailingRest(s1, 0, if wants then a.reset.classes else [], 1);
  }
}
