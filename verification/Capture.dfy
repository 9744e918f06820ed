/** The flops that latch the security state and the scan mode, over whole runs. */
module Capture {
  datatype Lifecycle = Production | OtherLifecycle(code: nat)

  datatype SecurityState = SecurityState(lifecycle: Lifecycle, debugLocked: bool)

  // d and f are the two ranks of the security state, scanD and scanF those of the scan mode.
  datatype Flops = Flops(d: SecurityState, f: SecurityState, captured: bool, scanD: bool, scanF: bool)

  const LOCKED: SecurityState := SecurityState(Production, true)

  // A clock edge with the levels sampled at it, or falling resets between clock edges.
  datatype Event =
    | Clock(resetB: bool, powerGood: bool, security: SecurityState, scan: bool)
    | Fall(reset: bool, power: bool)

  function ResetSecurity(s: Flops): Flops {
    s.(d := LOCKED, f := LOCKED, captured := false)
  }

  function ResetScan(s: Flops): Flops {
    s.(scanD := false, scanF := false)
  }

  function ClockSecurity(s: Flops, security: SecurityState): Flops {
    if !s.captured then s.(d := security, captured := true) else s.(f := s.d)
  }

  function Next(s: Flops, e: Event): Flops {
    match e
    case Clock(resetB, powerGood, security, scan) =>
      var t := if resetB then ClockSecurity(s, security) else ResetSecurity(s);
      if powerGood then t.(scanD := scan, scanF := t.scanD) else ResetScan(t)
    case Fall(reset, power) =>
      var t := if reset then ResetSecurity(s) else s;
      if power then ResetScan(t) else t
  }

  function PowerUp(): Flops {
    Flops(LOCKED, LOCKED, false, false, false)
  }

  function After(es: seq<Event>): Flops {
    if es == [] then PowerUp() else Next(After(es[..|es| - 1]), es[|es| - 1])
  }

  // ---------- Outputs ----------

  predicate DebugLocked(s: Flops) {
    s.d.debugLocked || s.f.debugLocked
  }

  predicate ScanMode(s: Flops) {
    s.scanD && s.scanF
  }

  predicate ScanModeSwitch(s: Flops) {
    s.scanD && !s.scanF
  }

  predicate DebugLockSwitch(s: Flops) {
    s.d.debugLocked != s.f.debugLocked
  }

  predicate SwitchPulse(s: Flops) {
    DebugLockSwitch(s) || ScanModeSwitch(s)
  }

  // Debug values replace the device secrets.
  predicate InDebugOrScan(s: Flops) {
    !DebugLocked(s) || ScanMode(s)
  }

  // ---------- What the ranks hold, from the history ----------

  predicate EndsSecurity(e: Event) {
    if e.Clock? then !e.resetB else e.reset
  }

  predicate EndsScan(e: Event) {
    if e.Clock? then !e.powerGood else e.power
  }

  // The inputs sampled since the last reset of the security flops.
  function Sampled(es: seq<Event>): seq<SecurityState> {
    if es == [] then []
    else
      var e := es[|es| - 1];
      if EndsSecurity(e) then []
      else if e.Clock? then Sampled(es[..|es| - 1]) + [e.security]
      else Sampled(es[..|es| - 1])
  }

  function Scanned(es: seq<Event>): seq<bool> {
    if es == [] then []
    else
      var e := es[|es| - 1];
      if EndsScan(e) then []
      else if e.Clock? then Scanned(es[..|es| - 1]) + [e.scan]
      else Scanned(es[..|es| - 1])
  }

  /** In every run the flops hold the first security state sampled since the reset, one clock apart,
      and the scan input of the last two clocks. */
  lemma {:induction false} HistoryDecides(es: seq<Event>)
    ensures var s, in1, in2 := After(es), Sampled(es), Scanned(es);
            s.captured == (|in1| > 0) &&
            s.d == (if |in1| > 0 then in1[0] else LOCKED) &&
            s.f == (if |in1| > 1 then in1[0] else LOCKED) &&
            s.scanD == (|in2| > 0 && in2[|in2| - 1]) &&
            s.scanF == (|in2| > 1 && in2[|in2| - 2])
  {
    if es != [] {
      HistoryDecides(es[..|es| - 1]);
    }
  }

  // ---------- Whole runs ----------

  // No reset of the security flops in events from..until.
  predicate OneEpoch(es: seq<Event>, from: nat, until: nat)
    requires from <= until <= |es|
  {
    forall i :: from <= i < until ==> !EndsSecurity(es[i])
  }

  lemma {:induction false} SampledExtends(es: seq<Event>, from: nat, until: nat)
    requires from <= until <= |es| && OneEpoch(es, from, until)
    ensures Sampled(es[..from]) <= Sampled(es[..until])
    decreases until
  {
    if from < until {
      assert es[..until][..until - 1] == es[..until - 1];
      assert !EndsSecurity(es[until - 1]);
      SampledExtends(es, from, until - 1);
    }
  }

  /** Within a reset epoch the latched debug state changes at most once, from locked to unlocked,
      and never back. */
  lemma UnlocksAtMostOnce(es: seq<Event>, from: nat, until: nat)
    requires from <= until <= |es| && OneEpoch(es, from, until)
    ensures !DebugLocked(After(es[..from])) ==> !DebugLocked(After(es[..until]))
    ensures After(es[..from]).captured ==> After(es[..until]).d == After(es[..from]).d
  {
    SampledExtends(es, from, until);
    HistoryDecides(es[..from]);
    HistoryDecides(es[..until]);
  }

  /** Wherever the latched scan mode rises, whatever the debug state, the rise happens at a clock and
      the cycle before it carried the scan switch pulse, which ends with the rise. */
  lemma ScanRiseIsAnnounced(es: seq<Event>, e: Event)
    requires !ScanMode(After(es)) && ScanMode(After(es + [e]))
    ensures e.Clock? && ScanModeSwitch(After(es)) && !ScanModeSwitch(After(es + [e]))
  {
    assert (es + [e])[..|es|] == es;
  }

  /** Wherever debug unlocks, whatever the scan mode, the same holds of the debug switch pulse. */
  lemma UnlockIsAnnounced(es: seq<Event>, e: Event)
    requires DebugLocked(After(es)) && !DebugLocked(After(es + [e]))
    ensures e.Clock? && DebugLockSwitch(After(es)) && !DebugLockSwitch(After(es + [e]))
  {
    assert (es + [e])[..|es|] == es;
    HistoryDecides(es);
  }

  /** So debug values never replace the device secrets without a pulse that cleared them just before. */
  lemma RiseIsAnnounced(es: seq<Event>, e: Event)
    requires !InDebugOrScan(After(es)) && InDebugOrScan(After(es + [e]))
    ensures e.Clock? && SwitchPulse(After(es))
  {
    if ScanMode(After(es + [e])) {
      ScanRiseIsAnnounced(es, e);
    } else {
      UnlockIsAnnounced(es, e);
    }
  }

  /** A pulse lasts one cycle: no two successive clocks see it, and one that is not cut short by a
      reset is followed by the mode it announces. */
  lemma PulseIsOneCycle(es: seq<Event>, e: Event)
    requires e.Clock?
    ensures DebugLockSwitch(After(es)) ==> !DebugLockSwitch(After(es + [e]))
    ensures ScanModeSwitch(After(es)) ==> !ScanModeSwitch(After(es + [e]))
    ensures DebugLockSwitch(After(es)) && e.resetB ==> !DebugLocked(After(es + [e]))
    ensures ScanModeSwitch(After(es)) && e.powerGood ==> (ScanMode(After(es + [e])) <==> e.scan)
  {
    assert (es + [e])[..|es|] == es;
    HistoryDecides(es);
  }

  /** The scan mode is latched exactly if the last two clocks since power-up both sampled it, and the
      switch pulses exactly if the last did and the one before did not. */
  lemma ScanModeExactly(es: seq<Event>)
    ensures var seen := Scanned(es); var n := |seen|;
            (ScanMode(After(es)) <==> n > 1 && seen[n - 1] && seen[n - 2]) &&
            (ScanModeSwitch(After(es)) <==> n > 0 && seen[n - 1] && !(n > 1 && seen[n - 2]))
  {
    HistoryDecides(es);
  }

  /** All outputs in every run: debug is visibly unlocked exactly from the second clock after a reset on
      and if the first sampled state was unlocked; the life cycle is that of the first sample; the debug
      values replace the secrets exactly while debug is unlocked or the last two clocks scanned; and the
      switch pulses at the first unlocked sample and at the first scanning clock. */
  lemma OutputsExactly(es: seq<Event>)
    ensures var s, first, seen := After(es), Sampled(es), Scanned(es);
            var unlocked := |first| >= 2 && !first[0].debugLocked;
            var scanning := |seen| >= 2 && seen[|seen| - 1] && seen[|seen| - 2];
            && (DebugLocked(s) <==> !unlocked) && (ScanMode(s) <==> scanning)
            && (InDebugOrScan(s) <==> unlocked || scanning)
            && (DebugLockSwitch(s) <==> |first| == 1 && !first[0].debugLocked)
            && (SwitchPulse(s) <==>
                  (|first| == 1 && !first[0].debugLocked) ||
                  (|seen| >= 1 && seen[|seen| - 1] && (|seen| == 1 || !seen[|seen| - 2])))
            && s.d.lifecycle == if |first| > 0 then first[0].lifecycle else Production
  {
    HistoryDecides(es);
  }

  // Was the scan input high at the last clock since power-up?
  predicate LastScanned(es: seq<Event>) {
    var seen := Scanned(es);
    |seen| > 0 && seen[|seen| - 1]
  }

  // Between two clocks only a loss of power changes what was scanned.
  lemma {:induction false} ScannedBetween(es: seq<Event>, from: nat, until: nat)
    requires from <= until <= |es| && forall i :: from <= i < until ==> !es[i].Clock?
    ensures Scanned(es[..until]) ==
            if exists i :: from <= i < until && es[i].power then [] else Scanned(es[..from])
    decreases until
  {
    if from < until {
      assert es[..until][..until - 1] == es[..until - 1];
      ScannedBetween(es, from, until - 1);
    }
  }

  // A one-clock pulse at position at, seen up to n events into the run, n before any later clock.
  lemma PulseHolds(es: seq<Event>, at: nat, n: nat)
    requires at < n <= |es| && es[at].Clock? && es[at].powerGood && es[at].scan && !LastScanned(es[..at])
    requires forall i :: at < i < n ==> !es[i].Clock?
    ensures !ScanMode(After(es[..n]))
    ensures ScanModeSwitch(After(es[..n])) <==> forall i :: at < i < n ==> !es[i].power
  {
    assert es[..at + 1][..at] == es[..at];
    ScannedBetween(es, at + 1, n);
    ScanModeExactly(es[..n]);
  }

  /** A scan input that is high for one clock alone, anywhere in any run: from that clock on the switch
      pulses until the next clock or a loss of power, the mode never rises, and the next clock ends
      the pulse. */
  lemma OneCycleScanNeverLatches(es: seq<Event>, at: nat, next: nat)
    requires at < next <= |es| && es[at].Clock? && es[at].powerGood && es[at].scan && !LastScanned(es[..at])
    requires forall i :: at < i < next ==> !es[i].Clock?
    requires next < |es| ==> es[next].Clock? && !es[next].scan
    ensures forall n :: at < n <= next ==> !ScanMode(After(es[..n]))
    ensures forall n :: at < n <= next ==>
              (ScanModeSwitch(After(es[..n])) <==> forall i :: at < i < n ==> !es[i].power)
    ensures next < |es| ==> !ScanMode(After(es[..next + 1])) && !ScanModeSwitch(After(es[..next + 1]))
  {
    forall n | at < n <= next
      ensures !ScanMode(After(es[..n]))
      ensures ScanModeSwitch(After(es[..n])) <==> forall i :: at < i < n ==> !es[i].power
    {
      PulseHolds(es, at, n);
    }
    if next < |es| {
      LowScanEndsPulse(es, next);
    }
  }

  lemma LowScanEndsPulse(es: seq<Event>, next: nat)
    requires next < |es| && es[next].Clock? && !es[next].scan
    ensures !ScanMode(After(es[..next + 1])) && !ScanModeSwitch(After(es[..next + 1]))
  {
    assert es[..next + 1][..next] == es[..next];
  }

  // ---------- The clocked blocks ----------

  class CaptureFlops {
    var latchedD: SecurityState
    var latchedF: SecurityState
    var captured: bool
    var scanD: bool
    var scanF: bool

    ghost function View(): Flops
      reads this
    {
      Flops(latchedD, latchedF, captured, scanD, scanF)
    }

    constructor ()
      ensures View() == PowerUp()
    {
      latchedD, latchedF, captured, scanD, scanF := LOCKED, LOCKED, false, false, false;
    }

    method SecurityBlock(resetB: bool, security: SecurityState)
      modifies this
      ensures View() == if resetB then ClockSecurity(old(View()), security) else ResetSecurity(old(View()))
    {
      if !resetB {
        latchedD, latchedF, captured := LOCKED, LOCKED, false;
      } else if !captured {
        latchedD, captured := security, true;
      } else {
        latchedF := latchedD;
      }
    }

    method ScanBlock(powerGood: bool, scan: bool)
      modifies this
      ensures View() == if powerGood then old(View()).(scanD := scan, scanF := old(View()).scanD)
                        else ResetScan(old(View()))
    {
      if !powerGood {
        scanD, scanF := false, false;
      } else {
        scanD, scanF := scan, scanD;
      }
    }

    method React(e: Event)
      modifies this
      ensures View() == Next(old(View()), e)
    {
      match e
      case Clock(resetB, powerGood, security, scan) =>
        SecurityBlock(resetB, security);
        ScanBlock(powerGood, scan);
      case Fall(reset, power) =>
        if reset {
          SecurityBlock(false, LOCKED);
        }
        if power {
          ScanBlock(false, false);
        }
    }

    method Outputs(fatal: bool) returns (locked: bool, lifecycle: Lifecycle, scan: bool, switch: bool)
      ensures locked == DebugLocked(View()) && lifecycle == View().d.lifecycle
      ensures scan == ScanMode(View()) && switch == (SwitchPulse(View()) || fatal)
    {
      locked := latchedD.debugLocked || latchedF.debugLocked;
      lifecycle := latchedD.lifecycle;
      scan := scanD && scanF;
      switch := (latchedD.debugLocked != latchedF.debugLocked) || (scanD && !scanF) || fatal;
    }
  }
}
