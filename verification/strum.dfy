/**
 * The strum detector of `audioService.ts`: an energy-envelope onset detector
 * with a trigger threshold, a lower reset threshold (hysteresis) and a
 * debounce window. Each animation frame hands one spectrum snapshot and the
 * wall clock in milliseconds to `Listen`.
 */
module Strum {

  /** One analyser bin: `Uint8Array` holds 0..255. */
  newtype Byte = x: int | 0 <= x < 256

  /** An average above this starts a strum. */
  const TriggerLevel: nat := 15
  /** An average below this re-arms the detector. */
  const ResetLevel: nat := 10
  /** Minimum time between two strums, in milliseconds. */
  const DebounceMs: int := 300
  /** `fftSize` 256 gives 128 frequency bins. */
  const FftSize: nat := 256
  const BinCount: nat := FftSize / 2

  datatype Detector = Detector(
    listening: bool,
    triggered: bool,
    lastStrumMs: int,
    /** `analyser` and `dataArray` are set: the first `start` succeeded. */
    hasAnalyser: bool,
    /** An animation frame that will call `listen` again is requested. */
    framePending: bool)

  /** A new detector: silent, armed, last strum at time 0. */
  function NewDetector(): Detector
  {
    Detector(false, false, 0, false, false)
  }

  /** The detector after one step, and whether the strum callback ran. */
  datatype Step = Step(detector: Detector, fired: bool)

  function Sum(bins: seq<Byte>): (r: nat)
    ensures r <= 255 * |bins|
  {
    if |bins| == 0 then 0 else Sum(bins[..|bins| - 1]) + bins[|bins| - 1] as nat
  }

  /**
   * `average > 15` without division. An empty snapshot averages to NaN in
   * JavaScript, and every comparison with NaN is false.
   */
  predicate Loud(bins: seq<Byte>)
  {
    |bins| > 0 && Sum(bins) > TriggerLevel * |bins|
  }

  /** `average < 10`, likewise. */
  predicate Quiet(bins: seq<Byte>)
  {
    |bins| > 0 && Sum(bins) < ResetLevel * |bins|
  }

  /** The average of the source, as an exact rational. */
  function Average(bins: seq<Byte>): real
    requires |bins| > 0
  {
    Sum(bins) as real / |bins| as real
  }

  lemma DivExact(x: real, d: real, y: real)
    requires d > 0.0 && y * d == x
    ensures x / d == y
  {
  }

  /** The integer tests are the source's tests on the average. */
  lemma LevelsAreAverages(bins: seq<Byte>)
    requires |bins| > 0
    ensures Loud(bins) <==> Average(bins) > TriggerLevel as real
    ensures Quiet(bins) <==> Average(bins) < ResetLevel as real
  {
    AverageCompare(Sum(bins), |bins|, TriggerLevel);
    AverageCompare(Sum(bins), |bins|, ResetLevel);
  }

  lemma AverageCompare(s: int, len: int, t: int)
    requires len > 0
    ensures s as real / len as real > t as real <==> s > t * len
    ensures s as real / len as real < t as real <==> s < t * len
  {
    var n := len as real;
    var a := s as real / n;
    DivExact(s as real, n, a);
    MulSign(a - t as real, n);
    assert (a - t as real) * n == s as real - (t * len) as real;
  }

  lemma MulSign(x: real, n: real)
    requires n > 0.0
    ensures x > 0.0 <==> x * n > 0.0
    ensures x < 0.0 <==> x * n < 0.0
  {
  }

  /** No sample is both loud and quiet: the gap between the thresholds is never empty. */
  lemma LoudIsNotQuiet(bins: seq<Byte>)
    ensures !(Loud(bins) && Quiet(bins))
  {
  }

  /**
   * `listen`: return at once unless listening with an analyser; otherwise
   * fire when armed, loud and out of the debounce window, re-arm on a quiet
   * sample, and request the next frame.
   */
  function Listen(d: Detector, bins: seq<Byte>, nowMs: int): (r: Step)
    // at most one callback per sample, exactly under the trigger rule
    ensures r.fired <==>
              d.listening && d.hasAnalyser && !d.triggered && Loud(bins)
              && nowMs - d.lastStrumMs > DebounceMs
    ensures r.fired ==> r.detector.triggered && r.detector.lastStrumMs == nowMs
    ensures !r.fired ==> r.detector.lastStrumMs == d.lastStrumMs
    // the latch is cleared only by a quiet sample and set only by a strum
    ensures r.detector.triggered <==>
              r.fired || (d.triggered && !(d.listening && d.hasAnalyser && Quiet(bins)))
    ensures r.detector.listening == d.listening && r.detector.hasAnalyser == d.hasAnalyser
    ensures r.detector.framePending <==> d.listening && d.hasAnalyser
  {
    if !d.listening || !d.hasAnalyser then
      Step(d.(framePending := false), false)
    else
      var fire := !d.triggered && Loud(bins) && nowMs - d.lastStrumMs > DebounceMs;
      var next :=
        if fire then d.(lastStrumMs := nowMs, triggered := true)
        else if Quiet(bins) then d.(triggered := false)
        else d;
      Step(next.(framePending := true), fire)
  }

  /**
   * `start` once its microphone request settles: with access granted, attach
   * an analyser, start listening and run `listen` at once; a refused
   * microphone is reported to the user and leaves the detector as it was.
   * Neither the latch nor the last strum time is reset. Nothing before the
   * `await` touches the detector, so `d` is the detector as the steps that
   * ran during the request left it.
   */
  function Start(d: Detector, granted: bool, bins: seq<Byte>, nowMs: int): (r: Step)
    ensures !granted ==> r == Step(d, false)
    ensures granted ==> r.detector.listening && r.detector.hasAnalyser && r.detector.framePending
    ensures granted ==>
              (r.fired <==> !d.triggered && Loud(bins) && nowMs - d.lastStrumMs > DebounceMs)
  {
    if granted then Listen(d.(listening := true, hasAnalyser := true), bins, nowMs)
    else Step(d, false)
  }

  /** `stop`: stop listening and cancel the pending frame. */
  function Stop(d: Detector): (r: Detector)
    ensures !r.listening && !r.framePending
    ensures r.triggered == d.triggered && r.lastStrumMs == d.lastStrumMs
    ensures r.hasAnalyser == d.hasAnalyser
  {
    d.(listening := false, framePending := false)
  }

  /**
   * A `stop` that runs while the microphone request is still open (the
   * trainer's "Stop & Review") is undone by the grant: the detector listens
   * again and the strum callback keeps running after the session ended.
   */
  lemma StopDuringRequestUndone(d: Detector, bins: seq<Byte>, nowMs: int)
    ensures var r := Start(Stop(d), true, bins, nowMs);
            && r.detector.listening && r.detector.framePending
            && (r.fired <==> !d.triggered && Loud(bins) && nowMs - d.lastStrumMs > DebounceMs)
  {
  }

  // -----------------------------------------------------------------------
  // Runs of samples
  // -----------------------------------------------------------------------

  /** One animation frame: the spectrum snapshot and `Date.now()`. */
  datatype Sample = Sample(bins: seq<Byte>, nowMs: int)

  /** The detector after feeding it the samples in order. */
  function Run(d: Detector, ss: seq<Sample>): (r: Detector)
    ensures r.listening == d.listening && r.hasAnalyser == d.hasAnalyser
    ensures !(d.listening && d.hasAnalyser) ==> r.triggered == d.triggered && r.lastStrumMs == d.lastStrumMs
  {
    if |ss| == 0 then d
    else
      var last := ss[|ss| - 1];
      Listen(Run(d, ss[..|ss| - 1]), last.bins, last.nowMs).detector
  }

  /** Whether sample `i` of the run fires the callback. */
  predicate Fired(d: Detector, ss: seq<Sample>, i: nat)
    requires i < |ss|
  {
    Listen(Run(d, ss[..i]), ss[i].bins, ss[i].nowMs).fired
  }

  lemma RunStep(d: Detector, ss: seq<Sample>, i: nat)
    requires i < |ss|
    ensures Run(d, ss[..i + 1]) == Listen(Run(d, ss[..i]), ss[i].bins, ss[i].nowMs).detector
  {
    assert ss[..i + 1][..i] == ss[..i];
  }

  /** After a strum the latch stays set until a quiet sample arrives. */
  lemma {:induction false} LatchHolds(d: Detector, ss: seq<Sample>, i: nat, j: nat)
    requires i < j <= |ss| && Fired(d, ss, i)
    requires forall k :: i < k < j ==> !Quiet(ss[k].bins)
    ensures Run(d, ss[..j]).triggered
    decreases j
  {
    RunStep(d, ss, j - 1);
    if j - 1 > i {
      LatchHolds(d, ss, i, j - 1);
    }
  }

  /** Without a strum in between, the last strum time stays that of sample `i`. */
  lemma {:induction false} LastHolds(d: Detector, ss: seq<Sample>, i: nat, j: nat)
    requires i < j <= |ss| && Fired(d, ss, i)
    requires forall k :: i < k < j ==> !Fired(d, ss, k)
    ensures Run(d, ss[..j]).lastStrumMs == ss[i].nowMs
    decreases j
  {
    RunStep(d, ss, j - 1);
    var step := Listen(Run(d, ss[..j - 1]), ss[j - 1].bins, ss[j - 1].nowMs);
    if j - 1 > i {
      assert !step.fired by { assert !Fired(d, ss, j - 1); }
      LastHolds(d, ss, i, j - 1);
    } else {
      assert step.fired by { assert Fired(d, ss, i); }
    }
  }

  /** Two strums are always separated by a quiet sample (hysteresis). */
  lemma QuietBetweenStrums(d: Detector, ss: seq<Sample>, i: nat, j: nat)
    requires i < j < |ss| && Fired(d, ss, i) && Fired(d, ss, j)
    ensures exists k :: i < k < j && Quiet(ss[k].bins)
  {
    if forall k :: i < k < j ==> !Quiet(ss[k].bins) {
      LatchHolds(d, ss, i, j);
      assert false;
    }
  }

  /** Consecutive strums are more than the debounce window apart. */
  lemma StrumsDebounced(d: Detector, ss: seq<Sample>, i: nat, j: nat)
    requires i < j < |ss| && Fired(d, ss, i) && Fired(d, ss, j)
    requires forall k :: i < k < j ==> !Fired(d, ss, k)
    ensures ss[j].nowMs - ss[i].nowMs > DebounceMs
  {
    LastHolds(d, ss, i, j);
  }

  /** A sustained or hovering signal that never drops below the reset level strums at most once. */
  lemma SustainedSignalStrumsOnce(d: Detector, ss: seq<Sample>)
    requires forall k :: 0 <= k < |ss| ==> !Quiet(ss[k].bins)
    ensures forall i, j :: 0 <= i < j < |ss| && Fired(d, ss, i) ==> !Fired(d, ss, j)
  {
    forall i, j | 0 <= i < j < |ss| && Fired(d, ss, i)
      ensures !Fired(d, ss, j)
    {
      LatchHolds(d, ss, i, j);
    }
  }

  /**
   * The last strum time starts at 0, so on a clock that starts at 0 nothing
   * fires during the first 300 ms.
   */
  lemma {:induction false} NoStrumInFirstWindow(d: Detector, ss: seq<Sample>)
    requires d.lastStrumMs == 0
    requires forall k :: 0 <= k < |ss| ==> ss[k].nowMs <= DebounceMs
    ensures Run(d, ss).lastStrumMs == 0
    ensures forall i :: 0 <= i < |ss| ==> !Fired(d, ss, i)
  {
    if |ss| > 0 {
      var init := ss[..|ss| - 1];
      NoStrumInFirstWindow(d, init);
      forall i | 0 <= i < |ss| ensures !Fired(d, ss, i) {
        if i < |ss| - 1 {
          assert ss[..i] == init[..i];
          assert Fired(d, init, i) == Fired(d, ss, i);
        } else {
          assert ss[..i] == init;
        }
      }
    }
  }

  /** After `stop`, frames that still arrive never fire and never re-request a frame. */
  lemma {:induction false} StoppedStaysSilent(d: Detector, ss: seq<Sample>)
    requires !d.listening
    ensures !Run(d, ss).listening
    ensures |ss| > 0 ==> !Run(d, ss).framePending
    ensures forall i :: 0 <= i < |ss| ==> !Fired(d, ss, i)
  {
    if |ss| > 0 {
      var init := ss[..|ss| - 1];
      StoppedStaysSilent(d, init);
      assert !Run(d, init).listening;
      forall i | 0 <= i < |ss| ensures !Fired(d, ss, i) {
        if i < |ss| - 1 {
          assert ss[..i] == init[..i];
          assert Fired(d, init, i) == Fired(d, ss, i);
        } else {
          assert ss[..i] == init;
        }
      }
    }
  }

  /** `stop` twice is `stop` once. */
  lemma StopIdempotent(d: Detector)
    ensures Stop(Stop(d)) == Stop(d)
  {
  }

  /**
   * Restarting a detector whose latch is still set does not re-arm it: the
   * first sample of the new session cannot strum unless it is quiet first.
   */
  lemma RestartKeepsLatch(d: Detector, bins: seq<Byte>, nowMs: int)
    requires d.triggered && !Quiet(bins)
    ensures var r := Start(Stop(d), true, bins, nowMs);
            !r.fired && r.detector.triggered && r.detector.lastStrumMs == d.lastStrumMs
  {
  }

  // -----------------------------------------------------------------------
  // A worked example
  // -----------------------------------------------------------------------

  /** A snapshot whose bins all hold `v`, so its average is `v`. */
  function Level(v: Byte): (r: seq<Byte>)
    ensures |r| == BinCount && Sum(r) == BinCount * v as nat
  {
    var r := seq(BinCount, _ => v);
    SumConst(BinCount, v);
    r
  }

  lemma {:induction false} SumConst(n: nat, v: Byte)
    ensures Sum(seq(n, _ => v)) == n * v as nat
  {
    if n > 0 {
      SumConst(n - 1, v);
      assert seq(n, _ => v)[..n - 1] == seq(n - 1, _ => v);
    }
  }

  /**
   * Energies 20, 0, 20 at 0, 50 and 400 ms on a freshly started detector
   * give one strum, at 400 ms: the first spike falls in the window of the
   * initial last strum time 0.
   */
  lemma SpikesAtZeroAndFourHundred()
    ensures var s := Start(NewDetector(), true, Level(20), 0);
            var ss := [Sample(Level(0), 50), Sample(Level(20), 400)];
            && !s.fired
            && !Fired(s.detector, ss, 0)
            && Fired(s.detector, ss, 1)
  {
    var s := Start(NewDetector(), true, Level(20), 0);
    var ss := [Sample(Level(0), 50), Sample(Level(20), 400)];
    assert ss[..1] == [ss[0]];
    assert ss[..0] == [];
    assert Run(s.detector, ss[..1]) == Listen(s.detector, ss[0].bins, 50).detector;
  }
}
