/**
 * The metronome screen: tempo buttons and slider, the time-signature picker,
 * the play button and the beat dots, driving one shared `MetronomeEngine`.
 *
 * The screen's state holds the React state, the engine, and the beats whose
 * visual callbacks the engine has queued with `setTimeout` but that have not
 * fired yet. The audio clock is the parameter `now` of the actions that read
 * it; a `Tick` is the engine's look-ahead timer running a pass, a `Fire` the
 * oldest queued visual callback running.
 */
module MetronomeView {
  import opened Util
  import opened Text
  import opened Types
  import opened Metronome

  const SlowestBpm: int := 30
  const FastestBpm: int := 300

  /** The number of beats in a bar each time signature stands for. */
  function Numerator(sig: TimeSignature): nat
  {
    match sig
    case FourFour => 4
    case ThreeFour => 3
    case SixEight => 6
    case TwoFour => 2
  }

  /** `parseInt(timeSig.split('/')[0])`. */
  function BeatsPerBar(sig: TimeSignature): (r: Option<int>)
    ensures r == Some(Numerator(sig) as int)
  {
    var n := Numerator(sig);
    var rest := sig.Text()[2..];
    assert sig.Text() == [DigitChar(n)] + "/" + rest;
    NumeratorReads(n, rest);
    ParseInt(Split(sig.Text(), '/')[0])
  }

  /** A one-digit numerator before a '/' reads as its value. */
  lemma NumeratorReads(n: nat, rest: string)
    requires n < 10
    ensures ParseInt(Split([DigitChar(n)] + "/" + rest, '/')[0]) == Some(n)
  {
    SplitAfterPiece([DigitChar(n)], '/', rest);
    ParseIntOfIntToString(n);
  }

  /** Every time signature's text reads as its bar length, so the beat count is never `NaN`. */
  lemma BeatsPerBarIsNumerator(sig: TimeSignature)
    ensures BeatsPerBar(sig) == Some(Numerator(sig) as int)
    ensures 2 <= Numerator(sig) <= 6
  {
  }

  /** `handleBpmChange`: the tempo moved by `delta`, held within 30 and 300. */
  function Nudged(prev: int, delta: int): (r: int)
    ensures SlowestBpm <= r <= FastestBpm
    ensures SlowestBpm <= prev + delta <= FastestBpm ==> r == prev + delta
    ensures prev + delta < SlowestBpm ==> r == SlowestBpm
    ensures prev + delta > FastestBpm ==> r == FastestBpm
  {
    Max(SlowestBpm, Min(FastestBpm, prev + delta))
  }

  /** One step up then one down, away from the ceiling, returns to the tempo it started from. */
  lemma NudgeUpDown(bpm: int)
    requires SlowestBpm <= bpm < FastestBpm
    ensures Nudged(Nudged(bpm, 1), -1) == bpm
  {
  }

  /** Steps of one stop at the ends of the range. */
  lemma NudgeSaturates(bpm: int)
    requires SlowestBpm <= bpm <= FastestBpm
    ensures bpm == FastestBpm ==> Nudged(bpm, 1) == bpm
    ensures bpm == SlowestBpm ==> Nudged(bpm, -1) == bpm
  {
  }

  /** The screen: React state, the engine, and the beats of the queued visual callbacks, oldest first. */
  datatype ViewState = ViewState(
    bpm: int,
    playing: bool,
    timeSig: TimeSignature,
    activeBeat: int,
    engine: Engine,
    pending: seq<int>)

  datatype ViewAction =
    | TogglePlay(now: real)      // the play/stop button
    | Nudge(delta: int)          // the -1 and +1 buttons
    | Slide(value: int)          // the range input, which the browser keeps within 30..300
    | PickSig(sig: TimeSignature)
    | Tick(now: real)            // the engine's look-ahead timer fires
    | Fire                       // the oldest queued visual callback fires

  /** The beats of the notes a pass scheduled, in order. */
  function NoteBeats(notes: seq<Note>): (r: seq<int>)
    ensures |r| == |notes| && forall i :: 0 <= i < |notes| ==> r[i] == notes[i].beat
  {
    seq(|notes|, i requires 0 <= i < |notes| => notes[i].beat)
  }

  /** The first render, after the effects that push the tempo and the bar length into the engine. */
  function Initial(): (st: ViewState)
    ensures !st.playing && st.activeBeat == -1 && st.pending == []
    ensures st.bpm == st.engine.bpm == 120 && st.engine.beatsPerBar == 4
  {
    var e := SetTimeSignature(SetBpm(NewEngine(), 120), IntOrZero(BeatsPerBar(FourFour)));
    BeatsPerBarIsNumerator(FourFour);
    ViewState(120, false, FourFour, -1, e, [])
  }

  /** What every reachable state keeps: the engine agrees with the screen, and no timer runs while stopped. */
  predicate Consistent(st: ViewState)
  {
    && SlowestBpm <= st.bpm <= FastestBpm
    && st.engine.bpm == st.bpm
    && st.engine.beatsPerBar == Numerator(st.timeSig)
    && st.engine.playing == st.playing
    && (!st.playing ==> !st.engine.timerSet)
  }

  /** A new tempo, passed on by the `[bpm]` effect. */
  function WithBpm(st: ViewState, bpm: int): ViewState
  {
    st.(bpm := bpm, engine := SetBpm(st.engine, bpm))
  }

  /** One action as the screen handles it. */
  function Step(st: ViewState, a: ViewAction): (r: ViewState)
    requires Consistent(st)
    ensures Consistent(r)
    ensures r.playing == (if a.TogglePlay? then !st.playing else st.playing)
    ensures !a.Fire? ==> r.activeBeat == (if a.TogglePlay? && st.playing then -1 else st.activeBeat)
  {
    match a
    case TogglePlay(now) =>
      if st.playing then st.(playing := false, activeBeat := -1, engine := Stop(st.engine))
      else
        var p := Start(st.engine, now);
        st.(playing := true, engine := p.engine, pending := st.pending + NoteBeats(p.notes))
    case Nudge(delta) => WithBpm(st, Nudged(st.bpm, delta))
    case Slide(value) => WithBpm(st, Max(SlowestBpm, Min(FastestBpm, value)))
    case PickSig(sig) =>
      st.(timeSig := sig, engine := SetTimeSignature(st.engine, IntOrZero(BeatsPerBar(sig))))
    case Tick(now) =>
      if st.engine.timerSet then
        var p := Scheduler(st.engine, now);
        st.(engine := p.engine, pending := st.pending + NoteBeats(p.notes))
      else st
    case Fire =>
      if |st.pending| > 0 then st.(activeBeat := st.pending[0], pending := st.pending[1..]) else st
  }

  /** Every action keeps the screen and the engine in agreement. */
  lemma StepConsistent(st: ViewState, a: ViewAction)
    requires Consistent(st)
    ensures Consistent(Step(st, a))
  {
  }

  /** The play button starts a stopped engine with the first beat queued first, and stops a running one. */
  lemma ToggleEffect(st: ViewState, now: real)
    requires Consistent(st)
    ensures var r := Step(st, TogglePlay(now));
            && r.playing == !st.playing && r.engine.playing == r.playing
            && (st.playing ==> r.activeBeat == -1 && !r.engine.timerSet)
            && (!st.playing ==> |r.pending| > |st.pending| && r.pending[|st.pending|] == 0 && r.engine.timerSet)
  {
  }

  /** A stopped screen whose callbacks are queued lights a dot again once one fires. */
  lemma StaleBeatAfterStop()
    ensures var st1 := Step(Initial(), TogglePlay(0.0));
            Consistent(st1) &&
            var st2 := Step(st1, TogglePlay(0.01));
            Consistent(st2) &&
            var st3 := Step(st2, Fire);
            !st3.playing && st3.activeBeat == 0
  {
    var st0 := Initial();
    StepConsistent(st0, TogglePlay(0.0));
    var st1 := Step(st0, TogglePlay(0.0));
    assert st1.pending[0] == 0;
    StepConsistent(st1, TogglePlay(0.01));
  }

  /** The same step with the queued visual callbacks dropped on stop. */
  function StepFixed(st: ViewState, a: ViewAction): (r: ViewState)
    requires Consistent(st)
    ensures Consistent(r)
    ensures a.TogglePlay? && st.playing ==> r.pending == [] && r.activeBeat == -1
  {
    StepConsistent(st, a);
    var r := Step(st, a);
    if a.TogglePlay? && st.playing then r.(pending := []) else r
  }

  /** While stopped, no dot is lit and nothing is queued. */
  predicate Quiet(st: ViewState)
  {
    !st.playing ==> st.activeBeat == -1 && st.pending == []
  }

  /** With the corrected stop, a stopped screen stays dark whatever happens next. */
  lemma StepFixedQuiet(st: ViewState, a: ViewAction)
    requires Consistent(st) && Quiet(st)
    ensures Quiet(StepFixed(st, a))
  {
  }

  /** From the first render on, the corrected screen is dark whenever it is stopped. */
  lemma {:induction false} RunFixedQuiet(st: ViewState, actions: seq<ViewAction>)
    requires Consistent(st) && Quiet(st)
    ensures Consistent(RunFixed(st, actions)) && Quiet(RunFixed(st, actions))
    decreases |actions|
  {
    if |actions| > 0 {
      StepFixedQuiet(st, actions[0]);
      RunFixedQuiet(StepFixed(st, actions[0]), actions[1..]);
    }
  }

  /** The corrected screen after a run of actions. */
  function RunFixed(st: ViewState, actions: seq<ViewAction>): ViewState
    requires Consistent(st)
    decreases |actions|
  {
    if |actions| == 0 then st else RunFixed(StepFixed(st, actions[0]), actions[1..])
  }
}
