/**
 * `MetronomeEngine` of services/audioService.ts: a look-ahead beat scheduler.
 *
 * The audio clock is an explicit parameter `now` (seconds). A scheduler pass
 * emits every beat whose time falls before `now + ScheduleAhead`; the Web
 * Audio oscillator and the per-beat visual timer it would set up are
 * represented by the emitted `Note` (beat index, start time, pitch and the
 * delay of the visual callback).
 */
module Metronome {
  import opened Util

  /** `scheduleAheadTime`: the look-ahead window, in seconds. */
  const ScheduleAhead: real := 0.1
  /** `start` places the first beat this far after the current clock. */
  const StartLead: real := 0.05
  /** `lookahead`: the host timer period between passes, in milliseconds. */
  const TimerPeriodMs: int := 25
  /** Pitch of the first beat of a bar, and of every other beat. */
  const AccentHz: int := 1000
  const BeatHz: int := 800

  /** The engine's fields; `timerSet` says whether `timerID` is non-null. */
  datatype Engine = Engine(
    playing: bool,
    bpm: int,
    beatsPerBar: int,
    currentBeat: int,
    nextNoteTime: real,
    timerSet: bool)

  /** The field initialisers of a fresh engine. */
  function NewEngine(): Engine
  {
    Engine(false, 120, 4, 0, 0.0, false)
  }

  /** One scheduled click: beat index within the bar, start time, pitch, visual-callback delay. */
  datatype Note = Note(beat: int, time: real, freq: int, delayMs: real)

  /** What a pass hands to the audio graph, and the engine after it. */
  datatype Pass = Pass(notes: seq<Note>, engine: Engine)

  function SecondsPerBeat(bpm: int): (d: real)
    requires bpm > 0
    ensures d > 0.0
  {
    60.0 / bpm as real
  }

  /** `i` beat intervals of length `d`, that is `i * d`, kept linear for the solver. */
  function Steps(i: nat, d: real): real
  {
    if i == 0 then 0.0 else Steps(i - 1, d) + d
  }

  lemma {:induction false} StepsIsProduct(i: nat, d: real)
    ensures Steps(i, d) == i as real * d
  {
    if i > 0 {
      StepsIsProduct(i - 1, d);
    }
  }

  /** Moving the origin one interval forward: the identity behind every pass step. */
  lemma StepsShift(i: nat, d: real)
    ensures Steps(i, d) + d == Steps(i + 1, d)
  {
  }

  lemma {:induction false} StepsIncrease(i: nat, j: nat, d: real)
    requires i < j && d > 0.0
    ensures Steps(i, d) < Steps(j, d)
  {
    if i < j - 1 {
      StepsIncrease(i, j - 1, d);
    }
  }

  /**
   * `scheduleNote`: the accent falls on beat 0 only, and the visual callback
   * waits until the note's time (never a negative delay).
   */
  function ScheduleNote(beat: int, time: real, now: real): (n: Note)
    ensures n.beat == beat && n.time == time
    ensures n.freq == AccentHz <==> beat == 0
    ensures n.freq == AccentHz || n.freq == BeatHz
    ensures n.delayMs >= 0.0
    ensures n.delayMs == 0.0 <==> time <= now
    ensures now + n.delayMs / 1000.0 >= time
  {
    var delay := (time - now) * 1000.0;
    Note(beat, time, if beat == 0 then AccentHz else BeatHz, if delay > 0.0 then delay else 0.0)
  }

  /**
   * `nextNote`: advance the time by one beat at the current tempo and the
   * index by one, wrapping to 0 once it reaches the bar length.
   */
  function NextNote(e: Engine): (r: Engine)
    requires e.bpm > 0
    ensures r == e.(currentBeat := r.currentBeat, nextNoteTime := r.nextNoteTime)
    ensures r.nextNoteTime - e.nextNoteTime == SecondsPerBeat(e.bpm)
    ensures e.currentBeat >= 0 && e.beatsPerBar >= 1 ==> 0 <= r.currentBeat < e.beatsPerBar
    ensures 0 <= e.currentBeat < e.beatsPerBar ==> r.currentBeat == Wrap(e.currentBeat + 1, e.beatsPerBar)
    ensures e.currentBeat + 1 >= e.beatsPerBar ==> r.currentBeat == 0
  {
    var beat := e.currentBeat + 1;
    e.(nextNoteTime := e.nextNoteTime + SecondsPerBeat(e.bpm),
       currentBeat := if beat >= e.beatsPerBar then 0 else beat)
  }

  /** An upper bound on the beats still due in this pass; it drops with every beat. */
  function BeatsDue(e: Engine, now: real): nat
    requires e.bpm > 0
  {
    Due(now + ScheduleAhead - e.nextNoteTime, SecondsPerBeat(e.bpm))
  }

  /** The number of beats of length `d` that start inside a window of length `gap`. */
  function Due(gap: real, d: real): nat
    requires d > 0.0
  {
    if gap > 0.0 then (gap / d).Floor + 1 else 0
  }

  lemma DivExact(x: real, d: real, y: real)
    requires d > 0.0 && y * d == x
    ensures x / d == y
  {
  }

  lemma DueDrops(gap: real, d: real)
    requires d > 0.0 && gap > 0.0
    ensures Due(gap - d, d) < Due(gap, d)
  {
    var q := gap / d;
    DivExact(gap, d, q);
    assert (q - 1.0) * d == gap - d;
    DivExact(gap - d, d, q - 1.0);
  }

  lemma BeatsDueDrops(e: Engine, now: real)
    requires e.bpm > 0 && e.nextNoteTime < now + ScheduleAhead
    ensures BeatsDue(NextNote(e), now) < BeatsDue(e, now)
  {
    var d := SecondsPerBeat(e.bpm);
    var gap := now + ScheduleAhead - e.nextNoteTime;
    DueDrops(gap, d);
    assert now + ScheduleAhead - NextNote(e).nextNoteTime == gap - d;
  }

  /**
   * The `while` loop of `scheduler`: emit the current beat and step, as long
   * as the next beat falls inside the look-ahead window of `now`.
   */
  function RunPass(e: Engine, now: real): (r: Pass)
    requires e.bpm > 0
    decreases BeatsDue(e, now)
    // catch-up: however late the pass runs, every beat due in the window is emitted
    ensures r.engine.nextNoteTime >= now + ScheduleAhead
    ensures |r.notes| == 0 <==> e.nextNoteTime >= now + ScheduleAhead
    ensures forall i :: 0 <= i < |r.notes| ==> r.notes[i].time < now + ScheduleAhead
    ensures forall i :: 0 <= i < |r.notes| ==>
              r.notes[i] == ScheduleNote(r.notes[i].beat, r.notes[i].time, now)
    // only the beat counter and the clock move
    ensures r.engine == e.(currentBeat := r.engine.currentBeat, nextNoteTime := r.engine.nextNoteTime)
    ensures |r.notes| > 0 ==> r.notes[0].beat == e.currentBeat
    ensures |r.notes| > 0 && e.currentBeat >= 0 && e.beatsPerBar >= 1 ==>
              0 <= r.engine.currentBeat < e.beatsPerBar
    ensures 0 <= e.currentBeat < e.beatsPerBar ==>
              (forall i :: 0 <= i < |r.notes| ==> r.notes[i].beat == Wrap(e.currentBeat + i, e.beatsPerBar))
              && r.engine.currentBeat == Wrap(e.currentBeat + |r.notes|, e.beatsPerBar)
  {
    if e.nextNoteTime < now + ScheduleAhead then
      BeatsDueDrops(e, now);
      var next := NextNote(e);
      var rest := RunPass(next, now);
      var r := Pass([ScheduleNote(e.currentBeat, e.nextNoteTime, now)] + rest.notes, rest.engine);
      PassStep(e, now, next, rest, r);
      r
    else
      Pass([], e)
  }

  /** The index arithmetic that carries the recursive call's contract to its caller. */
  lemma PassStep(e: Engine, now: real, next: Engine, rest: Pass, r: Pass)
    requires e.bpm > 0 && next == NextNote(e)
    requires 0 <= next.currentBeat < next.beatsPerBar ==>
               (forall i :: 0 <= i < |rest.notes| ==> rest.notes[i].beat == Wrap(next.currentBeat + i, next.beatsPerBar))
               && rest.engine.currentBeat == Wrap(next.currentBeat + |rest.notes|, next.beatsPerBar)
    requires r == Pass([ScheduleNote(e.currentBeat, e.nextNoteTime, now)] + rest.notes, rest.engine)
    ensures 0 <= e.currentBeat < e.beatsPerBar ==>
              (forall i :: 0 <= i < |r.notes| ==> r.notes[i].beat == Wrap(e.currentBeat + i, e.beatsPerBar))
              && r.engine.currentBeat == Wrap(e.currentBeat + |r.notes|, e.beatsPerBar)
  {
    if 0 <= e.currentBeat < e.beatsPerBar {
      var n := e.beatsPerBar;
      var c := e.currentBeat;
      forall i | 0 <= i < |r.notes|
        ensures r.notes[i].beat == Wrap(c + i, n)
      {
        if i > 0 {
          assert r.notes[i] == rest.notes[i - 1];
          WrapShift(c + 1, i - 1, n);
        } else {
          WrapSmall(c, n);
        }
      }
      WrapShift(c + 1, |rest.notes|, n);
    }
  }

  /**
   * Beats in one pass are one interval apart at the tempo current during the
   * pass, and the clock ends one interval after the last of them.
   */
  lemma {:induction false} PassTiming(e: Engine, now: real)
    requires e.bpm > 0
    decreases BeatsDue(e, now)
    ensures var r := RunPass(e, now);
            && (forall i :: 0 <= i < |r.notes| ==>
                  r.notes[i].time == e.nextNoteTime + Steps(i, SecondsPerBeat(e.bpm)))
            && r.engine.nextNoteTime == e.nextNoteTime + Steps(|r.notes|, SecondsPerBeat(e.bpm))
  {
    if e.nextNoteTime < now + ScheduleAhead {
      BeatsDueDrops(e, now);
      var d := SecondsPerBeat(e.bpm);
      var next := NextNote(e);
      PassTiming(next, now);
      var rest := RunPass(next, now);
      var r := RunPass(e, now);
      assert r.notes == [ScheduleNote(e.currentBeat, e.nextNoteTime, now)] + rest.notes;
      forall i | 0 <= i < |r.notes|
        ensures r.notes[i].time == e.nextNoteTime + Steps(i, d)
      {
        if i > 0 {
          assert r.notes[i] == rest.notes[i - 1];
          StepsShift(i - 1, d);
        }
      }
      StepsShift(|rest.notes|, d);
    }
  }

  /**
   * `scheduler`: one pass, then re-arm the host timer if still playing. A pass
   * that runs after `stop` leaves the timer unset.
   */
  function Scheduler(e: Engine, now: real): (r: Pass)
    requires e.bpm > 0
    ensures r.notes == RunPass(e, now).notes
    ensures r.engine.timerSet == (e.playing || e.timerSet)
    ensures r.engine.playing == e.playing
    ensures r.engine.bpm == e.bpm && r.engine.beatsPerBar == e.beatsPerBar
    ensures r.engine.nextNoteTime >= now + ScheduleAhead
  {
    var p := RunPass(e, now);
    if e.playing then Pass(p.notes, p.engine.(timerSet := true)) else p
  }

  /**
   * `start`: a no-op while playing; otherwise rewind the bar, put the first
   * beat `StartLead` after the clock and run a pass at once.
   */
  function Start(e: Engine, now: real): (r: Pass)
    requires !e.playing ==> e.bpm > 0
    ensures e.playing ==> r == Pass([], e)
    ensures !e.playing ==>
              && r.engine.playing && r.engine.timerSet
              && r.engine.bpm == e.bpm && r.engine.beatsPerBar == e.beatsPerBar
              && |r.notes| >= 1
              && r.notes[0] == Note(0, now + StartLead, AccentHz, StartLead * 1000.0)
  {
    if e.playing then Pass([], e)
    else Scheduler(e.(playing := true, currentBeat := 0, nextNoteTime := now + StartLead), now)
  }

  /** `stop`: stop playing and clear the pending timer. */
  function Stop(e: Engine): (r: Engine)
    ensures !r.playing && !r.timerSet
    ensures r.bpm == e.bpm && r.beatsPerBar == e.beatsPerBar
    ensures r.currentBeat == e.currentBeat && r.nextNoteTime == e.nextNoteTime
  {
    e.(playing := false, timerSet := false)
  }

  /** `setBpm`: no check on the value; it takes effect at the next `nextNote`. */
  function SetBpm(e: Engine, bpm: int): (r: Engine)
    ensures r.bpm == bpm && r == e.(bpm := r.bpm)
  {
    e.(bpm := bpm)
  }

  /** `setTimeSignature`: only the wrap-around bound changes, not the beat index. */
  function SetTimeSignature(e: Engine, beats: int): (r: Engine)
    ensures r.beatsPerBar == beats && r == e.(beatsPerBar := r.beatsPerBar)
  {
    e.(beatsPerBar := beats)
  }

  // -----------------------------------------------------------------------
  // Properties of passes and of sequences of passes
  // -----------------------------------------------------------------------

  predicate StrictlyIncreasing(notes: seq<Note>)
  {
    forall i, j :: 0 <= i < j < |notes| ==> notes[i].time < notes[j].time
  }

  /** Within one pass, note times strictly increase. */
  lemma PassTimesIncrease(e: Engine, now: real)
    requires e.bpm > 0
    ensures StrictlyIncreasing(RunPass(e, now).notes)
  {
    var notes := RunPass(e, now).notes;
    PassTiming(e, now);
    forall i, j | 0 <= i < j < |notes| ensures notes[i].time < notes[j].time {
      StepsIncrease(i, j, SecondsPerBeat(e.bpm));
    }
  }

  /**
   * A tempo change between two passes: the notes already emitted keep their
   * times, the first note of the next pass is still one OLD interval after the
   * last one, and only the spacing after it uses the new tempo.
   */
  lemma TempoChangeAppliesToLaterBeats(e: Engine, now1: real, now2: real, bpm: int)
    requires e.bpm > 0 && bpm > 0
    ensures var p1 := Scheduler(e, now1);
            var p2 := Scheduler(SetBpm(p1.engine, bpm), now2);
            && (|p1.notes| > 0 && |p2.notes| > 0 ==>
                  p2.notes[0].time == p1.notes[|p1.notes| - 1].time + SecondsPerBeat(e.bpm))
            && (forall i :: 1 <= i < |p2.notes| ==>
                  p2.notes[i].time == p2.notes[i - 1].time + SecondsPerBeat(bpm))
            && StrictlyIncreasing(p1.notes + p2.notes)
  {
    var p1 := Scheduler(e, now1);
    var e1 := SetBpm(p1.engine, bpm);
    var p2 := Scheduler(e1, now2);
    var d1 := SecondsPerBeat(e.bpm);
    var d2 := SecondsPerBeat(bpm);
    var t0 := e.nextNoteTime;
    var t1 := e1.nextNoteTime;
    PassTiming(e, now1);
    PassTiming(e1, now2);
    assert t1 == t0 + Steps(|p1.notes|, d1);
    if |p1.notes| > 0 && |p2.notes| > 0 {
      StepsShift(|p1.notes| - 1, d1);
    }
    forall i | 1 <= i < |p2.notes|
      ensures p2.notes[i].time == p2.notes[i - 1].time + d2
    {
      StepsShift(i - 1, d2);
    }
    PassTimesIncrease(e, now1);
    PassTimesIncrease(e1, now2);
    PassWithin(e, now1);
    PassWithin(e1, now2);
    ConcatIncreasing(p1.notes, p2.notes, t1);
  }

  /** A pass's notes lie between the clock it starts from and the clock it leaves. */
  lemma PassWithin(e: Engine, now: real)
    requires e.bpm > 0
    ensures var r := RunPass(e, now);
            forall i :: 0 <= i < |r.notes| ==> e.nextNoteTime <= r.notes[i].time < r.engine.nextNoteTime
  {
    var r := RunPass(e, now);
    var d := SecondsPerBeat(e.bpm);
    PassTiming(e, now);
    forall i | 0 <= i < |r.notes| ensures e.nextNoteTime <= r.notes[i].time < r.engine.nextNoteTime {
      StepsIncrease(i, |r.notes|, d);
      if i > 0 {
        StepsIncrease(0, i, d);
      }
    }
  }

  /** Two increasing runs, the first before `t` and the second from `t` on, form one increasing run. */
  lemma ConcatIncreasing(a: seq<Note>, b: seq<Note>, t: real)
    requires StrictlyIncreasing(a) && StrictlyIncreasing(b)
    requires forall i :: 0 <= i < |a| ==> a[i].time < t
    requires forall j :: 0 <= j < |b| ==> t <= b[j].time
    ensures StrictlyIncreasing(a + b)
  {
    var all := a + b;
    forall i, j | 0 <= i < j < |all| ensures all[i].time < all[j].time {
      if j >= |a| && i < |a| {
        assert all[i] == a[i] && all[j] == b[j - |a|];
      }
    }
  }

  /** Two runs of cyclic beat indices, the second starting where the first stopped, form one run. */
  lemma BeatsConcat(a: seq<Note>, b: seq<Note>, c: nat, n: nat, m: nat)
    requires n > 0
    requires forall i :: 0 <= i < |a| ==> a[i].beat == Wrap(c + i, n)
    requires m == Wrap(c + |a|, n)
    requires forall i :: 0 <= i < |b| ==> b[i].beat == Wrap(m + i, n)
    ensures forall i :: 0 <= i < |a + b| ==> (a + b)[i].beat == Wrap(c + i, n)
  {
    forall i | |a| <= i < |a + b| ensures (a + b)[i].beat == Wrap(c + i, n) {
      WrapShift(c + |a|, i - |a|, n);
    }
  }

  /** With the bar length fixed, beat indices keep cycling 0..N-1 across passes. */
  lemma BeatsCycleAcrossPasses(e: Engine, now1: real, now2: real)
    requires e.bpm > 0 && 0 <= e.currentBeat < e.beatsPerBar
    ensures var p1 := RunPass(e, now1);
            var p2 := RunPass(p1.engine, now2);
            forall i :: 0 <= i < |p1.notes + p2.notes| ==>
              (p1.notes + p2.notes)[i].beat == Wrap(e.currentBeat + i, e.beatsPerBar)
  {
    var p1 := RunPass(e, now1);
    var p2 := RunPass(p1.engine, now2);
    BeatsConcat(p1.notes, p2.notes, e.currentBeat, e.beatsPerBar, p1.engine.currentBeat);
  }

  /**
   * When the bar shrinks below the current index mid-bar, the next pass still
   * emits the stale index once; the bound is checked only after the step.
   */
  lemma ShrunkBarEmitsStaleBeatOnce(e: Engine, now: real)
    requires e.bpm > 0 && 1 <= e.beatsPerBar <= e.currentBeat
    ensures var p := RunPass(e, now);
            |p.notes| > 0 ==>
              && p.notes[0].beat == e.currentBeat
              && (forall i :: 1 <= i < |p.notes| ==> p.notes[i].beat == Wrap(i - 1, e.beatsPerBar))
              && 0 <= p.engine.currentBeat < e.beatsPerBar
  {
    var p := RunPass(e, now);
    if |p.notes| > 0 {
      var rest := RunPass(NextNote(e), now);
      assert p.notes[1..] == rest.notes;
      forall i | 1 <= i < |p.notes| ensures p.notes[i].beat == Wrap(i - 1, e.beatsPerBar) {
        assert p.notes[i] == rest.notes[i - 1];
      }
    }
  }

  /** Up to 1200 bpm a beat lasts at least the start lead. */
  lemma BeatNoShorterThanLead(bpm: int)
    requires 0 < bpm <= 1200
    ensures SecondsPerBeat(bpm) >= StartLead
  {
    var b := bpm as real;
    var d := SecondsPerBeat(bpm);
    assert d * b == 60.0;
    assert d == StartLead + (60.0 - StartLead * b) / b;
    assert (60.0 - StartLead * b) / b >= 0.0;
  }

  /** At any tempo up to 1200 bpm, `start` emits exactly the accented first beat. */
  lemma StartEmitsOneAccent(e: Engine, now: real)
    requires !e.playing && 0 < e.bpm <= 1200
    ensures Start(e, now).notes == [Note(0, now + StartLead, AccentHz, StartLead * 1000.0)]
  {
    var s := e.(playing := true, currentBeat := 0, nextNoteTime := now + StartLead);
    var notes := RunPass(s, now).notes;
    var d := SecondsPerBeat(e.bpm);
    BeatNoShorterThanLead(e.bpm);
    PassTiming(s, now);
    assert Steps(1, d) == d;
    if |notes| > 1 {
      assert false;
    }
  }

  /** `stop` twice is `stop` once. */
  lemma StopIdempotent(e: Engine)
    ensures Stop(Stop(e)) == Stop(e)
  {
  }

  /** After `stop`, a pass that still runs does not re-arm the timer. */
  lemma StoppedPassDoesNotRearm(e: Engine, now: real)
    requires e.bpm > 0
    ensures !Scheduler(Stop(e), now).engine.timerSet
    ensures !Scheduler(Stop(e), now).engine.playing
  {
  }
}
