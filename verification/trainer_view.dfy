/**
 * The trainer screen's arithmetic: the one-minute countdown, the review
 * counter, the duration and tempo a session is saved with, and the chord
 * pickers' grouping by type.
 *
 * `localeCompare` is a parameter `le`: any total preorder on names.
 */
module TrainerView {
  import opened Util
  import opened Text
  import opened Types
  import opened HistoryService

  /** A session lasts this many seconds unless it is stopped early. */
  const SessionSeconds: int := 60
  /** A saved duration below this is taken to be a glitch. */
  const ShortestDuration: int := 5

  // ---------------------------------------------------------------------
  // Countdown
  // ---------------------------------------------------------------------

  /** One tick of the interval timer: the time left, and whether the tick finishes the session. */
  datatype TickResult = TickResult(timeLeft: int, finished: bool)

  /** The `setTimeLeft` updater: at one second or less finish with 0, else count down by one. */
  function Tick(prev: int): (r: TickResult)
    ensures r.finished <==> prev <= 1
    ensures r.timeLeft >= 0
    ensures r.finished ==> r.timeLeft == 0
    ensures !r.finished ==> r.timeLeft == prev - 1
  {
    if prev <= 1 then TickResult(0, true) else TickResult(prev - 1, false)
  }

  /** `n` ticks from `t` seconds left; the timer stops with the tick that finishes. */
  function Countdown(t: int, n: nat): (r: TickResult)
    ensures r.finished <==> n >= 1 && n >= t
    ensures r.finished ==> r.timeLeft == 0
    ensures !r.finished ==> r.timeLeft == t - n
    decreases n
  {
    if n == 0 then TickResult(t, false)
    else
      var r := Tick(t);
      if r.finished then r else Countdown(r.timeLeft, n - 1)
  }

  /** From `t` seconds a session runs `t - 1` ticks unfinished and the `t`-th tick finishes it at 0. */
  lemma {:induction false} CountdownRuns(t: int, n: nat)
    requires t >= 1 && n <= t
    ensures Countdown(t, n) == if n < t then TickResult(t - n, false) else TickResult(0, true)
    decreases n
  {
    if n > 0 && t > 1 {
      CountdownRuns(t - 1, n - 1);
    }
  }

  /** A full session counts down from 60 to 0 in sixty ticks, never below 0. */
  lemma FullSession(n: nat)
    requires n <= SessionSeconds
    ensures Countdown(SessionSeconds, n).timeLeft == SessionSeconds - n
    ensures Countdown(SessionSeconds, n).finished <==> n == SessionSeconds
  {
    CountdownRuns(SessionSeconds, n);
  }

  // ---------------------------------------------------------------------
  // Review counter
  // ---------------------------------------------------------------------

  datatype Press = Minus | Plus

  /** The review counter's buttons: minus stops at 0, plus adds one. */
  function Pressed(count: int, p: Press): (r: int)
    ensures p == Plus ==> r == count + 1
    ensures p == Minus ==> r == (if count > 0 then count - 1 else 0)
  {
    match p
    case Minus => Max(0, count - 1)
    case Plus => count + 1
  }

  function PressAll(count: int, presses: seq<Press>): int
    decreases |presses|
  {
    if |presses| == 0 then count else PressAll(Pressed(count, presses[0]), presses[1..])
  }

  /** Starting from a detected count, no sequence of presses makes the counter negative. */
  lemma {:induction false} PressesStayNatural(count: int, presses: seq<Press>)
    requires count >= 0
    ensures PressAll(count, presses) >= 0
    ensures PressAll(count, presses) <= count + |presses|
    decreases |presses|
  {
    if |presses| > 0 {
      PressesStayNatural(Pressed(count, presses[0]), presses[1..]);
    }
  }

  /** Plus then minus undoes the plus. */
  lemma PlusMinus(count: int)
    requires count >= 0
    ensures Pressed(Pressed(count, Plus), Minus) == count
  {
  }

  // ---------------------------------------------------------------------
  // The saved session
  // ---------------------------------------------------------------------

  /** `saveSession`'s duration: the seconds elapsed, or 60 when fewer than 5 elapsed. */
  function SavedDuration(timeLeft: int): (d: int)
    ensures d >= ShortestDuration
    ensures timeLeft >= 0 ==> d <= SessionSeconds
    ensures timeLeft <= SessionSeconds - ShortestDuration ==> d == SessionSeconds - timeLeft
    ensures timeLeft > SessionSeconds - ShortestDuration ==> d == SessionSeconds
  {
    var duration := SessionSeconds - timeLeft;
    if duration < ShortestDuration then SessionSeconds else duration
  }

  /** `Math.round`: the nearest integer, halves rounded up. */
  function RoundHalfUp(x: real): int
  {
    (x + 0.5).Floor
  }

  lemma RoundNearest(x: real)
    ensures RoundHalfUp(x) as real - 0.5 <= x < RoundHalfUp(x) as real + 0.5
  {
  }

  /** `Math.round((count / duration) * 60)`. */
  function SavedBpm(count: int, duration: int): (r: int)
    requires duration > 0
    ensures r == (120 * count + duration) / (2 * duration)
  {
    var p, q := 120 * count + duration, 2 * duration;
    HalfUpRatio(count as real, duration as real);
    assert p as real == 120.0 * count as real + duration as real;
    assert q as real == 2.0 * duration as real;
    FloorOfRatio(p, q);
    RoundHalfUp(count as real / duration as real * 60.0)
  }

  lemma ZeroProduct(a: real, k: real)
    requires k > 0.0 && a * k == 0.0
    ensures a == 0.0
  {
  }

  /** The floor of a ratio with a positive denominator is Euclidean division. */
  lemma FloorOfRatio(p: int, q: int)
    requires q > 0
    ensures (p as real / q as real).Floor == p / q
  {
    var k, m := p / q, p % q;
    assert p == k * q + m && 0 <= m < q;
    var y := p as real / q as real;
    assert y == k as real + m as real / q as real;
    assert 0.0 <= m as real / q as real < 1.0;
  }

  /** Half a step above `c / d` changes per second, scaled to a minute, as one ratio. */
  lemma HalfUpRatio(c: real, d: real)
    requires d > 0.0
    ensures c / d * 60.0 + 0.5 == (120.0 * c + d) / (2.0 * d)
  {
    var x := c / d * 60.0;
    var y := (120.0 * c + d) / (2.0 * d);
    assert x * d == 60.0 * c;
    assert y * (2.0 * d) == 120.0 * c + d;
    ZeroProduct(x + 0.5 - y, 2.0 * d);
  }

  /** The saved tempo is the changes per minute rounded to the nearest integer, halves up, in integer terms. */
  lemma SavedBpmExact(count: int, duration: int)
    requires duration > 0
    ensures SavedBpm(count, duration) == (120 * count + duration) / (2 * duration)
    ensures var x := count as real / duration as real * 60.0;
            SavedBpm(count, duration) as real - 0.5 <= x < SavedBpm(count, duration) as real + 0.5
  {
    RoundNearest(count as real / duration as real * 60.0);
  }

  /** The session `saveSession` hands to the history: today's date, the pair, the reviewed count, its tempo and duration. */
  function SavedSession(iso: string, chordA: string, chordB: string, reviewCount: int, timeLeft: int): (r: SessionDraft)
    ensures 'T' !in r.date
    ensures r.chordA == chordA && r.chordB == chordB && r.count == reviewCount
    ensures r.durationSeconds >= ShortestDuration
    ensures 0 <= timeLeft ==> r.durationSeconds <= SessionSeconds
    ensures r.bpm == (120 * reviewCount + r.durationSeconds) / (2 * r.durationSeconds)
  {
    var duration := SavedDuration(timeLeft);
    SavedBpmExact(reviewCount, duration);
    SessionDraft(Split(iso, 'T')[0], chordA, chordB, SavedBpm(reviewCount, duration), reviewCount, duration)
  }

  /** A full minute at 30 changes saves 30 bpm; a session stopped at 40 seconds left saves 20 changes as 60 bpm. */
  lemma SavedExamples(iso: string)
    ensures SavedSession(iso, "C", "G", 30, 0).bpm == 30
    ensures SavedSession(iso, "C", "G", 20, 40).bpm == 60 && SavedSession(iso, "C", "G", 20, 40).durationSeconds == 20
    ensures SavedSession(iso, "C", "G", 7, 58).durationSeconds == 60 && SavedSession(iso, "C", "G", 7, 58).bpm == 7
  {
  }

  /** Saving appends the reviewed session after every earlier one. */
  lemma SaveAppends(st: Stored, iso: string, chordA: string, chordB: string, reviewCount: int, timeLeft: int, id: string)
    requires 0 <= timeLeft <= SessionSeconds
    ensures var u := AddSession(st, SavedSession(iso, chordA, chordB, reviewCount, timeLeft), id);
            var s := u.history[|u.history| - 1];
            && u.history[..|u.history| - 1] == GetHistory(st)
            && s.chordA == chordA && s.chordB == chordB && s.count == reviewCount
            && ShortestDuration <= s.durationSeconds <= SessionSeconds
  {
  }

  // ---------------------------------------------------------------------
  // Chord pickers
  // ---------------------------------------------------------------------

  /** `localeCompare` stand-in: total and transitive on names. */
  ghost predicate TotalPreorder(le: (string, string) -> bool)
  {
    && (forall a, b :: le(a, b) || le(b, a))
    && (forall a, b, c :: le(a, b) && le(b, c) ==> le(a, c))
  }

  predicate SortedByName(s: seq<Chord>, le: (string, string) -> bool)
  {
    forall i, j :: 0 <= i < j < |s| ==> le(s[i].name, s[j].name)
  }

  /** Put `x` before the first chord it may precede. */
  function Insert(x: Chord, s: seq<Chord>, le: (string, string) -> bool): (r: seq<Chord>)
    ensures multiset(r) == multiset(s) + multiset{x}
    ensures |r| == |s| + 1
  {
    if |s| == 0 then [x]
    else if le(x.name, s[0].name) then [x] + s
    else
      assert s == [s[0]] + s[1..];
      [s[0]] + Insert(x, s[1..], le)
  }

  lemma {:induction false} InsertSorted(x: Chord, s: seq<Chord>, le: (string, string) -> bool)
    requires TotalPreorder(le) && SortedByName(s, le)
    ensures SortedByName(Insert(x, s, le), le)
  {
    if |s| > 0 && !le(x.name, s[0].name) {
      var rest := s[1..];
      assert SortedByName(rest, le);
      InsertSorted(x, rest, le);
      var r := Insert(x, s, le);
      var ins := Insert(x, rest, le);
      assert r == [s[0]] + ins;
      assert le(s[0].name, x.name);
      forall k | 0 <= k < |ins| ensures le(s[0].name, ins[k].name) {
        InsertMember(x, rest, le, k);
        if ins[k] != x {
          var m :| 0 <= m < |rest| && rest[m] == ins[k];
          assert rest[m] == s[m + 1];
        }
      }
    }
  }

  /** Every element after an insertion is the inserted one or was there before. */
  lemma InsertMember(x: Chord, s: seq<Chord>, le: (string, string) -> bool, k: int)
    requires 0 <= k < |Insert(x, s, le)|
    ensures Insert(x, s, le)[k] == x || Insert(x, s, le)[k] in s
  {
    var r := Insert(x, s, le);
    assert r[k] in multiset(r);
  }

  /** `Array.prototype.sort` with the name comparator: a reordering sorted by name. */
  function SortByName(s: seq<Chord>, le: (string, string) -> bool): (r: seq<Chord>)
    ensures multiset(r) == multiset(s)
    ensures |r| == |s|
  {
    if |s| == 0 then []
    else
      assert s == [s[0]] + s[1..];
      Insert(s[0], SortByName(s[1..], le), le)
  }

  lemma {:induction false} SortByNameSorted(s: seq<Chord>, le: (string, string) -> bool)
    requires TotalPreorder(le)
    ensures SortedByName(SortByName(s, le), le)
  {
    if |s| > 0 {
      SortByNameSorted(s[1..], le);
      InsertSorted(s[0], SortByName(s[1..], le), le);
    }
  }

  /** The three option groups. */
  datatype ChordGroups = ChordGroups(open: seq<Chord>, barre: seq<Chord>, other: seq<Chord>)

  predicate IsOpen(c: Chord)
  {
    c.chordType == Open
  }

  predicate IsBarre(c: Chord)
  {
    c.chordType == Barre
  }

  predicate IsOther(c: Chord)
  {
    c.chordType != Open && c.chordType != Barre
  }

  /** The pickers' groups: open, barre and every other chord, each sorted by name. */
  function Groups(db: seq<Chord>, le: (string, string) -> bool): (g: ChordGroups)
    ensures forall c :: c in g.open <==> c in db && c.chordType == Open
    ensures forall c :: c in g.barre <==> c in db && c.chordType == Barre
    ensures forall c :: c in g.other <==> c in db && IsOther(c)
  {
    var open := Filter(db, IsOpen);
    var barre := Filter(db, IsBarre);
    var other := Filter(db, IsOther);
    SortMembers(open, le);
    SortMembers(barre, le);
    SortMembers(other, le);
    ChordGroups(SortByName(open, le), SortByName(barre, le), SortByName(other, le))
  }

  lemma SortMembers(s: seq<Chord>, le: (string, string) -> bool)
    ensures forall c :: c in SortByName(s, le) <==> c in s
  {
    var r := SortByName(s, le);
    forall c ensures c in r <==> c in s {
      assert c in r <==> c in multiset(r);
      assert c in s <==> c in multiset(s);
    }
  }

  /** Each chord of the database lands in exactly one group, as often as it occurs. */
  lemma GroupsPartition(db: seq<Chord>, le: (string, string) -> bool)
    ensures var g := Groups(db, le);
            multiset(g.open) + multiset(g.barre) + multiset(g.other) == multiset(db)
  {
    PartitionByType(db);
  }

  lemma PartitionByType(db: seq<Chord>)
    ensures multiset(Filter(db, IsOpen)) + multiset(Filter(db, IsBarre)) + multiset(Filter(db, IsOther)) == multiset(db)
  {
    FilterPartition3(db, IsOpen, IsBarre, IsOther);
  }

  /** Every group is sorted by name. */
  lemma GroupsSorted(db: seq<Chord>, le: (string, string) -> bool)
    requires TotalPreorder(le)
    ensures var g := Groups(db, le);
            SortedByName(g.open, le) && SortedByName(g.barre, le) && SortedByName(g.other, le)
  {
    SortByNameSorted(Filter(db, IsOpen), le);
    SortByNameSorted(Filter(db, IsBarre), le);
    SortByNameSorted(Filter(db, IsOther), le);
  }
}
