/**
 * `isPairMastered`: a pair is mastered once its last three sessions all
 * reach the pair's target tempo.
 */
module Mastery {
  import opened Util
  import opened Text
  import opened Types
  import opened TargetBpm

  /** The sessions of the pair `key` (sorted ids), in history order. */
  function PairHistory(history: seq<PracticeSession>, key: (string, string)): (r: seq<PracticeSession>)
    ensures |r| <= |history|
    ensures forall i :: 0 <= i < |r| ==> SortPair(r[i].chordA, r[i].chordB) == key
  {
    if |history| == 0 then []
    else
      var h := history[0];
      (if SortPair(h.chordA, h.chordB) == key then [h] else []) + PairHistory(history[1..], key)
  }

  /** The pair's history holds every session of the pair and nothing else. */
  lemma {:induction false} PairHistoryMembers(history: seq<PracticeSession>, key: (string, string))
    ensures forall s :: s in PairHistory(history, key) <==> s in history && SortPair(s.chordA, s.chordB) == key
  {
    if |history| > 0 {
      PairHistoryMembers(history[1..], key);
      assert forall s :: s in history <==> s == history[0] || s in history[1..];
    }
  }

  lemma {:induction false} PairHistoryConcat(a: seq<PracticeSession>, b: seq<PracticeSession>, key: (string, string))
    ensures PairHistory(a + b, key) == PairHistory(a, key) + PairHistory(b, key)
  {
    if |a| == 0 {
      assert a + b == b;
    } else {
      var hd := if SortPair(a[0].chordA, a[0].chordB) == key then [a[0]] else [];
      assert (a + b)[0] == a[0];
      assert (a + b)[1..] == a[1..] + b;
      PairHistoryConcat(a[1..], b, key);
      assert hd + (PairHistory(a[1..], key) + PairHistory(b, key)) == (hd + PairHistory(a[1..], key)) + PairHistory(b, key);
    }
  }

  /** `bpm >= target`, which is false when the target is `NaN`. */
  predicate Meets(bpm: int, target: Option<int>)
  {
    target.Some? && bpm >= target.value
  }

  /** `isPairMastered`: at least three sessions of the pair, and the last three all at or above the target. */
  predicate IsPairMastered(history: seq<PracticeSession>, db: seq<Chord>, targets: Targets, a: string, b: string)
    ensures IsPairMastered(history, db, targets, a, b) ==>
              |PairHistory(history, SortPair(a, b))| >= 3 && GetTargetBpm(db, targets, a, b).Some?
  {
    var pairHistory := PairHistory(history, SortPair(a, b));
    var target := GetTargetBpm(db, targets, a, b);
    assert LastThreeMeet(pairHistory, target) ==> Meets(pairHistory[|pairHistory| - 1].bpm, target);
    LastThreeMeet(pairHistory, target)
  }

  /** `pairHistory.length >= 3` and `pairHistory.slice(-3).every(s => s.bpm >= target)`. */
  predicate LastThreeMeet(pairHistory: seq<PracticeSession>, target: Option<int>)
  {
    |pairHistory| >= 3 &&
    forall k :: |pairHistory| - 3 <= k < |pairHistory| ==> Meets(pairHistory[k].bpm, target)
  }

  /** Only the last three sessions of a pair history count. */
  lemma LastThreeSuffix(p: seq<PracticeSession>, q: seq<PracticeSession>, target: Option<int>)
    requires |q| >= 3
    ensures LastThreeMeet(p + q, target) == LastThreeMeet(q, target)
  {
    var pq := p + q;
    if LastThreeMeet(q, target) {
      forall k | |pq| - 3 <= k < |pq| ensures Meets(pq[k].bpm, target) {
        assert pq[k] == q[k - |p|];
      }
    }
    if LastThreeMeet(pq, target) {
      forall k | |q| - 3 <= k < |q| ensures Meets(q[k].bpm, target) {
        assert pq[k + |p|] == q[k];
      }
    }
  }

  /**
   * Only the last three sessions of the pair count: once a later stretch of
   * history holds three sessions of the pair, whatever came before it is
   * irrelevant.
   */
  lemma MasteredIgnoresEarlier(early: seq<PracticeSession>, late: seq<PracticeSession>, db: seq<Chord>, targets: Targets, a: string, b: string)
    requires |PairHistory(late, SortPair(a, b))| >= 3
    ensures IsPairMastered(early + late, db, targets, a, b) == IsPairMastered(late, db, targets, a, b)
  {
    var key := SortPair(a, b);
    PairHistoryConcat(early, late, key);
    LastThreeSuffix(PairHistory(early, key), PairHistory(late, key), GetTargetBpm(db, targets, a, b));
  }

  /** A session of another pair, appended, does not change whether the pair is mastered. */
  lemma MasteredIgnoresOtherPairs(history: seq<PracticeSession>, s: PracticeSession, db: seq<Chord>, targets: Targets, a: string, b: string)
    requires SortPair(s.chordA, s.chordB) != SortPair(a, b)
    ensures IsPairMastered(history + [s], db, targets, a, b) == IsPairMastered(history, db, targets, a, b)
  {
    PairHistoryConcat(history, [s], SortPair(a, b));
    assert PairHistory([s], SortPair(a, b)) == [];
    assert PairHistory(history, SortPair(a, b)) + [] == PairHistory(history, SortPair(a, b));
  }

  /** The test does not depend on the order the pair is given in. */
  lemma MasteredSymmetric(history: seq<PracticeSession>, db: seq<Chord>, targets: Targets, a: string, b: string)
    ensures IsPairMastered(history, db, targets, a, b) == IsPairMastered(history, db, targets, b, a)
  {
    SortPairSymmetric(a, b);
    TargetBpmSymmetric(db, targets, a, b);
  }

  /** Fewer than three sessions of the pair never make it mastered, whatever their tempo. */
  lemma FewSessionsNotMastered(history: seq<PracticeSession>, db: seq<Chord>, targets: Targets, a: string, b: string)
    requires |PairHistory(history, SortPair(a, b))| < 3
    ensures !IsPairMastered(history, db, targets, a, b)
  {
  }
}
