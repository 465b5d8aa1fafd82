/**
 * `getRecommendations`: up to four pairs of the progression list still to
 * master, one mastered pair to review, or a fixed starting pair.
 *
 * The chord database and the history are parameters: the service reads them
 * from `CHORD_DB` and `getHistory`.
 */
module Recommend {
  import opened Util
  import opened Text
  import opened Types
  import opened ChordLookup
  import opened TargetBpm
  import opened Mastery

  /** The hard-coded progression, easiest first. */
  const ProgressionPairs: seq<(string, string)> := [
    ("Em", "Am"), ("C", "G"), ("D", "A"), ("Am", "C"), ("Em", "G"),
    ("D", "G"), ("A", "E"), ("C", "Dm"), ("Am", "Dm"), ("G", "Em"),
    ("C", "F"), ("G", "D"), ("A", "D"), ("F", "Am"), ("Dm", "G"),
    ("E", "Am"), ("Dm", "A"), ("C", "E"),
    ("Bm", "F#"), ("Gm", "Cm"), ("F", "Bb"), ("Bm", "Em"), ("F#", "B")
  ]

  datatype Recommendation = Recommendation(
    chordA: Option<Chord>,
    chordB: Option<Chord>,
    reason: string,
    level: int,
    isMastered: bool)

  /** The set key of a pair, `${a}-${b}`. */
  function PairKey(p: (string, string)): string
  {
    p.0 + "-" + p.1
  }

  /** A pair of the progression is mastered. */
  predicate Mastered(history: seq<PracticeSession>, db: seq<Chord>, targets: Targets, p: (string, string))
  {
    IsPairMastered(history, db, targets, p.0, p.1)
  }

  /** Whether each pair is mastered, pair by pair. */
  function MasteredFlags(pairs: seq<(string, string)>, history: seq<PracticeSession>, db: seq<Chord>, targets: Targets): (r: seq<bool>)
    ensures |r| == |pairs|
    ensures forall i :: 0 <= i < |pairs| ==> r[i] == Mastered(history, db, targets, pairs[i])
  {
    seq(|pairs|, i requires 0 <= i < |pairs| => Mastered(history, db, targets, pairs[i]))
  }

  /**
   * The `forEach` that adds the key of every flagged pair to a `Set`:
   * exactly the keys of the flagged pairs, each once.
   */
  function CollectKeys(pairs: seq<(string, string)>, flags: seq<bool>): (r: seq<string>)
    requires |flags| == |pairs|
    ensures forall k :: k in r <==> exists i :: 0 <= i < |pairs| && flags[i] && PairKey(pairs[i]) == k
    ensures NoDuplicates(r)
  {
    if |pairs| == 0 then []
    else
      var n := |pairs| - 1;
      var init := CollectKeys(pairs[..n], flags[..n]);
      assert forall i :: 0 <= i < n ==> pairs[..n][i] == pairs[i] && flags[..n][i] == flags[i];
      if flags[n] then SetAdd(init, PairKey(pairs[n])) else init
  }

  /** The keys of the mastered pairs, in the order of `PROGRESSION_PAIRS`. */
  function MasteredKeys(pairs: seq<(string, string)>, history: seq<PracticeSession>, db: seq<Chord>, targets: Targets): seq<string>
  {
    CollectKeys(pairs, MasteredFlags(pairs, history, db, targets))
  }

  /** With no pair flagged the set stays empty. */
  lemma {:induction false} CollectNone(pairs: seq<(string, string)>, flags: seq<bool>)
    requires |flags| == |pairs|
    requires forall i :: 0 <= i < |flags| ==> !flags[i]
    ensures CollectKeys(pairs, flags) == []
  {
    if |pairs| > 0 {
      var n := |pairs| - 1;
      CollectNone(pairs[..n], flags[..n]);
    }
  }

  /** The first key of the set is the key of the first flagged pair. */
  lemma {:induction false} FirstCollected(pairs: seq<(string, string)>, flags: seq<bool>)
    requires |flags| == |pairs| && |CollectKeys(pairs, flags)| > 0
    ensures exists i :: 0 <= i < |pairs| && flags[i] && CollectKeys(pairs, flags)[0] == PairKey(pairs[i])
              && forall j :: 0 <= j < i ==> !flags[j]
  {
    var n := |pairs| - 1;
    var before := CollectKeys(pairs[..n], flags[..n]);
    var all := CollectKeys(pairs, flags);
    assert forall i :: 0 <= i < n ==> pairs[..n][i] == pairs[i] && flags[..n][i] == flags[i];
    if |before| > 0 {
      FirstCollected(pairs[..n], flags[..n]);
      assert all[0] == before[0];
    } else {
      assert all == [PairKey(pairs[n])] && flags[n];
      forall j | 0 <= j < n ensures !flags[j] {
        assert PairKey(pairs[..n][j]) !in before;
      }
    }
  }

  /** The first key of the set is the key of the first mastered pair, which the review entry uses. */
  lemma FirstMasteredKey(pairs: seq<(string, string)>, history: seq<PracticeSession>, db: seq<Chord>, targets: Targets)
    requires |MasteredKeys(pairs, history, db, targets)| > 0
    ensures exists i :: 0 <= i < |pairs| && Mastered(history, db, targets, pairs[i])
              && MasteredKeys(pairs, history, db, targets)[0] == PairKey(pairs[i])
              && forall j :: 0 <= j < i ==> !Mastered(history, db, targets, pairs[j])
  {
    FirstCollected(pairs, MasteredFlags(pairs, history, db, targets));
  }

  /** The test of the `filter` callback: the pair's key is not among the mastered keys. */
  function Unmastered(mastered: seq<string>): ((string, string)) -> bool
  {
    p => PairKey(p) !in mastered
  }

  /**
   * `PROGRESSION_PAIRS.filter`: the pairs whose key is not among the mastered
   * keys, in list order and each as often as it occurs.
   */
  function Candidates(pairs: seq<(string, string)>, mastered: seq<string>): (r: seq<(string, string)>)
    ensures |r| <= |pairs|
    ensures forall p :: p in r <==> p in pairs && PairKey(p) !in mastered
    ensures r == Filter(pairs, Unmastered(mastered))
  {
    if |pairs| == 0 then []
    else
      var rest := Candidates(pairs[1..], mastered);
      assert forall p :: p in pairs <==> p == pairs[0] || p in pairs[1..];
      (if PairKey(pairs[0]) in mastered then [] else [pairs[0]]) + rest
  }

  /** With nothing mastered every pair is a candidate, in its place. */
  lemma {:induction false} CandidatesNoneMastered(pairs: seq<(string, string)>, mastered: seq<string>)
    requires forall i :: 0 <= i < |pairs| ==> PairKey(pairs[i]) !in mastered
    ensures Candidates(pairs, mastered) == pairs
  {
    if |pairs| > 0 {
      CandidatesNoneMastered(pairs[1..], mastered);
      assert [pairs[0]] + pairs[1..] == pairs;
    }
  }

  /** Both ids of a pair name a chord of the database. */
  predicate Resolves(db: seq<Chord>, p: (string, string))
  {
    Find(db, p.0).Some? && Find(db, p.1).Some?
  }

  /** `Resolves` as the test of a filter. */
  function Resolvable(db: seq<Chord>): ((string, string)) -> bool
  {
    p => Resolves(db, p)
  }

  /** The "Suggested for you" entry the loop pushes for a pair. */
  function Suggestion(db: seq<Chord>, p: (string, string)): Recommendation
  {
    Recommendation(Find(db, p.0), Find(db, p.1), "Suggested for you", 1, false)
  }

  /** The suggestion for one candidate, when both of its ids resolve. */
  function SuggestOne(p: (string, string), db: seq<Chord>): seq<Recommendation>
  {
    if Resolves(db, p) then [Suggestion(db, p)] else []
  }

  /**
   * The suggestion loop over the first candidates: the candidates whose two
   * ids both resolve, in their order, each turned into its entry.
   */
  function Suggest(cands: seq<(string, string)>, db: seq<Chord>): (r: seq<Recommendation>)
    ensures |r| <= |cands|
    ensures forall i :: 0 <= i < |r| ==>
              r[i].chordA.Some? && r[i].chordB.Some? && !r[i].isMastered && r[i].reason == "Suggested for you" && r[i].level == 1
    ensures var found := Filter(cands, Resolvable(db));
            |r| == |found| && forall i :: 0 <= i < |r| ==> r[i] == Suggestion(db, found[i])
  {
    if |cands| == 0 then []
    else
      var rest := Suggest(cands[1..], db);
      var r := SuggestOne(cands[0], db) + rest;
      assert forall i :: 0 <= i < |rest| ==> r[|r| - |rest| + i] == rest[i];
      r
  }

  /** When every candidate resolves, the suggestions are the candidates' chords one for one, in order. */
  lemma {:induction false} SuggestAllFound(cands: seq<(string, string)>, db: seq<Chord>)
    requires forall i :: 0 <= i < |cands| ==> Find(db, cands[i].0).Some? && Find(db, cands[i].1).Some?
    ensures |Suggest(cands, db)| == |cands|
    ensures forall i :: 0 <= i < |cands| ==>
              Suggest(cands, db)[i] == Recommendation(Find(db, cands[i].0), Find(db, cands[i].1), "Suggested for you", 1, false)
  {
    if |cands| > 0 {
      SuggestAllFound(cands[1..], db);
    }
  }

  /** A candidate with an id the database lacks is skipped. */
  lemma SuggestSkips(p: (string, string), cands: seq<(string, string)>, db: seq<Chord>)
    requires Find(db, p.0).None? || Find(db, p.1).None?
    ensures Suggest([p] + cands, db) == Suggest(cands, db)
  {
    assert ([p] + cands)[1..] == cands;
  }

  /** Splitting a pair's key at '-' gives the pair back, as long as neither id holds a '-'. */
  lemma KeySplit(p: (string, string))
    requires '-' !in p.0 && '-' !in p.1
    ensures Split(PairKey(p), '-') == [p.0, p.1]
  {
    assert Join([p.0, p.1], '-') == PairKey(p);
    SplitJoin([p.0, p.1], '-');
  }

  /** The review entry: the first mastered key split at '-', if both halves resolve. */
  function Review(mastered: seq<string>, db: seq<Chord>): (r: seq<Recommendation>)
    ensures |r| <= 1
    ensures |r| == 1 ==> |mastered| > 0 && r[0].isMastered && r[0].reason == "Review Review"
                         && r[0].chordA.Some? && r[0].chordB.Some?
  {
    if |mastered| == 0 then []
    else
      var parts := Split(mastered[0], '-');
      var cA := Find(db, parts[0]);
      var cB := if |parts| >= 2 then Find(db, parts[1]) else None;
      if cA.Some? && cB.Some? then [Recommendation(cA, cB, "Review Review", 1, true)] else []
  }

  /** The review entry names the chords of the pair whose key comes first. */
  lemma ReviewOfPair(p: (string, string), rest: seq<string>, db: seq<Chord>)
    requires '-' !in p.0 && '-' !in p.1
    ensures var cA, cB := Find(db, p.0), Find(db, p.1);
            Review([PairKey(p)] + rest, db) == if cA.Some? && cB.Some? then [Recommendation(cA, cB, "Review Review", 1, true)] else []
  {
    KeySplit(p);
  }

  /** The fallback entry when nothing else was found. */
  function StartHere(db: seq<Chord>): Recommendation
  {
    Recommendation(Find(db, "Em"), Find(db, "Am"), "Start Here", 1, false)
  }

  /** Up to four suggestions, then the review entry, or the fallback alone when both are empty. */
  function Assemble(suggested: seq<Recommendation>, review: seq<Recommendation>, db: seq<Chord>): (r: seq<Recommendation>)
    requires |suggested| <= 4 && |review| <= 1
    ensures 1 <= |r| <= 5
    ensures r == [StartHere(db)] || r == suggested + review
    ensures r == suggested + review <==> |suggested| + |review| > 0
  {
    if |suggested| + |review| == 0 then [StartHere(db)] else suggested + review
  }

  /** `getRecommendations` once it knows which pairs are mastered. */
  function Recommendations(pairs: seq<(string, string)>, flags: seq<bool>, db: seq<Chord>): (r: seq<Recommendation>)
    requires |flags| == |pairs|
    ensures 1 <= |r| <= 5
    ensures forall i :: 0 <= i < |r| - 1 ==>
              r[i].reason == "Suggested for you" && !r[i].isMastered && r[i].chordA.Some? && r[i].chordB.Some?
    ensures r[|r| - 1].reason == "Start Here" ==> r == [StartHere(db)]
  {
    var mastered := CollectKeys(pairs, flags);
    var cands := Candidates(pairs, mastered);
    Assemble(Suggest(cands[..Min(4, |cands|)], db), Review(mastered, db), db)
  }

  /**
   * The entries in full: the resolving pairs among the first four unmastered
   * pairs, in list order, then the review entry, or the fallback alone when
   * both are empty.
   */
  lemma SuggestionsInOrder(pairs: seq<(string, string)>, flags: seq<bool>, db: seq<Chord>)
    requires |flags| == |pairs|
    ensures var mastered := CollectKeys(pairs, flags);
            var cands := Filter(pairs, Unmastered(mastered));
            var found := Filter(cands[..Min(4, |cands|)], Resolvable(db));
            var rev := Review(mastered, db);
            var r := Recommendations(pairs, flags, db);
            if |found| + |rev| == 0 then r == [StartHere(db)]
            else && |r| == |found| + |rev|
                 && (forall i :: 0 <= i < |found| ==> r[i] == Suggestion(db, found[i]))
                 && r[|found|..] == rev
  {
    var mastered := CollectKeys(pairs, flags);
    var cands := Candidates(pairs, mastered);
    var sug := Suggest(cands[..Min(4, |cands|)], db);
    var rev := Review(mastered, db);
    if |sug| + |rev| > 0 {
      assert (sug + rev)[|sug|..] == rev;
    }
  }

  /**
   * `getRecommendations` over a list of pairs: up to four suggestions, then
   * at most one review entry, or the fallback alone.
   */
  function GetRecommendations(pairs: seq<(string, string)>, history: seq<PracticeSession>, db: seq<Chord>, targets: Targets): (r: seq<Recommendation>)
    ensures 1 <= |r| <= 5
    ensures r[|r| - 1].reason == "Start Here" ==> r == [StartHere(db)]
  {
    Recommendations(pairs, MasteredFlags(pairs, history, db, targets), db)
  }

  /** Pair `i` is the first flagged one. */
  predicate FirstFlagged(flags: seq<bool>, i: int)
  {
    0 <= i < |flags| && flags[i] && forall j :: 0 <= j < i ==> !flags[j]
  }

  /** Only the review entry is marked mastered, and it comes last. */
  lemma ReviewSlot(pairs: seq<(string, string)>, flags: seq<bool>, db: seq<Chord>)
    requires |flags| == |pairs|
    ensures var r := Recommendations(pairs, flags, db);
            var rev := Review(CollectKeys(pairs, flags), db);
            r[|r| - 1].isMastered ==> |rev| == 1 && r[|r| - 1] == rev[0]
  {
    SuggestionsInOrder(pairs, flags, db);
  }

  /**
   * `e` is a review entry built from the first flagged pair: when neither id
   * of that pair holds a '-', `e` holds the two chords the ids resolve to.
   */
  ghost predicate ReviewsFirstFlagged(pairs: seq<(string, string)>, flags: seq<bool>, db: seq<Chord>, e: Recommendation)
    requires |flags| == |pairs|
  {
    && e.reason == "Review Review"
    && exists i :: FirstFlagged(flags, i)
         && ('-' !in pairs[i].0 && '-' !in pairs[i].1 ==> e.chordA == Find(db, pairs[i].0) && e.chordB == Find(db, pairs[i].1))
  }

  /** The review entry comes from the first flagged pair. */
  lemma ReviewFirst(pairs: seq<(string, string)>, flags: seq<bool>, db: seq<Chord>)
    requires |flags| == |pairs|
    requires |Review(CollectKeys(pairs, flags), db)| == 1
    ensures ReviewsFirstFlagged(pairs, flags, db, Review(CollectKeys(pairs, flags), db)[0])
  {
    var mastered := CollectKeys(pairs, flags);
    FirstCollected(pairs, flags);
    var i :| 0 <= i < |pairs| && flags[i] && mastered[0] == PairKey(pairs[i]) && forall j :: 0 <= j < i ==> !flags[j];
    assert FirstFlagged(flags, i);
    if '-' !in pairs[i].0 && '-' !in pairs[i].1 {
      assert mastered == [PairKey(pairs[i])] + mastered[1..];
      ReviewOfPair(pairs[i], mastered[1..], db);
    }
  }

  /** The review entry, if any, is built from the first flagged pair. */
  lemma ReviewOfFirstFlagged(pairs: seq<(string, string)>, flags: seq<bool>, db: seq<Chord>)
    requires |flags| == |pairs|
    ensures var r := Recommendations(pairs, flags, db);
            r[|r| - 1].isMastered ==> ReviewsFirstFlagged(pairs, flags, db, r[|r| - 1])
  {
    var r := Recommendations(pairs, flags, db);
    ReviewSlot(pairs, flags, db);
    if r[|r| - 1].isMastered {
      ReviewFirst(pairs, flags, db);
    }
  }

  /**
   * A review entry is offered only for a mastered pair, the first of the
   * list, and when no id holds a '-' it holds that pair's chords.
   */
  lemma ReviewIsFirstMastered(pairs: seq<(string, string)>, history: seq<PracticeSession>, db: seq<Chord>, targets: Targets)
    ensures var r := GetRecommendations(pairs, history, db, targets);
            r[|r| - 1].isMastered ==> ReviewsFirstFlagged(pairs, MasteredFlags(pairs, history, db, targets), db, r[|r| - 1])
  {
    var flags := MasteredFlags(pairs, history, db, targets);
    assert GetRecommendations(pairs, history, db, targets) == Recommendations(pairs, flags, db);
    ReviewOfFirstFlagged(pairs, flags, db);
  }

  /** With no pair flagged, the first four pairs are suggested. */
  lemma NoneFlagged(pairs: seq<(string, string)>, flags: seq<bool>, db: seq<Chord>)
    requires |flags| == |pairs|
    requires forall i :: 0 <= i < |pairs| ==> !flags[i]
    ensures var s := Suggest(pairs[..Min(4, |pairs|)], db);
            Recommendations(pairs, flags, db) == if |s| == 0 then [StartHere(db)] else s
  {
    var mastered := CollectKeys(pairs, flags);
    CollectNone(pairs, flags);
    CandidatesNoneMastered(pairs, mastered);
    var sug := Suggest(pairs[..Min(4, |pairs|)], db);
    assert Review(mastered, db) == [];
    assert sug + [] == sug;
  }

  /** A history that masters none of the listed pairs gets the first four pairs suggested. */
  lemma NothingMastered(pairs: seq<(string, string)>, history: seq<PracticeSession>, db: seq<Chord>, targets: Targets)
    requires forall i :: 0 <= i < |pairs| ==> !Mastered(history, db, targets, pairs[i])
    ensures var s := Suggest(pairs[..Min(4, |pairs|)], db);
            GetRecommendations(pairs, history, db, targets) == if |s| == 0 then [StartHere(db)] else s
  {
    NoneFlagged(pairs, MasteredFlags(pairs, history, db, targets), db);
  }

  /** An empty history masters no pair. */
  lemma EmptyHistoryMastersNothing(db: seq<Chord>, targets: Targets, p: (string, string))
    ensures !Mastered([], db, targets, p)
  {
  }

  /**
   * With an empty history and the first four pairs all in the database, the
   * recommendations are exactly those four pairs, in order.
   */
  lemma FreshInstall(pairs: seq<(string, string)>, db: seq<Chord>, targets: Targets)
    requires |pairs| >= 4
    requires forall i :: 0 <= i < 4 ==> Find(db, pairs[i].0).Some? && Find(db, pairs[i].1).Some?
    ensures var r := GetRecommendations(pairs, [], db, targets);
            && |r| == 4
            && forall i :: 0 <= i < 4 ==>
                 r[i] == Recommendation(Find(db, pairs[i].0), Find(db, pairs[i].1), "Suggested for you", 1, false)
  {
    forall i | 0 <= i < |pairs| ensures !Mastered([], db, targets, pairs[i]) {
      EmptyHistoryMastersNothing(db, targets, pairs[i]);
    }
    NothingMastered(pairs, [], db, targets);
    FirstFourFound(pairs, db);
  }

  lemma FirstFourFound(pairs: seq<(string, string)>, db: seq<Chord>)
    requires |pairs| >= 4
    requires forall i :: 0 <= i < 4 ==> Find(db, pairs[i].0).Some? && Find(db, pairs[i].1).Some?
    ensures var s := Suggest(pairs[..Min(4, |pairs|)], db);
            && |s| == 4
            && forall i :: 0 <= i < 4 ==>
                 s[i] == Recommendation(Find(db, pairs[i].0), Find(db, pairs[i].1), "Suggested for you", 1, false)
  {
    var first := pairs[..4];
    assert Min(4, |pairs|) == 4;
    SuggestAllFound(first, db);
  }

  /** No id of the progression list holds a '-', so a mastered key splits back into its pair. */
  lemma ProgressionKeysSplit(i: nat)
    requires i < |ProgressionPairs|
    ensures Split(PairKey(ProgressionPairs[i]), '-') == [ProgressionPairs[i].0, ProgressionPairs[i].1]
  {
    KeySplit(ProgressionPairs[i]);
  }
}
