/** `fixChord`: replacing the first fingering of the chord with a given id. */
module ChordFix {
  import opened Util
  import opened Types
  import opened ChordLookup

  /** The arguments of one `fixChord` call. */
  datatype FixSpec = FixSpec(
    id: string,
    frets: seq<int>,
    fingers: seq<int>,
    baseFret: int,
    isBarre: bool,
    barreFrets: seq<int>)

  function FixPosition(f: FixSpec): ChordPosition
  {
    ChordPosition(f.frets, f.fingers, f.baseFret, if f.isBarre then Some(f.barreFrets) else None)
  }

  /**
   * The effect of `fixChord` on the chord it finds: `positions[0]` is
   * replaced (an empty array grows to one element) and the type follows the
   * barre flag.
   */
  function Patch(c: Chord, f: FixSpec): (r: Chord)
    ensures r.id == c.id && r.key == c.key && r.suffix == c.suffix && r.name == c.name
    ensures r.difficulty == c.difficulty
    ensures |r.positions| == if |c.positions| == 0 then 1 else |c.positions|
    ensures r.positions[0] == FixPosition(f)
    ensures forall k :: 1 <= k < |r.positions| ==> r.positions[k] == c.positions[k]
    ensures r.chordType == (if f.isBarre then Barre else Open)
  {
    c.(positions := if |c.positions| == 0 then [FixPosition(f)] else c.positions[0 := FixPosition(f)],
       chordType := if f.isBarre then Barre else Open)
  }

  /** Patching twice is patching with the later fix. */
  lemma PatchTwice(c: Chord, f: FixSpec, g: FixSpec)
    ensures Patch(Patch(c, f), g) == Patch(c, g)
  {
  }

  /** `fixChord`: patch the first chord with the id; an unknown id changes nothing. */
  function FixChord(db: seq<Chord>, f: FixSpec): (r: seq<Chord>)
    ensures |r| == |db| && SameIds(r, db)
    ensures FindIndex(db, f.id).None? ==> r == db
    ensures FindIndex(db, f.id).Some? ==>
              var i := FindIndex(db, f.id).value;
              r == db[i := Patch(db[i], f)]
  {
    match FindIndex(db, f.id)
    case None => db
    case Some(i) => db[i := Patch(db[i], f)]
  }

  /** The `fixChord` calls, in program order. */
  function FixAll(db: seq<Chord>, fixes: seq<FixSpec>): (r: seq<Chord>)
    ensures |r| == |db| && SameIds(r, db)
    decreases |fixes|
  {
    if |fixes| == 0 then db else FixAll(FixChord(db, fixes[0]), fixes[1..])
  }

  predicate DistinctFixIds(fixes: seq<FixSpec>)
  {
    forall k, l :: 0 <= k < l < |fixes| ==> fixes[k].id != fixes[l].id
  }

  /** A fix whose id the chord does not carry leaves that chord alone. */
  lemma FixChordElsewhere(db: seq<Chord>, f: FixSpec, i: nat)
    requires i < |db| && f.id != db[i].id
    ensures FixChord(db, f)[i] == db[i]
  {
  }

  /** A chord no fix names comes through the fixes unchanged. */
  lemma {:induction false} FixAllUntouched(db: seq<Chord>, fixes: seq<FixSpec>, i: nat)
    requires i < |db| && forall k :: 0 <= k < |fixes| ==> fixes[k].id != db[i].id
    ensures FixAll(db, fixes)[i] == db[i]
    decreases |fixes|
  {
    if |fixes| > 0 {
      var db1 := FixChord(db, fixes[0]);
      FixChordElsewhere(db, fixes[0], i);
      assert forall k :: 0 <= k < |fixes[1..]| ==> fixes[1..][k] == fixes[k + 1];
      FixAllUntouched(db1, fixes[1..], i);
    }
  }

  /** The chord fix `k` names ends up patched by fix `k`, whatever the other fixes do. */
  lemma {:induction false} FixAllPatched(db: seq<Chord>, fixes: seq<FixSpec>, i: nat, k: nat)
    requires DistinctIds(db) && DistinctFixIds(fixes)
    requires i < |db| && k < |fixes| && fixes[k].id == db[i].id
    ensures FixAll(db, fixes)[i] == Patch(db[i], fixes[k])
    decreases |fixes|
  {
    var f := fixes[0];
    var db1 := FixChord(db, f);
    var rest := fixes[1..];
    assert forall l :: 0 <= l < |rest| ==> rest[l] == fixes[l + 1];
    if k == 0 {
      FindIndexDistinct(db, i);
      assert db1[i] == Patch(db[i], f);
      FixAllUntouched(db1, rest, i);
    } else {
      FixChordElsewhere(db, f, i);
      assert DistinctIds(db1);
      FixAllPatched(db1, rest, i, k - 1);
    }
  }

  /**
   * On a database with distinct ids, a run of fixes with distinct ids patches
   * exactly the chords they name and leaves every other chord untouched.
   */
  lemma FixAllEffect(db: seq<Chord>, fixes: seq<FixSpec>)
    requires DistinctIds(db) && DistinctFixIds(fixes)
    ensures var r := FixAll(db, fixes);
            && (forall i, k :: 0 <= i < |db| && 0 <= k < |fixes| && fixes[k].id == db[i].id ==>
                  r[i] == Patch(db[i], fixes[k]))
            && (forall i :: 0 <= i < |db| && (forall k :: 0 <= k < |fixes| ==> fixes[k].id != db[i].id) ==>
                  r[i] == db[i])
  {
    forall i, k | 0 <= i < |db| && 0 <= k < |fixes| && fixes[k].id == db[i].id
      ensures FixAll(db, fixes)[i] == Patch(db[i], fixes[k])
    {
      FixAllPatched(db, fixes, i, k);
    }
    forall i | 0 <= i < |db| && (forall k :: 0 <= k < |fixes| ==> fixes[k].id != db[i].id)
      ensures FixAll(db, fixes)[i] == db[i]
    {
      FixAllUntouched(db, fixes, i);
    }
  }
}
