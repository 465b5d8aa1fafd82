/** Lookups by id over a list of chords, as `find` and `findIndex` do them. */
module ChordLookup {
  import opened Util
  import opened Types

  /** Two databases that differ at most outside the ids. */
  predicate SameIds(a: seq<Chord>, b: seq<Chord>)
  {
    |a| == |b| && forall i :: 0 <= i < |a| ==> a[i].id == b[i].id
  }

  predicate DistinctIds(db: seq<Chord>)
  {
    forall i, j :: 0 <= i < j < |db| ==> db[i].id != db[j].id
  }

  /** `findIndex(c => c.id === id)`, with -1 as `None`. */
  function FindIndex(db: seq<Chord>, id: string): (r: Option<nat>)
    ensures r.Some? ==> r.value < |db| && db[r.value].id == id
                        && forall j :: 0 <= j < r.value ==> db[j].id != id
    ensures r.None? <==> forall j :: 0 <= j < |db| ==> db[j].id != id
  {
    if |db| == 0 then None
    else if db[0].id == id then Some(0)
    else
      match FindIndex(db[1..], id)
      case None => None
      case Some(i) => Some(i + 1)
  }

  /** `find(c => c.id === id)`. */
  function Find(db: seq<Chord>, id: string): (r: Option<Chord>)
    ensures r.Some? <==> exists i :: 0 <= i < |db| && db[i].id == id
    ensures r.Some? ==> r.value.id == id && r.value in db
  {
    match FindIndex(db, id)
    case None => None
    case Some(i) => Some(db[i])
  }

  /** With distinct ids the first match is the only one. */
  lemma FindIndexDistinct(db: seq<Chord>, i: nat)
    requires DistinctIds(db) && i < |db|
    ensures FindIndex(db, db[i].id) == Some(i)
  {
  }

  /** With distinct ids, looking up an entry's id finds that entry. */
  lemma FindAt(db: seq<Chord>, i: nat)
    requires DistinctIds(db) && i < |db|
    ensures Find(db, db[i].id) == Some(db[i])
  {
    FindIndexDistinct(db, i);
  }

  /** Lookups depend on the ids only. */
  lemma FindIndexByIds(db: seq<Chord>, db': seq<Chord>, id: string)
    requires SameIds(db, db')
    ensures FindIndex(db, id) == FindIndex(db', id)
  {
  }

  /** `find(c => c.id === id)` followed by a rename of the chord found, if any. */
  function RenameFirst(db: seq<Chord>, id: string, name: string): (r: seq<Chord>)
    ensures |r| == |db| && SameIds(r, db)
    ensures FindIndex(db, id).None? ==> r == db
    ensures FindIndex(db, id).Some? ==>
              var i := FindIndex(db, id).value;
              r == db[i := db[i].(name := name)]
  {
    match FindIndex(db, id)
    case None => db
    case Some(i) => db[i := db[i].(name := name)]
  }

  /** With distinct ids, renaming the first match renames exactly the chords with that id. */
  lemma RenameEffect(db: seq<Chord>, id: string, name: string, j: nat)
    requires DistinctIds(db) && j < |db|
    ensures RenameFirst(db, id, name)[j] == if db[j].id == id then db[j].(name := name) else db[j]
  {
    if db[j].id == id {
      FindIndexDistinct(db, j);
    }
  }
}
