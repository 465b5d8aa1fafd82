/**
 * The practice targets of `RecommendationService`: the two stored targets
 * with their fallbacks, and the target that applies to a pair of chords.
 *
 * The chord database and the stored items are parameters: the service reads
 * them from `CHORD_DB` and `localStorage`.
 */
module TargetBpm {
  import opened Util
  import opened Text
  import opened Types
  import opened ChordLookup
  import opened ChordData

  /** The two stored target items, or a storage that throws when read. */
  datatype TargetItems = Items(open: Option<string>, barre: Option<string>) | Throws

  /** A target is a number or `NaN` (`None`), since a stored item is read with a bare `parseInt`. */
  datatype Targets = Targets(open: Option<int>, barre: Option<int>)

  /** One item: `item ? parseInt(item) : fallback`, where the empty string counts as absent. */
  function StoredTarget(item: Option<string>, fallback: int): (r: Option<int>)
    ensures item.None? || item == Some("") ==> r == Some(fallback)
    ensures item.Some? && (forall i :: 0 <= i < |item.value| ==> !('0' <= item.value[i] <= '9')) && item.value != "" ==> r.None?
  {
    if item.Some? && item.value != "" then ParseInt(item.value) else Some(fallback)
  }

  /** `getGlobalTargets`. */
  function GetGlobalTargets(items: TargetItems): (r: Targets)
    ensures items.Throws? ==> r == Targets(Some(TargetBpmOpen), Some(TargetBpmBarre))
    ensures r.open.None? ==> items.Items? && items.open.Some? && items.open.value != ""
    ensures r.barre.None? ==> items.Items? && items.barre.Some? && items.barre.value != ""
  {
    match items
    case Throws => Targets(Some(TargetBpmOpen), Some(TargetBpmBarre))
    case Items(o, b) => Targets(StoredTarget(o, TargetBpmOpen), StoredTarget(b, TargetBpmBarre))
  }

  /** `setGlobalTargets`: both targets written as decimal text. */
  function SetGlobalTargets(open: int, barre: int): (r: TargetItems)
    ensures r.Items? && r.open.Some? && r.barre.Some?
    ensures r.open.value != "" && r.barre.value != ""
  {
    Items(Some(IntToString(open)), Some(IntToString(barre)))
  }

  /** Targets read back exactly as they were set. */
  lemma TargetsRoundTrip(open: int, barre: int)
    ensures GetGlobalTargets(SetGlobalTargets(open, barre)) == Targets(Some(open), Some(barre))
  {
    ParseIntOfIntToString(open);
    ParseIntOfIntToString(barre);
  }

  /** A missing item, or a storage that throws, gives the default target. */
  lemma TargetsFallback(items: TargetItems)
    ensures items.Throws? || items.open.None? ==> GetGlobalTargets(items).open == Some(TargetBpmOpen)
    ensures items.Throws? || items.barre.None? ==> GetGlobalTargets(items).barre == Some(TargetBpmBarre)
  {
  }

  /** An id names a barre chord of the database. */
  predicate IsBarreId(db: seq<Chord>, id: string)
  {
    var c := Find(db, id);
    c.Some? && c.value.chordType == Barre
  }

  /** `getTargetBpm`: the barre target when either chord is a barre chord, the open target otherwise. */
  function GetTargetBpm(db: seq<Chord>, targets: Targets, a: string, b: string): (r: Option<int>)
    ensures r == targets.open || r == targets.barre
    ensures Find(db, a).None? && Find(db, b).None? ==> r == targets.open
  {
    if IsBarreId(db, a) || IsBarreId(db, b) then targets.barre else targets.open
  }

  /** The barre target applies exactly when some chord of the database with one of the two ids is a barre chord. */
  lemma TargetBpmChoice(db: seq<Chord>, targets: Targets, a: string, b: string)
    requires DistinctIds(db)
    ensures var barre := exists i :: 0 <= i < |db| && (db[i].id == a || db[i].id == b) && db[i].chordType == Barre;
            GetTargetBpm(db, targets, a, b) == if barre then targets.barre else targets.open
  {
    forall i | 0 <= i < |db| && (db[i].id == a || db[i].id == b) && db[i].chordType == Barre
      ensures IsBarreId(db, a) || IsBarreId(db, b)
    {
      FindAt(db, i);
    }
    if IsBarreId(db, a) {
      var c := Find(db, a).value;
      var i :| 0 <= i < |db| && db[i] == c;
    }
    if IsBarreId(db, b) {
      var c := Find(db, b).value;
      var i :| 0 <= i < |db| && db[i] == c;
    }
  }

  /** The target does not depend on the order the two chords are given in. */
  lemma TargetBpmSymmetric(db: seq<Chord>, targets: Targets, a: string, b: string)
    ensures GetTargetBpm(db, targets, a, b) == GetTargetBpm(db, targets, b, a)
  {
  }

  /** Ids the database lacks count as open chords. */
  lemma UnknownIdsOpen(db: seq<Chord>, targets: Targets, a: string, b: string)
    requires Find(db, a).None? && Find(db, b).None?
    ensures GetTargetBpm(db, targets, a, b) == targets.open
  {
  }
}
