/**
 * The chord database of `constants.ts` as a whole: generate the grid, apply
 * the fixes, then finish it, with what each generated entry becomes.
 */
module ChordDb {
  import opened Util
  import opened Types
  import opened ChordLookup
  import opened ChordGen
  import opened ChordFix
  import opened ChordVariation
  import opened ChordFinish

  /** The module's top level: generate, fix, then finish. */
  function Build(keys: seq<string>, sufs: seq<SuffixSpec>, fixes: seq<FixSpec>, vs: seq<VariationSpec>): (r: seq<Chord>)
    ensures |r| == |keys| * |sufs| + 1 + |vs|
  {
    Finish(FixAll(Grid(keys, sufs), fixes), vs)
  }

  /** The fixed grid keeps the grid's ids, so the open F can be pushed after it. */
  lemma FixedGridIds(keys: seq<string>, sufs: seq<SuffixSpec>, fixes: seq<FixSpec>)
    requires |sufs| == 9 && WellShaped(keys, sufs)
    ensures var fixed := FixAll(Grid(keys, sufs), fixes);
            && |fixed| == |keys| * 9
            && (forall i :: 0 <= i < |fixed| ==> fixed[i].id == Grid(keys, sufs)[i].id)
            && DistinctIds(fixed + [FOpen()])
  {
    var g := Grid(keys, sufs);
    var fixed := FixAll(g, fixes);
    GridLength(keys, sufs);
    GridIdsDistinct(keys, sufs);
    forall i | 0 <= i < |fixed| ensures '_' !in fixed[i].id {
      GridIdChars(keys, sufs, i);
    }
    assert DistinctIds(fixed);
    OpenDistinct(fixed);
  }

  /** Entry `i` of the built database is entry `i` of the fixed grid, renamed if its id is "F". */
  lemma BuildAt(keys: seq<string>, sufs: seq<SuffixSpec>, fixes: seq<FixSpec>, vs: seq<VariationSpec>, i: nat)
    requires |sufs| == 9 && WellShaped(keys, sufs)
    requires i < |Grid(keys, sufs)|
    ensures i < |Build(keys, sufs, fixes, vs)| && i < |FixAll(Grid(keys, sufs), fixes)|
    ensures Build(keys, sufs, fixes, vs)[i] == NameFix(FixAll(Grid(keys, sufs), fixes)[i])
  {
    FixedGridIds(keys, sufs, fixes);
    FinishAt(FixAll(Grid(keys, sufs), fixes), vs, i);
  }

  /** Every generated entry keeps its position, id, key, suffix and difficulty; only the fixes and the F rename change it. */
  lemma BuildKeepsGenerated(keys: seq<string>, sufs: seq<SuffixSpec>, fixes: seq<FixSpec>, vs: seq<VariationSpec>, i: nat)
    requires |sufs| == 9 && WellShaped(keys, sufs) && DistinctFixIds(fixes)
    requires i < |Grid(keys, sufs)|
    ensures i < |Build(keys, sufs, fixes, vs)|
    ensures var g := Grid(keys, sufs)[i];
            var c := Build(keys, sufs, fixes, vs)[i];
            && c.id == g.id && c.key == g.key && c.suffix == g.suffix && c.difficulty == g.difficulty
            && c.name == (if g.id == "F" then "F Major (Barre)" else g.name)
            && ((forall k :: 0 <= k < |fixes| ==> fixes[k].id != g.id) ==> c.positions == g.positions && c.chordType == g.chordType)
            && (forall k :: 0 <= k < |fixes| && fixes[k].id == g.id ==>
                  c == NameFix(Patch(g, fixes[k])))
  {
    BuildAt(keys, sufs, fixes, vs, i);
    GridIdsDistinct(keys, sufs);
    FixAllEffect(Grid(keys, sufs), fixes);
  }

  lemma BuildLength(keys: seq<string>, sufs: seq<SuffixSpec>, fixes: seq<FixSpec>, vs: seq<VariationSpec>)
    ensures |Build(keys, sufs, fixes, vs)| == |keys| * |sufs| + 1 + |vs|
  {
    GridLength(keys, sufs);
  }

  /** All ids of the built database are distinct and none holds a '#'. */
  lemma BuildIds(keys: seq<string>, sufs: seq<SuffixSpec>, fixes: seq<FixSpec>, vs: seq<VariationSpec>)
    requires |sufs| == 9 && WellShaped(keys, sufs) && VariationsOk(vs)
    ensures DistinctIds(Build(keys, sufs, fixes, vs))
    ensures forall i :: 0 <= i < |Build(keys, sufs, fixes, vs)| ==> '#' !in Build(keys, sufs, fixes, vs)[i].id
  {
    var fixed := FixAll(Grid(keys, sufs), fixes);
    FixedGridIds(keys, sufs, fixes);
    forall l | 0 <= l < |fixed| ensures '_' !in fixed[l].id && '#' !in fixed[l].id {
      GridIdChars(keys, sufs, l);
    }
    FinishIds(fixed, vs);
  }

  /** Every fix's barre flag agrees with the type the generator gives the chord it names. */
  predicate FixesAgree(keys: seq<string>, sufs: seq<SuffixSpec>, fixes: seq<FixSpec>)
  {
    forall f, k, s :: 0 <= f < |fixes| && 0 <= k < |keys| && 0 <= s < |sufs| && fixes[f].id == ChordId(keys[k], sufs[s].suffix) ==>
      (fixes[f].isBarre <==> sufs[s].difficulty != Basic || keys[k] in BarreKeys)
  }

  /**
   * Key `k` with suffix `s` after every later step of the module: the id,
   * key, suffix, difficulty and type stay as generated, and only the chord
   * with id "F" is renamed.
   */
  lemma BuildEntry(keys: seq<string>, sufs: seq<SuffixSpec>, fixes: seq<FixSpec>, vs: seq<VariationSpec>, k: nat, s: nat)
    requires |sufs| == 9 && WellShaped(keys, sufs) && DistinctFixIds(fixes) && FixesAgree(keys, sufs, fixes)
    requires k < |keys| && s < 9
    ensures k * 9 + s < |Build(keys, sufs, fixes, vs)|
    ensures var c := Build(keys, sufs, fixes, vs)[k * 9 + s];
            && c.id == ChordId(keys[k], sufs[s].suffix)
            && c.key == keys[k] && c.suffix == sufs[s].suffix
            && c.difficulty == sufs[s].difficulty
            && (c.chordType == Barre <==> sufs[s].difficulty != Basic || keys[k] in BarreKeys)
            && c.name == (if c.id == "F" then "F Major (Barre)" else keys[k] + " " + sufs[s].name)
  {
    var i := k * 9 + s;
    GridAt(keys, sufs, k, s);
    var g := Grid(keys, sufs)[i];
    assert g == MakeChord(keys[k], sufs[s]);
    BuildKeepsGenerated(keys, sufs, fixes, vs, i);
    var c := Build(keys, sufs, fixes, vs)[i];
    forall f | 0 <= f < |fixes| && fixes[f].id == g.id
      ensures c.chordType == g.chordType
    {
      assert c == NameFix(Patch(g, fixes[f]));
    }
  }

  /** A fix that names key `k` and suffix `s` replaces that chord's shape. */
  lemma BuildFixed(keys: seq<string>, sufs: seq<SuffixSpec>, fixes: seq<FixSpec>, vs: seq<VariationSpec>, f: nat, k: nat, s: nat)
    requires |sufs| == 9 && WellShaped(keys, sufs) && DistinctFixIds(fixes)
    requires f < |fixes| && k < |keys| && s < 9 && fixes[f].id == ChordId(keys[k], sufs[s].suffix)
    ensures k * 9 + s < |Build(keys, sufs, fixes, vs)|
    ensures var c := Build(keys, sufs, fixes, vs)[k * 9 + s];
            && c.id == fixes[f].id
            && c.positions == [FixPosition(fixes[f])]
            && c.chordType == (if fixes[f].isBarre then Barre else Open)
  {
    var i := k * 9 + s;
    GridAt(keys, sufs, k, s);
    var g := Grid(keys, sufs)[i];
    assert g == MakeChord(keys[k], sufs[s]);
    assert g.id == fixes[f].id;
    BuildKeepsGenerated(keys, sufs, fixes, vs, i);
    var c := Build(keys, sufs, fixes, vs)[i];
    assert c == NameFix(Patch(g, fixes[f]));
    assert |Patch(g, fixes[f]).positions| == 1;
  }

  /** The chord a fix names is the one `find` returns for the fix's id, and the fix shows through. */
  lemma FindFixed(keys: seq<string>, sufs: seq<SuffixSpec>, fixes: seq<FixSpec>, vs: seq<VariationSpec>, f: nat, k: nat, s: nat)
    requires |sufs| == 9 && WellShaped(keys, sufs) && DistinctFixIds(fixes) && VariationsOk(vs)
    requires f < |fixes| && k < |keys| && s < 9 && fixes[f].id == ChordId(keys[k], sufs[s].suffix)
    ensures var r := Find(Build(keys, sufs, fixes, vs), fixes[f].id);
            && r.Some?
            && r.value.positions == [FixPosition(fixes[f])]
            && r.value.chordType == (if fixes[f].isBarre then Barre else Open)
  {
    BuildFixed(keys, sufs, fixes, vs, f, k, s);
    BuildIds(keys, sufs, fixes, vs);
    var db := Build(keys, sufs, fixes, vs);
    FindAt(db, k * 9 + s);
    assert db[k * 9 + s].id == fixes[f].id;
  }

  /** An id whose suffix part is no suffix at all, and which holds no '_', names no chord. */
  lemma BuildLacks(keys: seq<string>, sufs: seq<SuffixSpec>, fixes: seq<FixSpec>, vs: seq<VariationSpec>, id: string)
    requires |sufs| == 9 && WellShaped(keys, sufs)
    requires |id| >= 1 && '_' !in id
    requires forall s :: 0 <= s < |sufs| ==> sufs[s].suffix != DecodeId(id).1
    ensures Find(Build(keys, sufs, fixes, vs), id) == None
  {
    var fixed := FixAll(Grid(keys, sufs), fixes);
    FixedGridIds(keys, sufs, fixes);
    forall l | 0 <= l < |fixed| ensures fixed[l].id != id {
      GridLacksAt(keys, sufs, id, l);
    }
    forall i | 0 <= i < |fixed| + 1 + |vs| ensures Finish(fixed, vs)[i].id != id {
      FinishLacksAt(fixed, vs, id, i);
    }
    BuildLength(keys, sufs, fixes, vs);
  }
}
