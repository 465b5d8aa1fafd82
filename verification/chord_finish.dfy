/**
 * Everything `constants.ts` does after the fixes: push the open F, rename
 * the first "F", push the barre variations — and what that does to the ids
 * of whatever database it is applied to.
 */
module ChordFinish {
  import opened Types
  import opened ChordLookup
  import opened ChordVariation

  /** Everything after the fixes: push the open F, rename the first "F", push the variations. */
  function Finish(fixed: seq<Chord>, vs: seq<VariationSpec>): (r: seq<Chord>)
    ensures |r| == |fixed| + 1 + |vs|
    ensures r[|fixed|] == FOpen()
    ensures forall k :: 0 <= k < |vs| ==> r[|fixed| + 1 + k] == BarreVariation(vs[k])
  {
    AddVariations(RenameFirst(fixed + [FOpen()], "F", "F Major (Barre)"), vs)
  }

  /** The rename of the generated F, applied to one chord. */
  function NameFix(c: Chord): Chord
  {
    if c.id == "F" then c.(name := "F Major (Barre)") else c
  }

  /** Pushing the open F keeps ids distinct when no earlier id holds a '_'. */
  lemma OpenDistinct(db: seq<Chord>)
    requires DistinctIds(db) && forall i :: 0 <= i < |db| ==> '_' !in db[i].id
    ensures DistinctIds(db + [FOpen()])
  {
    var db2 := db + [FOpen()];
    forall i, j | 0 <= i < j < |db2| ensures db2[i].id != db2[j].id {
      if j == |db| {
        assert db2[j].id[1] == '_';
        assert '_' !in db2[i].id;
      }
    }
  }

  /** Entry `i` of a finished database: a renamed fixed entry, the open F, or a barre variation. */
  lemma FinishAt(fixed: seq<Chord>, vs: seq<VariationSpec>, i: nat)
    requires DistinctIds(fixed + [FOpen()])
    requires i < |fixed| + 1 + |vs|
    ensures |Finish(fixed, vs)| == |fixed| + 1 + |vs|
    ensures Finish(fixed, vs)[i] ==
              if i < |fixed| then NameFix(fixed[i])
              else if i == |fixed| then FOpen()
              else BarreVariation(vs[i - |fixed| - 1])
  {
    var db2 := fixed + [FOpen()];
    var db3 := RenameFirst(db2, "F", "F Major (Barre)");
    var b := Finish(fixed, vs);
    if i <= |fixed| {
      RenameEffect(db2, "F", "F Major (Barre)", i);
      assert b[i] == db3[i];
    } else {
      assert b[|db3| + (i - |fixed| - 1)] == BarreVariation(vs[i - |fixed| - 1]);
    }
  }

  /** The id `Finish` puts at position `i`. */
  function SlotId(fixed: seq<Chord>, vs: seq<VariationSpec>, i: nat): string
    requires i < |fixed| + 1 + |vs|
  {
    if i < |fixed| then fixed[i].id
    else if i == |fixed| then "F_open"
    else vs[i - |fixed| - 1].id + "_barre"
  }

  /** The id at each position of a finished database. */
  lemma FinishIdAt(fixed: seq<Chord>, vs: seq<VariationSpec>, i: nat)
    requires DistinctIds(fixed + [FOpen()])
    requires i < |fixed| + 1 + |vs|
    ensures i < |Finish(fixed, vs)| && Finish(fixed, vs)[i].id == SlotId(fixed, vs, i)
  {
    FinishAt(fixed, vs, i);
  }

  /** The ids of the three parts never collide, and within each part they stay distinct. */
  lemma SlotIdsDiffer(fixed: seq<Chord>, vs: seq<VariationSpec>, i: nat, j: nat)
    requires DistinctIds(fixed) && VariationsOk(vs)
    requires forall l :: 0 <= l < |fixed| ==> '_' !in fixed[l].id
    requires i < j < |fixed| + 1 + |vs|
    ensures SlotId(fixed, vs, i) != SlotId(fixed, vs, j)
  {
    var n := |fixed|;
    if j < n {
      assert fixed[i].id != fixed[j].id;
    } else if j == n {
      assert "F_open"[1] == '_';
      assert '_' !in fixed[i].id;
    } else if i < n {
      BarreIdShape(vs[j - n - 1].id);
      assert '_' !in fixed[i].id;
    } else if i == n {
      BarreIdShape(vs[j - n - 1].id);
    } else {
      VariationIdsDiffer(vs, i - n - 1, j - n - 1);
    }
  }

  /** No id of a finished database holds a '#' when none of its parts do. */
  lemma FinishIdNoHash(fixed: seq<Chord>, vs: seq<VariationSpec>, i: nat)
    requires DistinctIds(fixed + [FOpen()]) && VariationsOk(vs)
    requires forall l :: 0 <= l < |fixed| ==> '#' !in fixed[l].id
    requires i < |fixed| + 1 + |vs|
    ensures i < |Finish(fixed, vs)| && '#' !in Finish(fixed, vs)[i].id
  {
    FinishIdAt(fixed, vs, i);
    if i > |fixed| {
      BarreIdShape(vs[i - |fixed| - 1].id);
    }
  }

  /** A finished database has distinct ids, none holding a '#', when its parts do. */
  lemma FinishIds(fixed: seq<Chord>, vs: seq<VariationSpec>)
    requires DistinctIds(fixed + [FOpen()]) && VariationsOk(vs)
    requires forall l :: 0 <= l < |fixed| ==> '_' !in fixed[l].id && '#' !in fixed[l].id
    ensures DistinctIds(Finish(fixed, vs))
    ensures forall i :: 0 <= i < |Finish(fixed, vs)| ==> '#' !in Finish(fixed, vs)[i].id
  {
    var b := Finish(fixed, vs);
    assert |b| == |fixed| + 1 + |vs|;
    forall i | 0 <= i < |b| ensures '#' !in b[i].id {
      FinishIdNoHash(fixed, vs, i);
    }
    assert DistinctIds(fixed) by {
      forall i, j | 0 <= i < j < |fixed| ensures fixed[i].id != fixed[j].id {
        assert (fixed + [FOpen()])[i] == fixed[i] && (fixed + [FOpen()])[j] == fixed[j];
      }
    }
    forall i, j | 0 <= i < j < |b| ensures b[i].id != b[j].id {
      FinishIdAt(fixed, vs, i);
      FinishIdAt(fixed, vs, j);
      SlotIdsDiffer(fixed, vs, i, j);
    }
  }

  /** A finished database holds `id` only if the fixed part does, when `id` holds no '_'. */
  lemma FinishLacksAt(fixed: seq<Chord>, vs: seq<VariationSpec>, id: string, i: nat)
    requires DistinctIds(fixed + [FOpen()])
    requires '_' !in id && forall l :: 0 <= l < |fixed| ==> fixed[l].id != id
    requires i < |fixed| + 1 + |vs|
    ensures i < |Finish(fixed, vs)| && Finish(fixed, vs)[i].id != id
  {
    FinishIdAt(fixed, vs, i);
    if i > |fixed| {
      BarreIdShape(vs[i - |fixed| - 1].id);
    } else if i == |fixed| {
      assert "F_open"[1] == '_';
    }
  }
}
