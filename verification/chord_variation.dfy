/**
 * The hand-written chords `constants.ts` pushes after generation: the open
 * F and the barre variations, with what their ids look like.
 */
module ChordVariation {
  import opened Text
  import opened Types
  import opened Util

  /** The hand-written easy F, pushed after the fixes. */
  function FOpen(): Chord
  {
    Chord("F_open", "F", "", "F Major (Open)", Intermediate, Open,
          [ChordPosition([-1, -1, 3, 2, 1, 1], [0, 0, 3, 2, 1, 1], 1, None)])
  }

  /** The arguments of one `addBarreVariation` call. */
  datatype VariationSpec = VariationSpec(
    id: string,
    name: string,
    frets: seq<int>,
    fingers: seq<int>,
    baseFret: int)

  /** The chord `addBarreVariation` pushes. */
  function BarreVariation(v: VariationSpec): (c: Chord)
    ensures c.id == v.id + "_barre"
    ensures c.suffix == (if EndsWith(v.id, "m") then "m" else "")
    ensures c.difficulty == Advanced && c.chordType == Barre
    ensures 'm' !in v.id ==> c.key == v.id
    ensures c.key == ReplaceFirst(v.id, 'm', "")
    ensures c.name == v.name + " (Barre)"
    ensures c.positions == [ChordPosition(v.frets, v.fingers, v.baseFret, None)]
  {
    Chord(v.id + "_barre", ReplaceFirst(v.id, 'm', ""), if EndsWith(v.id, "m") then "m" else "",
          v.name + " (Barre)", Advanced, Barre,
          [ChordPosition(v.frets, v.fingers, v.baseFret, None)])
  }

  /** A minor id loses its 'm' in the key: "Am" gives the key "A". */
  lemma MinorBarreKey(v: VariationSpec, p: string)
    requires v.id == p + "m" && 'm' !in p
    ensures BarreVariation(v).key == p
    ensures BarreVariation(v).suffix == "m"
  {
    ReplaceFirstAt(p, 'm', "", "");
    assert p + "m" == p + ['m'] + "";
    assert p + "" + "" == p;
  }

  /** `addBarreVariation` calls in order: each pushes one chord at the end. */
  function AddVariations(db: seq<Chord>, vs: seq<VariationSpec>): (r: seq<Chord>)
    ensures |r| == |db| + |vs|
    ensures forall i :: 0 <= i < |db| ==> r[i] == db[i]
    ensures forall k :: 0 <= k < |vs| ==> r[|db| + k] == BarreVariation(vs[k])
  {
    if |vs| == 0 then db
    else
      var init := vs[..|vs| - 1];
      var prev := AddVariations(db, init);
      var r := prev + [BarreVariation(vs[|vs| - 1])];
      assert forall i :: 0 <= i < |prev| ==> r[i] == prev[i];
      assert forall k :: 0 <= k < |init| ==> init[k] == vs[k];
      r
  }

  /** The seven variation ids are distinct and free of '#' and '_'. */
  predicate VariationsOk(vs: seq<VariationSpec>)
  {
    && (forall k :: 0 <= k < |vs| ==> '#' !in vs[k].id && '_' !in vs[k].id)
    && (forall k, l :: 0 <= k < l < |vs| ==> vs[k].id != vs[l].id)
  }

  lemma AppendCancel(a: string, b: string, t: string)
    requires a + t == b + t
    ensures a == b
  {
    assert |a| == |b|;
    assert a == (a + t)[..|a|];
    assert b == (b + t)[..|b|];
  }

  lemma BarreIdShape(id: string)
    ensures '_' in id + "_barre" && (id + "_barre")[..|id|] == id
    ensures id + "_barre" != "F_open"
    ensures '#' !in id ==> '#' !in id + "_barre"
  {
    assert (id + "_barre")[|id|] == '_';
  }

  /** Distinct variation ids give distinct barre ids. */
  lemma VariationIdsDiffer(vs: seq<VariationSpec>, a: nat, b: nat)
    requires VariationsOk(vs) && a < b < |vs|
    ensures vs[a].id + "_barre" != vs[b].id + "_barre"
  {
    if vs[a].id + "_barre" == vs[b].id + "_barre" {
      AppendCancel(vs[a].id, vs[b].id, "_barre");
    }
  }
}
