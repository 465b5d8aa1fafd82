/**
 * The generation loop of `constants.ts`: one chord for every key and every
 * suffix, keys in the outer loop, and the ids it gives them.
 */
module ChordGen {
  import opened Util
  import opened Text
  import opened Types
  import opened ChordLookup
  import opened ChordTable

  datatype SuffixSpec = SuffixSpec(name: string, suffix: string, difficulty: Difficulty)

  /** Keys whose every chord is played as a barre. */
  const BarreKeys: seq<string> := ["F", "B", "F#", "C#", "G#", "D#", "A#"]

  /** The C-major shape every generated chord starts with. */
  const DefaultPosition: ChordPosition :=
    ChordPosition([-1, 3, 2, 0, 1, 0], [0, 3, 2, 0, 1, 0], 1, None)

  /** The id of a generated chord: key and suffix, with the first '#' spelled "sharp". */
  function ChordId(key: string, suffix: string): (id: string)
    ensures '#' !in key + suffix ==> id == key + suffix
    ensures '#' in key + suffix ==> |id| == |key| + |suffix| + 4
  {
    ReplaceFirst(key + suffix, '#', "sharp")
  }

  /** The body of the inner `forEach` of the generation loop. */
  function MakeChord(key: string, suf: SuffixSpec): (c: Chord)
    ensures c.id == ChordId(key, suf.suffix) && c.key == key && c.suffix == suf.suffix
    ensures c.chordType == Barre <==> suf.difficulty != Basic || key in BarreKeys
    ensures c.chordType != Power
  {
    var isBarre := suf.difficulty != Basic || key in BarreKeys;
    Chord(ChordId(key, suf.suffix), key, suf.suffix, key + " " + suf.name, suf.difficulty,
          if isBarre then Barre else Open, [DefaultPosition])
  }

  function Row(key: string, sufs: seq<SuffixSpec>): (r: seq<Chord>)
    ensures |r| == |sufs|
    ensures forall s :: 0 <= s < |sufs| ==> r[s] == MakeChord(key, sufs[s])
  {
    TableRow(key, sufs, MakeChord)
  }

  function Grid(keys: seq<string>, sufs: seq<SuffixSpec>): (r: seq<Chord>)
    ensures |r| == |keys| * |sufs|
  {
    TableLength(keys, sufs, MakeChord);
    Table(keys, sufs, MakeChord)
  }

  lemma GridLength(keys: seq<string>, sufs: seq<SuffixSpec>)
    ensures |Grid(keys, sufs)| == |keys| * |sufs|
  {
    TableLength(keys, sufs, MakeChord);
  }

  lemma GridAt(keys: seq<string>, sufs: seq<SuffixSpec>, k: nat, s: nat)
    requires |sufs| == 9 && k < |keys| && s < 9
    ensures k * 9 + s < |Grid(keys, sufs)|
    ensures Grid(keys, sufs)[k * 9 + s] == MakeChord(keys[k], sufs[s])
  {
    TableAt(keys, sufs, MakeChord, k, s);
  }

  /** One chord per key and suffix, in key-major order. */
  lemma GridLayout(keys: seq<string>, sufs: seq<SuffixSpec>)
    requires |sufs| == 9
    ensures |Grid(keys, sufs)| == |keys| * 9
    ensures forall k, s :: 0 <= k < |keys| && 0 <= s < 9 ==>
              Grid(keys, sufs)[k * 9 + s] == MakeChord(keys[k], sufs[s])
  {
    GridLength(keys, sufs);
    forall k, s | 0 <= k < |keys| && 0 <= s < 9
      ensures Grid(keys, sufs)[k * 9 + s] == MakeChord(keys[k], sufs[s])
    {
      GridAt(keys, sufs, k, s);
    }
  }

  lemma GridSnoc(keys: seq<string>, sufs: seq<SuffixSpec>)
    requires |keys| > 0
    ensures Grid(keys, sufs) == Grid(keys[..|keys| - 1], sufs) + Row(keys[|keys| - 1], sufs)
  {
    TableSnoc(keys, sufs, MakeChord);
  }

  /** Pushing one more suffix's chord extends the key's row by that chord. */
  lemma RowSnoc(key: string, sufs: seq<SuffixSpec>, s: nat)
    requires s < |sufs|
    ensures Row(key, sufs[..s + 1]) == Row(key, sufs[..s]) + [MakeChord(key, sufs[s])]
  {
    var a := Row(key, sufs[..s + 1]);
    var b := Row(key, sufs[..s]) + [MakeChord(key, sufs[s])];
    assert |a| == |b|;
    forall j | 0 <= j < |a| ensures a[j] == b[j] {
      assert sufs[..s + 1][j] == sufs[j];
    }
  }

  /** The two nested `forEach` loops, pushing one chord per key and suffix. */
  method BuildGrid(keys: seq<string>, sufs: seq<SuffixSpec>) returns (db: seq<Chord>)
    ensures db == Grid(keys, sufs)
  {
    db := [];
    var k := 0;
    while k < |keys|
      invariant 0 <= k <= |keys|
      invariant db == Grid(keys[..k], sufs)
    {
      var s := 0;
      while s < |sufs|
        invariant 0 <= s <= |sufs|
        invariant db == Grid(keys[..k], sufs) + Row(keys[k], sufs[..s])
      {
        RowSnoc(keys[k], sufs, s);
        db := db + [MakeChord(keys[k], sufs[s])];
        s := s + 1;
      }
      assert sufs[..s] == sufs;
      GridSnoc(keys[..k + 1], sufs);
      assert keys[..k + 1][..k] == keys[..k];
      k := k + 1;
    }
    assert keys[..k] == keys;
  }

  // -----------------------------------------------------------------------
  // Ids
  // -----------------------------------------------------------------------

  /** A key is a letter, optionally followed by '#'. */
  predicate KeyShaped(key: string)
  {
    1 <= |key| <= 2 && 'A' <= key[0] <= 'G' && (|key| == 2 ==> key[1] == '#')
  }

  /** A suffix is short and holds neither '#' nor '_'. */
  predicate SuffixShaped(suf: string)
  {
    |suf| <= 4 && '#' !in suf && '_' !in suf
  }

  predicate WellShaped(keys: seq<string>, sufs: seq<SuffixSpec>)
  {
    && (forall k :: 0 <= k < |keys| ==> KeyShaped(keys[k]))
    && (forall s :: 0 <= s < |sufs| ==> SuffixShaped(sufs[s].suffix))
    && (forall k, l :: 0 <= k < l < |keys| ==> keys[k] != keys[l])
    && (forall s, t :: 0 <= s < t < |sufs| ==> sufs[s].suffix != sufs[t].suffix)
  }

  /** An id is the key letter, "sharp" for a sharp key, then the suffix. */
  lemma IdShape(key: string, suf: string)
    requires KeyShaped(key) && SuffixShaped(suf)
    ensures ChordId(key, suf) == [key[0]] + (if |key| == 2 then "sharp" else "") + suf
  {
    if |key| == 2 {
      assert key + suf == [key[0]] + ['#'] + suf;
      ReplaceFirstAt([key[0]], '#', "sharp", suf);
    } else {
      assert key + suf == [key[0]] + suf;
    }
  }

  /** Reads the key and suffix back out of an id. */
  function DecodeId(id: string): (string, string)
    requires |id| >= 1
  {
    if |id| >= 6 && id[1..6] == "sharp" then ([id[0], '#'], id[6..]) else ([id[0]], id[1..])
  }

  /** Ids decode to the key and suffix they were made from, so they are injective. */
  lemma DecodeChordId(key: string, suf: string)
    requires KeyShaped(key) && SuffixShaped(suf)
    ensures |ChordId(key, suf)| >= 1
    ensures DecodeId(ChordId(key, suf)) == (key, suf)
    ensures '#' !in ChordId(key, suf) && '_' !in ChordId(key, suf)
  {
    IdShape(key, suf);
    var id := ChordId(key, suf);
    if |key| == 2 {
      assert id[1..6] == "sharp" && id[6..] == suf;
      assert key == [key[0], '#'];
    } else {
      assert id[1..] == suf;
      assert key == [key[0]];
    }
  }

  /** Entry `i` of the grid, by key and suffix index. */
  lemma GridEntry(keys: seq<string>, sufs: seq<SuffixSpec>, i: nat)
    requires |sufs| == 9 && i < |Grid(keys, sufs)|
    ensures i / 9 < |keys| && Grid(keys, sufs)[i] == MakeChord(keys[i / 9], sufs[i % 9])
  {
    GridLength(keys, sufs);
    var k, s := i / 9, i % 9;
    assert i == k * 9 + s;
    GridAt(keys, sufs, k, s);
  }

  lemma GridIdChars(keys: seq<string>, sufs: seq<SuffixSpec>, i: nat)
    requires |sufs| == 9 && WellShaped(keys, sufs) && i < |Grid(keys, sufs)|
    ensures '#' !in Grid(keys, sufs)[i].id && '_' !in Grid(keys, sufs)[i].id
  {
    GridEntry(keys, sufs, i);
    DecodeChordId(keys[i / 9], sufs[i % 9].suffix);
  }

  lemma GridIdsDiffer(keys: seq<string>, sufs: seq<SuffixSpec>, i: nat, j: nat)
    requires |sufs| == 9 && WellShaped(keys, sufs) && i < j < |Grid(keys, sufs)|
    ensures Grid(keys, sufs)[i].id != Grid(keys, sufs)[j].id
  {
    GridEntry(keys, sufs, i);
    GridEntry(keys, sufs, j);
    var ki, si, kj, sj := i / 9, i % 9, j / 9, j % 9;
    DecodeChordId(keys[ki], sufs[si].suffix);
    DecodeChordId(keys[kj], sufs[sj].suffix);
    assert ki != kj || si != sj;
  }

  /** Different keys or suffixes give different ids. */
  lemma GridIdsDistinct(keys: seq<string>, sufs: seq<SuffixSpec>)
    requires |sufs| == 9 && WellShaped(keys, sufs)
    ensures DistinctIds(Grid(keys, sufs))
  {
    forall i, j | 0 <= i < j < |Grid(keys, sufs)|
      ensures Grid(keys, sufs)[i].id != Grid(keys, sufs)[j].id
    {
      GridIdsDiffer(keys, sufs, i, j);
    }
  }

  /** No generated id decodes to a suffix outside `sufs`. */
  lemma GridLacksAt(keys: seq<string>, sufs: seq<SuffixSpec>, id: string, i: nat)
    requires |sufs| == 9 && WellShaped(keys, sufs)
    requires |id| >= 1
    requires forall s :: 0 <= s < |sufs| ==> sufs[s].suffix != DecodeId(id).1
    requires i < |Grid(keys, sufs)|
    ensures Grid(keys, sufs)[i].id != id
  {
    GridEntry(keys, sufs, i);
    var k, s := i / 9, i % 9;
    DecodeChordId(keys[k], sufs[s].suffix);
  }
}
