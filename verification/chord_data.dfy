/** The literal tables of `constants.ts` and the database they build. */
module ChordData {
  import opened Util
  import opened Text
  import opened Types
  import opened ChordLookup
  import opened ChordGen
  import opened ChordFix
  import opened ChordVariation
  import opened ChordFinish
  import opened ChordDb

  /** The practice targets a fresh install starts from. */
  const TargetBpmOpen: int := 100
  const TargetBpmBarre: int := 80

  const Keys: seq<string> := ["C", "C#", "D", "D#", "E", "F", "F#", "G", "G#", "A", "A#", "B"]

  const Suffixes: seq<SuffixSpec> := [
    SuffixSpec("Major", "", Basic),
    SuffixSpec("Minor", "m", Basic),
    SuffixSpec("7", "7", Intermediate),
    SuffixSpec("Major 7", "maj7", Intermediate),
    SuffixSpec("Minor 7", "m7", Intermediate),
    SuffixSpec("Sus 4", "sus4", Advanced),
    SuffixSpec("Diminished", "dim", Advanced),
    SuffixSpec("Augmented", "aug", Advanced),
    SuffixSpec("9", "9", Advanced)
  ]

  const Fixes: seq<FixSpec> := [
    FixSpec("C", [-1, 3, 2, 0, 1, 0], [0, 3, 2, 0, 1, 0], 1, false, []),
    FixSpec("G", [3, 2, 0, 0, 0, 3], [2, 1, 0, 0, 0, 3], 1, false, []),
    FixSpec("D", [-1, -1, 0, 2, 3, 2], [0, 0, 0, 1, 3, 2], 1, false, []),
    FixSpec("A", [-1, 0, 2, 2, 2, 0], [0, 0, 1, 2, 3, 0], 1, false, []),
    FixSpec("E", [0, 2, 2, 1, 0, 0], [0, 2, 3, 1, 0, 0], 1, false, []),
    FixSpec("Am", [-1, 0, 2, 2, 1, 0], [0, 0, 2, 3, 1, 0], 1, false, []),
    FixSpec("Em", [0, 2, 2, 0, 0, 0], [0, 2, 3, 0, 0, 0], 1, false, []),
    FixSpec("Dm", [-1, -1, 0, 2, 3, 1], [0, 0, 0, 2, 3, 1], 1, false, []),
    FixSpec("F", [1, 3, 3, 2, 1, 1], [1, 3, 4, 2, 1, 1], 1, true, [1]),
    FixSpec("Bm", [-1, 2, 4, 4, 3, 2], [0, 1, 3, 4, 2, 1], 1, true, [2])
  ]

  const Variations: seq<VariationSpec> := [
    VariationSpec("C", "C Major", [-1, 3, 5, 5, 5, 3], [0, 1, 3, 3, 3, 1], 3),
    VariationSpec("D", "D Major", [-1, 5, 7, 7, 7, 5], [0, 1, 3, 3, 3, 1], 5),
    VariationSpec("G", "G Major", [3, 5, 5, 4, 3, 3], [1, 3, 4, 2, 1, 1], 3),
    VariationSpec("A", "A Major", [5, 7, 7, 6, 5, 5], [1, 3, 4, 2, 1, 1], 5),
    VariationSpec("E", "E Major", [-1, 7, 9, 9, 9, 7], [0, 1, 3, 3, 3, 1], 7),
    VariationSpec("Am", "A Minor", [5, 7, 7, 5, 5, 5], [1, 3, 4, 1, 1, 1], 5),
    VariationSpec("Em", "E Minor", [-1, 7, 9, 9, 8, 7], [0, 1, 3, 4, 2, 1], 7)
  ]

  /** The generated chords, keys in the outer loop and suffixes in the inner one. */
  function Generated(): seq<Chord>
  {
    Grid(Keys, Suffixes)
  }

  /** `CHORD_DB` once the module has run. */
  function Database(): (r: seq<Chord>)
    ensures |r| == 116
  {
    LiteralsWellShaped();
    Build(Keys, Suffixes, Fixes, Variations)
  }

  lemma KeysShaped()
    ensures |Keys| == 12 && forall k :: 0 <= k < |Keys| ==> KeyShaped(Keys[k])
  {
  }

  lemma KeysDistinct()
    ensures forall k, l :: 0 <= k < l < |Keys| ==> Keys[k] != Keys[l]
  {
  }

  lemma SuffixesShaped()
    ensures |Suffixes| == 9 && forall s :: 0 <= s < |Suffixes| ==> SuffixShaped(Suffixes[s].suffix)
  {
  }

  lemma SuffixesDistinct()
    ensures forall s, t :: 0 <= s < t < |Suffixes| ==> Suffixes[s].suffix != Suffixes[t].suffix
  {
  }

  lemma LiteralsWellShaped()
    ensures |Keys| == 12 && |Suffixes| == 9
    ensures WellShaped(Keys, Suffixes)
  {
    KeysShaped();
    KeysDistinct();
    SuffixesShaped();
    SuffixesDistinct();
  }

  lemma VariationsLiteralOk()
    ensures |Variations| == 7 && VariationsOk(Variations)
  {
  }

  /** The ids the ten fixes name, in call order. */
  const FixIds: seq<string> := ["C", "G", "D", "A", "E", "Am", "Em", "Dm", "F", "Bm"]

  lemma FixIdsListed()
    ensures |Fixes| == |FixIds| && forall k :: 0 <= k < |Fixes| ==> Fixes[k].id == FixIds[k]
  {
  }

  lemma FixIdsListDistinct()
    ensures forall k, l :: 0 <= k < l < |FixIds| ==> FixIds[k] != FixIds[l]
  {
  }

  lemma FixIdsDistinct()
    ensures |Fixes| == 10 && DistinctFixIds(Fixes)
  {
    FixIdsListed();
    FixIdsListDistinct();
  }

  /** What a fix id reads as: a plain key with the major or minor suffix, barre exactly for F and B. */
  predicate FixReadsAs(f: FixSpec, k: nat, s: nat)
  {
    && k < |Keys| && s < |Suffixes|
    && |Keys[k]| == 1
    && f.id == Keys[k] + Suffixes[s].suffix
    && Suffixes[s].difficulty == Basic
    && (f.isBarre <==> Keys[k] in BarreKeys)
  }

  /** The key and suffix index each fix names. */
  const FixKey: seq<nat> := [0, 7, 2, 9, 4, 9, 4, 2, 5, 11]
  const FixSuffix: seq<nat> := [0, 0, 0, 0, 0, 1, 1, 1, 0, 1]

  lemma FixesRead()
    ensures |FixKey| == |Fixes| && |FixSuffix| == |Fixes|
    ensures forall f :: 0 <= f < |Fixes| ==> FixReadsAs(Fixes[f], FixKey[f], FixSuffix[f])
  {
  }

  /** A fix's barre flag agrees with the type the generator gave the chord it patches. */
  lemma FixKeepsType(f: nat, k: nat, s: nat)
    requires f < |Fixes| && k < 12 && s < 9
    requires Fixes[f].id == ChordId(Keys[k], Suffixes[s].suffix)
    ensures k == FixKey[f] && s == FixSuffix[f]
    ensures Fixes[f].isBarre <==> Suffixes[s].difficulty != Basic || Keys[k] in BarreKeys
  {
    FixesRead();
    LiteralsWellShaped();
    var a, b := FixKey[f], FixSuffix[f];
    IdShape(Keys[a], Suffixes[b].suffix);
    assert Keys[a] == [Keys[a][0]];
    DecodeChordId(Keys[k], Suffixes[s].suffix);
    DecodeChordId(Keys[a], Suffixes[b].suffix);
    assert Keys[k] == Keys[a] && Suffixes[s].suffix == Suffixes[b].suffix;
  }

  lemma FixesAgreeLiteral()
    ensures FixesAgree(Keys, Suffixes, Fixes)
  {
    forall f, k, s | 0 <= f < |Fixes| && 0 <= k < |Keys| && 0 <= s < |Suffixes| && Fixes[f].id == ChordId(Keys[k], Suffixes[s].suffix)
      ensures Fixes[f].isBarre <==> Suffixes[s].difficulty != Basic || Keys[k] in BarreKeys
    {
      FixKeepsType(f, k, s);
    }
  }

  /** Each fix id is the id the generator gives its key and suffix. */
  lemma FixIdsGenerated(f: nat)
    requires f < |Fixes|
    ensures FixKey[f] < 12 && FixSuffix[f] < 9
    ensures Fixes[f].id == ChordId(Keys[FixKey[f]], Suffixes[FixSuffix[f]].suffix)
  {
    FixesRead();
    LiteralsWellShaped();
    var k, s := FixKey[f], FixSuffix[f];
    IdShape(Keys[k], Suffixes[s].suffix);
    assert Keys[k] == [Keys[k][0]];
  }

  /** 108 generated chords, the open F and seven barre variations. */
  lemma DatabaseSize()
    ensures |Database()| == 116
  {
    BuildLength(Keys, Suffixes, Fixes, Variations);
  }

  /** Every id is unique and none holds a '#', so every `find` by id is unambiguous. */
  lemma DatabaseIds()
    ensures DistinctIds(Database())
    ensures forall i :: 0 <= i < |Database()| ==> '#' !in Database()[i].id
  {
    LiteralsWellShaped();
    VariationsLiteralOk();
    BuildIds(Keys, Suffixes, Fixes, Variations);
  }

  /** A lookup by the id of entry `i` finds entry `i`. */
  lemma FindDatabase(i: nat)
    requires i < |Database()|
    ensures Find(Database(), Database()[i].id) == Some(Database()[i])
  {
    DatabaseIds();
    FindIndexDistinct(Database(), i);
  }

  /** "F#" and "Bb", which the progressions use, have no chord. */
  lemma SharpAndFlatMissing(id: string)
    requires id == "F#" || id == "Bb"
    ensures Find(Database(), id) == None
  {
    LiteralsWellShaped();
    assert DecodeId("F#").1 == "#";
    assert DecodeId("Bb").1 == "b";
    BuildLacks(Keys, Suffixes, Fixes, Variations, id);
  }

  /** The fixes for E minor and A minor are open shapes. */
  lemma MinorFixesOpen()
    ensures |Fixes| == 10
    ensures Fixes[6].id == "Em" && !Fixes[6].isBarre && FixKey[6] * 9 + FixSuffix[6] == 37
    ensures Fixes[5].id == "Am" && !Fixes[5].isBarre && FixKey[5] * 9 + FixSuffix[5] == 82
  {
  }

  lemma FKeyLiteral(k: nat, s: nat)
    requires k == 5 && s == 0
    ensures k < 12 && s < 9
    ensures ChordId(Keys[k], Suffixes[s].suffix) == "F" && Keys[k] in BarreKeys
  {
    IdShape("F", "");
    assert Keys[k] == "F" && Suffixes[s].suffix == "";
  }

  /** The generated F is the one renamed, and it stays a barre chord. */
  lemma GeneratedFRenamed(db: seq<Chord>, k: nat, s: nat)
    requires db == Database() && k == 5 && s == 0
    ensures k * 9 + s < |db|
    ensures db[k * 9 + s].id == "F" && db[k * 9 + s].name == "F Major (Barre)" && db[k * 9 + s].chordType == Barre
  {
    LiteralsWellShaped();
    FixIdsDistinct();
    FixesAgreeLiteral();
    FKeyLiteral(k, s);
    BuildEntry(Keys, Suffixes, Fixes, Variations, k, s);
  }
}
