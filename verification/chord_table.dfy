/**
 * Two nested `forEach` loops, the outer over keys and the inner over
 * suffixes, each pushing `make(key, suffix)`: the shape of the generation
 * loop, independent of what it makes.
 */
module ChordTable {

  /** The inner `forEach`: one entry per suffix, for one key. */
  function TableRow<S, T>(key: string, sufs: seq<S>, make: (string, S) -> T): (r: seq<T>)
    ensures |r| == |sufs|
    ensures forall s :: 0 <= s < |sufs| ==> r[s] == make(key, sufs[s])
  {
    if |sufs| == 0 then [] else [make(key, sufs[0])] + TableRow(key, sufs[1..], make)
  }

  /** The outer `forEach`: the rows of all keys, in key order. */
  function Table<S, T>(keys: seq<string>, sufs: seq<S>, make: (string, S) -> T): seq<T>
  {
    if |keys| == 0 then [] else TableRow(keys[0], sufs, make) + Table(keys[1..], sufs, make)
  }

  /** With nine suffixes, entry `k * 9 + s` is what key `k` and suffix `s` make. */
  lemma {:induction false} TableAt<S, T>(keys: seq<string>, sufs: seq<S>, make: (string, S) -> T, k: nat, s: nat)
    requires |sufs| == 9 && k < |keys| && s < 9
    ensures k * 9 + s < |Table(keys, sufs, make)|
    ensures Table(keys, sufs, make)[k * 9 + s] == make(keys[k], sufs[s])
    decreases k
  {
    var row := TableRow(keys[0], sufs, make);
    var rest := Table(keys[1..], sufs, make);
    if k == 0 {
      assert Table(keys, sufs, make)[s] == (row + rest)[s] == row[s];
    } else {
      TableAt(keys[1..], sufs, make, k - 1, s);
      var j := (k - 1) * 9 + s;
      assert Table(keys, sufs, make)[9 + j] == (row + rest)[9 + j] == rest[j];
      assert keys[1..][k - 1] == keys[k];
    }
  }

  /** One entry per key and suffix. */
  lemma {:induction false} TableLength<S, T>(keys: seq<string>, sufs: seq<S>, make: (string, S) -> T)
    ensures |Table(keys, sufs, make)| == |keys| * |sufs|
  {
    if |keys| > 0 {
      TableLength(keys[1..], sufs, make);
      assert |keys| * |sufs| == |sufs| + (|keys| - 1) * |sufs|;
    }
  }
  /** Adding a key at the end adds its row at the end. */
  lemma {:induction false} TableSnoc<S, T>(keys: seq<string>, sufs: seq<S>, make: (string, S) -> T)
    requires |keys| > 0
    ensures Table(keys, sufs, make) == Table(keys[..|keys| - 1], sufs, make) + TableRow(keys[|keys| - 1], sufs, make)
  {
    if |keys| > 1 {
      TableSnoc(keys[1..], sufs, make);
      assert keys[1..][..|keys| - 2] == keys[..|keys| - 1][1..];
    } else {
      assert keys[..0] == [];
    }
  }
}
