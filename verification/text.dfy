/**
 * The JavaScript string primitives the application leans on, modelled on
 * `seq<char>`: `trim`, `toLowerCase`, `includes`, `split`/`join` on one
 * character, `replace` of the first occurrence, `endsWith`, the default
 * ordering of `Array.prototype.sort` (by UTF-16 code units), `parseInt` and
 * the decimal rendering of an integer.
 */
module Text {
  import opened Util

  // ---------------------------------------------------------------------
  // Whitespace and trimming
  // ---------------------------------------------------------------------

  /** ECMAScript WhiteSpace or LineTerminator: what `trim` and `parseInt` skip. */
  predicate IsWhite(c: char)
  {
    || c == '\t' || c == '\U{000B}' || c == '\U{000C}' || c == ' ' || c == '\U{00A0}'
    || c == '\U{1680}' || ('\U{2000}' <= c <= '\U{200A}') || c == '\U{202F}'
    || c == '\U{205F}' || c == '\U{3000}' || c == '\U{FEFF}'
    || c == '\n' || c == '\r' || c == '\U{2028}' || c == '\U{2029}'
  }

  /** `trimStart`: drops leading whitespace; the result is a suffix of the input. */
  function TrimStart(s: string): (r: string)
    ensures |r| <= |s| && r == s[|s| - |r|..]
    ensures forall i :: 0 <= i < |s| - |r| ==> IsWhite(s[i])
    ensures |r| > 0 ==> !IsWhite(r[0])
  {
    if |s| > 0 && IsWhite(s[0]) then TrimStart(s[1..]) else s
  }

  /** `trimEnd`: drops trailing whitespace; the result is a prefix of the input. */
  function TrimEnd(s: string): (r: string)
    ensures |r| <= |s| && r == s[..|r|]
    ensures forall i :: |r| <= i < |s| ==> IsWhite(s[i])
    ensures |r| > 0 ==> !IsWhite(r[|r| - 1])
  {
    if |s| > 0 && IsWhite(s[|s| - 1]) then TrimEnd(s[..|s| - 1]) else s
  }

  /** `r` is the slice of `s` that starts at `lo`. */
  ghost predicate SliceAt(s: string, r: string, lo: int)
  {
    0 <= lo <= lo + |r| <= |s| && r == s[lo..lo + |r|]
  }

  /** `r` is the slice of `s` at `lo`, and everything around it is whitespace. */
  ghost predicate WhiteAround(s: string, r: string, lo: int)
  {
    && SliceAt(s, r, lo)
    && (forall i :: 0 <= i < lo ==> IsWhite(s[i]))
    && (forall i :: lo + |r| <= i < |s| ==> IsWhite(s[i]))
  }

  /** `String.prototype.trim`. */
  function Trim(s: string): (r: string)
    ensures exists lo :: WhiteAround(s, r, lo)
    ensures |r| > 0 ==> !IsWhite(r[0]) && !IsWhite(r[|r| - 1])
    ensures r == "" <==> forall i :: 0 <= i < |s| ==> IsWhite(s[i])
  {
    var t := TrimStart(s);
    var r := TrimEnd(t);
    WhiteAroundOfCuts(s, t, r);
    if r == "" then
      assert |t| == 0;
      r
    else
      assert !IsWhite(t[0]) && t[0] == s[|s| - |t|];
      r
  }

  /**
   * A whitespace-led suffix `t` of `s`, cut to a prefix `r` before trailing
   * whitespace, leaves only whitespace around `r` in `s`.
   */
  lemma WhiteAroundOfCuts(s: string, t: string, r: string)
    requires |t| <= |s| && t == s[|s| - |t|..]
    requires forall i :: 0 <= i < |s| - |t| ==> IsWhite(s[i])
    requires |r| <= |t| && r == t[..|r|]
    requires forall i :: |r| <= i < |t| ==> IsWhite(t[i])
    ensures WhiteAround(s, r, |s| - |t|)
  {
    var lo := |s| - |t|;
    assert r == s[lo..lo + |r|];
    forall i | lo + |r| <= i < |s|
      ensures IsWhite(s[i])
    {
      assert s[i] == t[i - lo];
    }
  }

  /** No whitespace at either end. */
  predicate Trimmed(s: string)
  {
    |s| == 0 || (!IsWhite(s[0]) && !IsWhite(s[|s| - 1]))
  }

  /**
   * `trim` is characterised by its result alone: the one slice with only
   * whitespace around it and none at its own ends.
   */
  lemma TrimUnique(s: string, r: string, lo: int)
    requires WhiteAround(s, r, lo) && Trimmed(r)
    ensures Trim(s) == r
  {
    var t := Trim(s);
    var lt :| WhiteAround(s, t, lt);
    if |r| == 0 {
      assert forall i :: 0 <= i < |s| ==> IsWhite(s[i]) by {
        forall i | 0 <= i < |s| ensures IsWhite(s[i]) {
          if i >= lo { assert lo + |r| <= i; }
        }
      }
    } else {
      assert s[lo] == r[0] && s[lo + |r| - 1] == r[|r| - 1];
      assert |t| > 0;
      assert s[lt] == t[0] && s[lt + |t| - 1] == t[|t| - 1];
      assert lt == lo;
      assert lt + |t| == lo + |r|;
    }
  }

  /** `trim` changes a string exactly when it has whitespace at an end. */
  lemma TrimOfTrimmed(s: string)
    ensures Trim(s) == s <==> Trimmed(s)
  {
  }

  /** A slice holds only characters of the text it is cut from. */
  lemma SliceAvoids(s: string, r: string, lo: int, hi: int, c: char)
    requires 0 <= lo <= hi <= |s| && r == s[lo..hi] && c !in s
    ensures c !in r
  {
    forall i | 0 <= i < |r|
      ensures r[i] != c
    {
      assert r[i] == s[lo + i];
    }
  }

  /** `trim` cuts the start, then the end. */
  lemma {:induction false} TrimIsCuts(s: string)
    ensures Trim(s) == TrimEnd(TrimStart(s))
  {
  }

  /** Cutting the start of a text with something visible in it, or before a visible character, leaves the rest alone. */
  lemma {:induction false} TrimStartConcat(a: string, b: string)
    requires TrimStart(a) != "" || (|b| > 0 && !IsWhite(b[0]))
    ensures TrimStart(a + b) == TrimStart(a) + b
  {
    if |a| == 0 {
      assert a + b == b;
    } else if IsWhite(a[0]) {
      assert (a + b)[1..] == a[1..] + b;
      TrimStartConcat(a[1..], b);
    }
  }

  /** Cutting the end of a text after a visible character leaves what comes before alone. */
  lemma {:induction false} TrimEndConcat(a: string, b: string)
    requires |a| > 0 && !IsWhite(a[|a| - 1])
    ensures TrimEnd(a + b) == a + TrimEnd(b)
  {
    if |b| == 0 {
      assert a + b == a;
    } else if IsWhite(b[|b| - 1]) {
      assert (a + b)[..|a + b| - 1] == a + b[..|b| - 1];
      TrimEndConcat(a, b[..|b| - 1]);
    }
  }

  /** Trimming after cutting the start is trimming. */
  lemma {:induction false} TrimAfterTrimStart(s: string)
    ensures Trim(TrimStart(s)) == Trim(s)
  {
    var t := TrimStart(s);
    if |t| > 0 {
      assert !IsWhite(t[0]);
    }
    assert TrimStart(t) == t;
    TrimIsCuts(s);
    TrimIsCuts(t);
  }

  // ---------------------------------------------------------------------
  // Case mapping and substring search
  // ---------------------------------------------------------------------

  /** `toLowerCase` on one character; only the ASCII letters are mapped. */
  function LowerChar(c: char): char
  {
    if 'A' <= c <= 'Z' then (c as int + 32) as char else c
  }

  function ToLower(s: string): (r: string)
    ensures |r| == |s|
    ensures forall i :: 0 <= i < |s| ==> r[i] == LowerChar(s[i])
  {
    seq(|s|, i requires 0 <= i < |s| => LowerChar(s[i]))
  }

  predicate IsPrefix(p: string, s: string)
  {
    |p| <= |s| && s[..|p|] == p
  }

  /** `sub` occurs in `s` starting at index `i`. */
  ghost predicate OccursAt(s: string, sub: string, i: int)
  {
    0 <= i && i + |sub| <= |s| && s[i..i + |sub|] == sub
  }

  /** `String.prototype.includes`. */
  predicate Contains(s: string, sub: string)
    ensures Contains(s, sub) ==> |sub| <= |s|
    ensures |sub| == 0 ==> Contains(s, sub)
  {
    IsPrefix(sub, s) || (|s| > 0 && Contains(s[1..], sub))
  }

  /** `Contains` finds `sub` exactly when it occurs at some index. */
  lemma ContainsIff(s: string, sub: string)
    ensures Contains(s, sub) <==> exists i :: OccursAt(s, sub, i)
  {
    forall i | OccursAt(s, sub, i) ensures Contains(s, sub) {
      OccursContains(s, sub, i);
    }
    if Contains(s, sub) {
      ContainsOccurs(s, sub);
    }
  }

  lemma {:induction false} OccursContains(s: string, sub: string, i: int)
    requires OccursAt(s, sub, i)
    ensures Contains(s, sub)
  {
    if i == 0 {
      assert s[..|sub|] == sub;
    } else {
      assert s[1..][i - 1..i - 1 + |sub|] == s[i..i + |sub|];
      OccursContains(s[1..], sub, i - 1);
    }
  }

  lemma {:induction false} ContainsOccurs(s: string, sub: string)
    requires Contains(s, sub)
    ensures exists i :: OccursAt(s, sub, i)
  {
    if IsPrefix(sub, s) {
      assert OccursAt(s, sub, 0);
    } else {
      ContainsOccurs(s[1..], sub);
      var j :| OccursAt(s[1..], sub, j);
      assert s[j + 1..j + 1 + |sub|] == s[1..][j..j + |sub|];
      assert OccursAt(s, sub, j + 1);
    }
  }

  /** `endsWith`. */
  predicate EndsWith(s: string, suffix: string)
  {
    |suffix| <= |s| && s[|s| - |suffix|..] == suffix
  }

  // ---------------------------------------------------------------------
  // Split and join on one character
  // ---------------------------------------------------------------------

  /** The number of occurrences of `c` in `s`. */
  function CountChar(s: string, c: char): nat
  {
    if |s| == 0 then 0 else (if s[0] == c then 1 else 0) + CountChar(s[1..], c)
  }

  /** `Array.prototype.join(sep)` with a one-character separator. */
  function Join(parts: seq<string>, sep: char): (r: string)
    ensures |parts| >= 1 ==> IsPrefix(parts[0], r)
    ensures |parts| >= 2 ==> |parts[0]| < |r| && r[|parts[0]|] == sep
  {
    if |parts| == 0 then ""
    else if |parts| == 1 then parts[0]
    else parts[0] + [sep] + Join(parts[1..], sep)
  }

  /** `String.prototype.split(sep)` with a one-character separator. */
  function Split(s: string, sep: char): (r: seq<string>)
    ensures |r| == CountChar(s, sep) + 1
    ensures forall i :: 0 <= i < |r| ==> sep !in r[i]
  {
    if |s| == 0 then [""]
    else
      var rest := Split(s[1..], sep);
      if s[0] == sep then [""] + rest
      else [[s[0]] + rest[0]] + rest[1..]
  }

  /** Joining the pieces of a split with the same separator gives the input back. */
  lemma {:induction false} JoinSplit(s: string, sep: char)
    ensures Join(Split(s, sep), sep) == s
  {
    if |s| > 0 {
      var rest := Split(s[1..], sep);
      JoinSplit(s[1..], sep);
      if s[0] == sep {
        assert ([""] + rest)[1..] == rest;
      } else {
        var r := [[s[0]] + rest[0]] + rest[1..];
        assert r[1..] == rest[1..];
        if |rest| > 1 {
          assert Join(rest, sep) == rest[0] + [sep] + Join(rest[1..], sep);
        }
      }
    }
  }

  lemma {:induction false} SplitNoSep(p: string, sep: char)
    requires sep !in p
    ensures Split(p, sep) == [p]
  {
    if |p| > 0 {
      assert sep !in p[1..];
      SplitNoSep(p[1..], sep);
      assert [p[0]] + p[1..] == p;
    }
  }

  lemma {:induction false} SplitAfterPiece(p: string, sep: char, t: string)
    requires sep !in p
    ensures Split(p + [sep] + t, sep) == [p] + Split(t, sep)
  {
    var s := p + [sep] + t;
    if |p| == 0 {
      assert s[1..] == t;
    } else {
      assert s[1..] == p[1..] + [sep] + t;
      assert sep !in p[1..];
      SplitAfterPiece(p[1..], sep, t);
      assert [s[0]] + p[1..] == p;
    }
  }

  /** Splitting a join recovers the pieces when no piece contains the separator. */
  lemma {:induction false} SplitJoin(parts: seq<string>, sep: char)
    requires |parts| >= 1
    requires forall i :: 0 <= i < |parts| ==> sep !in parts[i]
    ensures Split(Join(parts, sep), sep) == parts
  {
    if |parts| == 1 {
      SplitNoSep(parts[0], sep);
    } else {
      SplitJoin(parts[1..], sep);
      SplitAfterPiece(parts[0], sep, Join(parts[1..], sep));
      assert [parts[0]] + parts[1..] == parts;
    }
  }

  /** A join contains a character other than the separator only if a piece does. */
  lemma {:induction false} JoinAvoids(parts: seq<string>, sep: char, c: char)
    requires c != sep
    requires forall i :: 0 <= i < |parts| ==> c !in parts[i]
    ensures c !in Join(parts, sep)
  {
    if |parts| > 1 {
      JoinAvoids(parts[1..], sep, c);
    }
  }

  /** The last character of a join of two or more pieces: the last piece's, or the separator before it. */
  lemma {:induction false} JoinLast(parts: seq<string>, sep: char)
    requires |parts| >= 2
    ensures var j := Join(parts, sep);
            var last := parts[|parts| - 1];
            |j| > 0 && j[|j| - 1] == if |last| > 0 then last[|last| - 1] else sep
  {
    if |parts| > 2 {
      JoinLast(parts[1..], sep);
    }
  }

  /** Joining with a visible separator pieces whose outer ends are trimmed gives a trimmed string. */
  lemma JoinTrimmed(parts: seq<string>, sep: char)
    requires !IsWhite(sep) && |parts| >= 1
    requires Trimmed(parts[0]) && Trimmed(parts[|parts| - 1])
    ensures Trimmed(Join(parts, sep))
  {
    if |parts| > 1 {
      JoinLast(parts, sep);
      var j := Join(parts, sep);
      assert j == parts[0] + [sep] + Join(parts[1..], sep);
      assert j[0] == if |parts[0]| > 0 then parts[0][0] else sep;
    }
  }

  /** A join of two or more pieces is the join of all but the last, the separator, and the last. */
  lemma {:induction false} JoinSnoc(parts: seq<string>, sep: char)
    requires |parts| >= 2
    ensures Join(parts, sep) == Join(parts[..|parts| - 1], sep) + [sep] + parts[|parts| - 1]
  {
    if |parts| == 2 {
      assert parts[1..] == [parts[1]];
      assert parts[..1] == [parts[0]];
    } else {
      var init := parts[..|parts| - 1];
      JoinSnoc(parts[1..], sep);
      assert parts[1..][..|parts| - 2] == init[1..];
      assert parts[1..][|parts| - 2] == parts[|parts| - 1];
    }
  }

  /** The pieces with white space cut from the start of the first piece only. */
  function FirstTrimmed(parts: seq<string>): (q1: seq<string>)
    requires |parts| >= 2
    ensures |q1| == |parts| && q1[0] == TrimStart(parts[0]) && q1[1..] == parts[1..]
    ensures q1[|q1| - 1] == parts[|parts| - 1]
  {
    [TrimStart(parts[0])] + parts[1..]
  }

  /** The pieces with white space cut from the start of the first and the end of the last. */
  function OuterTrimmed(parts: seq<string>): (q: seq<string>)
    requires |parts| >= 2
    ensures |q| == |parts|
    ensures q[0] == TrimStart(parts[0]) && q[|q| - 1] == TrimEnd(parts[|parts| - 1])
    ensures forall k :: 0 < k < |parts| - 1 ==> q[k] == parts[k]
    ensures q[..|q| - 1] == FirstTrimmed(parts)[..|parts| - 1]
  {
    var q1 := FirstTrimmed(parts);
    q1[..|q1| - 1] + [TrimEnd(parts[|parts| - 1])]
  }

  /**
   * Trimming a join on a visible separator only cuts the start of the first
   * piece and the end of the last; the pieces in between keep their white space.
   */
  lemma {:induction false} TrimJoin(parts: seq<string>, sep: char)
    requires !IsWhite(sep) && |parts| >= 2
    ensures Trim(Join(parts, sep)) == Join(OuterTrimmed(parts), sep)
  {
    CutsJoin(parts, sep, TrimStart(Join(parts, sep)), FirstTrimmed(parts), OuterTrimmed(parts));
    TrimIsCuts(Join(parts, sep));
  }

  lemma {:induction false} CutsJoin(parts: seq<string>, sep: char, t: string, q1: seq<string>, q: seq<string>)
    requires !IsWhite(sep) && |parts| >= 2
    requires t == TrimStart(Join(parts, sep))
    requires |q1| == |parts| && q1[0] == TrimStart(parts[0]) && q1[1..] == parts[1..]
    requires q1[|q1| - 1] == parts[|parts| - 1]
    requires |q| == |parts| && q[..|q| - 1] == q1[..|q1| - 1] && q[|q| - 1] == TrimEnd(parts[|parts| - 1])
    ensures TrimEnd(t) == Join(q, sep)
  {
    TrimStartJoin(parts, sep, q1);
    TrimEndJoin(q1, sep, q);
  }

  /** Splitting a trimmed join gives back the pieces, the outer two cut. */
  lemma {:induction false} SplitTrimJoin(parts: seq<string>, sep: char)
    requires !IsWhite(sep) && |parts| >= 2
    requires forall k :: 0 <= k < |parts| ==> sep !in parts[k]
    ensures Split(Trim(Join(parts, sep)), sep) == OuterTrimmed(parts)
  {
    TrimJoin(parts, sep);
    OuterTrimmedAvoids(parts, sep);
    SplitJoin(OuterTrimmed(parts), sep);
  }

  /** Cutting the outer pieces brings in no new separator. */
  lemma {:induction false} OuterTrimmedAvoids(parts: seq<string>, sep: char)
    requires |parts| >= 2
    requires forall k :: 0 <= k < |parts| ==> sep !in parts[k]
    ensures forall k :: 0 <= k < |parts| ==> sep !in OuterTrimmed(parts)[k]
  {
    var q := OuterTrimmed(parts);
    var n := |parts|;
    TrimStartAvoids(parts[0], sep);
    TrimEndAvoids(parts[n - 1], sep);
    assert sep !in q[0] && sep !in q[n - 1];
  }

  lemma {:induction false} TrimStartAvoids(s: string, c: char)
    requires c !in s
    ensures c !in TrimStart(s)
  {
    var r := TrimStart(s);
    SliceAvoids(s, r, |s| - |r|, |s|, c);
  }

  lemma {:induction false} TrimEndAvoids(s: string, c: char)
    requires c !in s
    ensures c !in TrimEnd(s)
  {
    var r := TrimEnd(s);
    SliceAvoids(s, r, 0, |r|, c);
  }

  /** Cutting the start of a join cuts the start of its first piece. */
  lemma {:induction false} TrimStartJoin(parts: seq<string>, sep: char, q: seq<string>)
    requires !IsWhite(sep) && |parts| >= 2
    requires |q| == |parts| && q[0] == TrimStart(parts[0]) && q[1..] == parts[1..]
    ensures TrimStart(Join(parts, sep)) == Join(q, sep)
  {
    var tail := [sep] + Join(parts[1..], sep);
    JoinCons(parts, sep);
    JoinCons(q, sep);
    SepFirst(sep, Join(parts[1..], sep));
    TrimStartConcat(parts[0], tail);
  }

  /** A join of two or more pieces: the first piece, the separator, then the join of the rest. */
  lemma JoinCons(parts: seq<string>, sep: char)
    requires |parts| >= 2
    ensures Join(parts, sep) == parts[0] + ([sep] + Join(parts[1..], sep))
  {
  }

  lemma SepFirst(sep: char, rest: string)
    ensures |[sep] + rest| > 0 && ([sep] + rest)[0] == sep
  {
  }

  /** Cutting the end of a join cuts the end of its last piece. */
  lemma {:induction false} TrimEndJoin(parts: seq<string>, sep: char, q: seq<string>)
    requires !IsWhite(sep) && |parts| >= 2
    requires |q| == |parts| && q[..|q| - 1] == parts[..|parts| - 1] && q[|q| - 1] == TrimEnd(parts[|parts| - 1])
    ensures TrimEnd(Join(parts, sep)) == Join(q, sep)
  {
    var n := |parts|;
    var init := Join(parts[..n - 1], sep) + [sep];
    JoinSnoc(parts, sep);
    JoinSnoc(q, sep);
    SepLast(Join(parts[..n - 1], sep), sep);
    TrimEndConcat(init, parts[n - 1]);
  }

  lemma SepLast(init: string, sep: char)
    ensures |init + [sep]| > 0 && (init + [sep])[|init + [sep]| - 1] == sep
  {
  }

  // ---------------------------------------------------------------------
  // Replace and index
  // ---------------------------------------------------------------------

  /** The index of the first occurrence of `c` in `s`. */
  function IndexOf(s: string, c: char): (r: nat)
    requires c in s
    ensures r < |s| && s[r] == c && c !in s[..r]
  {
    if s[0] == c then 0
    else
      var k := IndexOf(s[1..], c);
      assert s[..k + 1] == [s[0]] + s[1..][..k];
      k + 1
  }

  /** `String.prototype.replace` with a one-character string pattern: the first occurrence only. */
  function ReplaceFirst(s: string, c: char, rep: string): (r: string)
    ensures c !in s ==> r == s
    ensures c in s ==> exists i :: 0 <= i < |s| && s[i] == c && c !in s[..i] && r == s[..i] + rep + s[i + 1..]
  {
    if c in s then
      var i := IndexOf(s, c);
      s[..i] + rep + s[i + 1..]
    else s
  }

  /** Only the first occurrence is replaced: whatever follows it is kept verbatim. */
  lemma ReplaceFirstAt(p: string, c: char, rep: string, s: string)
    requires c !in p
    ensures ReplaceFirst(p + [c] + s, c, rep) == p + rep + s
  {
    var t := p + [c] + s;
    assert t[|p|] == c;
    var i := IndexOf(t, c);
    assert i == |p|;
    assert t[..i] == p;
    assert t[i + 1..] == s;
  }

  // ---------------------------------------------------------------------
  // The default ordering of Array.prototype.sort on strings
  // ---------------------------------------------------------------------

  /**
   * JavaScript strings are sequences of UTF-16 code units: a character above
   * U+FFFF is stored as a high surrogate (0xD800-0xDBFF) followed by a low
   * surrogate (0xDC00-0xDFFF).
   */
  function CodeUnits(c: char): (u: seq<int>)
    ensures 1 <= |u| <= 2
  {
    if c as int <= 0xFFFF then [c as int]
    else
      var v := c as int - 0x10000;
      [0xD800 + v / 0x400, 0xDC00 + v % 0x400]
  }

  /** The UTF-16 encoding of a whole string. */
  function Utf16(s: string): seq<int>
  {
    if |s| == 0 then [] else CodeUnits(s[0]) + Utf16(s[1..])
  }

  /** Lexicographic `<` on code-unit sequences, as JavaScript compares strings. */
  predicate UnitsLess(a: seq<int>, b: seq<int>)
  {
    if |a| == 0 then |b| > 0
    else if |b| == 0 then false
    else if a[0] != b[0] then a[0] < b[0]
    else UnitsLess(a[1..], b[1..])
  }

  /**
   * Where a character's code units place it among all characters: the
   * characters below the surrogates by value, then those above U+FFFF (their
   * high surrogate comes next), then the rest of U+E000-U+FFFF.
   */
  function UnitRank(c: char): int
  {
    if c as int < 0xD800 then c as int
    else if c as int <= 0xFFFF then c as int + 0x100000
    else c as int - 0x10000 + 0xD800
  }

  /** Distinct characters have distinct ranks. */
  lemma RankInjective(x: char, y: char)
    requires x != y
    ensures UnitRank(x) != UnitRank(y)
  {
  }

  /**
   * The string comparison of `Array.prototype.sort` and `<`, one character at
   * a time: the first differing character decides by its code units.
   */
  predicate StrLess(a: string, b: string)
  {
    if |a| == 0 then |b| > 0
    else if |b| == 0 then false
    else if a[0] != b[0] then UnitRank(a[0]) < UnitRank(b[0])
    else StrLess(a[1..], b[1..])
  }

  /** A shared prefix of code units does not decide the comparison. */
  lemma {:induction false} UnitsLessPrefix(p: seq<int>, x: seq<int>, y: seq<int>)
    ensures UnitsLess(p + x, p + y) == UnitsLess(x, y)
  {
    if |p| > 0 {
      assert (p + x)[1..] == p[1..] + x && (p + y)[1..] == p[1..] + y;
      UnitsLessPrefix(p[1..], x, y);
    } else {
      assert p + x == x && p + y == y;
    }
  }

  /** The code units of two different characters decide by their ranks, whatever follows. */
  lemma UnitsOfDistinct(x: char, y: char, s: seq<int>, t: seq<int>)
    requires x != y
    ensures UnitsLess(CodeUnits(x) + s, CodeUnits(y) + t) == (UnitRank(x) < UnitRank(y))
  {
    var u, w := CodeUnits(x) + s, CodeUnits(y) + t;
    assert u[0] == CodeUnits(x)[0] && w[0] == CodeUnits(y)[0];
    if x as int > 0xFFFF && y as int > 0xFFFF && u[0] == w[0] {
      assert u[1..][0] == CodeUnits(x)[1] && w[1..][0] == CodeUnits(y)[1];
      AstralOrder(x as int - 0x10000, y as int - 0x10000);
    }
  }

  /** Two astral characters with the same high surrogate differ in the low one, in the same direction. */
  lemma AstralOrder(v: int, w: int)
    requires 0 <= v && 0 <= w && v != w && v / 0x400 == w / 0x400
    ensures v % 0x400 != w % 0x400
    ensures v < w <==> v % 0x400 < w % 0x400
  {
  }

  /** The character-wise comparison is the comparison of the UTF-16 encodings. */
  lemma {:induction false} StrLessIsUnitOrder(a: string, b: string)
    ensures StrLess(a, b) == UnitsLess(Utf16(a), Utf16(b))
  {
    if |a| > 0 && |b| > 0 {
      assert Utf16(a) == CodeUnits(a[0]) + Utf16(a[1..]);
      assert Utf16(b) == CodeUnits(b[0]) + Utf16(b[1..]);
      if a[0] == b[0] {
        UnitsLessPrefix(CodeUnits(a[0]), Utf16(a[1..]), Utf16(b[1..]));
        StrLessIsUnitOrder(a[1..], b[1..]);
      } else {
        UnitsOfDistinct(a[0], b[0], Utf16(a[1..]), Utf16(b[1..]));
      }
    }
  }

  /** The string order is a strict total order. */
  lemma {:induction false} StrLessTotal(a: string, b: string)
    ensures !StrLess(a, a)
    ensures !(StrLess(a, b) && StrLess(b, a))
    ensures a == b || StrLess(a, b) || StrLess(b, a)
  {
    if |a| > 0 && |b| > 0 {
      StrLessTotal(a[1..], b[1..]);
      StrLessTotal(a[1..], a[1..]);
      if a[0] == b[0] && a[1..] == b[1..] {
        assert a == [a[0]] + a[1..] && b == [b[0]] + b[1..];
      } else if a[0] != b[0] {
        RankInjective(a[0], b[0]);
      }
    } else if |a| > 0 {
      StrLessTotal(a[1..], a[1..]);
    }
  }

  /** `[x, y].sort()`: the two strings in ascending order. */
  function SortPair(x: string, y: string): (r: (string, string))
    ensures !StrLess(r.1, r.0)
    ensures (r.0 == x && r.1 == y) || (r.0 == y && r.1 == x)
  {
    StrLessTotal(x, y);
    if StrLess(y, x) then (y, x) else (x, y)
  }

  /**
   * A character above U+FFFF sorts before U+E000-U+FFFF, because its high
   * surrogate is the smaller code unit: the emoji comes before the fullwidth '!'.
   */
  lemma AstralBeforeHighBmp()
    ensures SortPair("\U{1F600}", "\U{FF01}") == ("\U{1F600}", "\U{FF01}")
    ensures Utf16("\U{1F600}") == [0xD83D, 0xDE00]
  {
    assert !StrLess("\U{FF01}", "\U{1F600}");
  }

  /** Sorting a pair forgets the order it was given in. */
  lemma SortPairSymmetric(x: string, y: string)
    ensures SortPair(x, y) == SortPair(y, x)
  {
    StrLessTotal(x, y);
  }

  // ---------------------------------------------------------------------
  // Numbers and their text
  // ---------------------------------------------------------------------

  /** The value of a digit character in radix 36 (36 for a non-digit). */
  function DigitValue(c: char): nat
  {
    if '0' <= c <= '9' then c as int - '0' as int
    else if 'a' <= c <= 'z' then c as int - 'a' as int + 10
    else if 'A' <= c <= 'Z' then c as int - 'A' as int + 10
    else 36
  }

  predicate IsDigitIn(c: char, radix: nat)
  {
    DigitValue(c) < radix
  }

  /** The length of the longest prefix of `s` made of radix digits. */
  function DigitRun(s: string, radix: nat): (n: nat)
    ensures n <= |s|
    ensures forall i :: 0 <= i < n ==> IsDigitIn(s[i], radix)
    ensures n < |s| ==> !IsDigitIn(s[n], radix)
  {
    if |s| > 0 && IsDigitIn(s[0], radix) then 1 + DigitRun(s[1..], radix) else 0
  }

  /** The value of a digit string, most significant digit first. */
  function DigitsValue(ds: string, radix: nat): nat
  {
    if |ds| == 0 then 0
    else DigitsValue(ds[..|ds| - 1], radix) * radix + DigitValue(ds[|ds| - 1])
  }

  /**
   * `parseInt(s)` without a radix argument: skip leading whitespace, take an
   * optional sign, a `0x`/`0X` prefix selects radix 16, then the longest run
   * of digits. `None` stands for `NaN` (no digit found).
   */
  function ParseInt(s: string): (r: Option<int>)
    ensures (forall i :: 0 <= i < |s| ==> !('0' <= s[i] <= '9')) ==> r.None?
  {
    NoDigitNoRun(s);
    ReadRun(NumeralBody(s), NumeralRadix(s), NumeralNegative(s))
  }

  /** The longest run of radix digits at the start of `body`, signed; `None` when there is none. */
  function ReadRun(body: string, radix: nat, negative: bool): Option<int>
  {
    var n := DigitRun(body, radix);
    if n == 0 then None
    else
      var magnitude: int := DigitsValue(body[..n], radix);
      Some(if negative then -magnitude else magnitude)
  }

  /** The text after whitespace and sign: where `parseInt` looks for a radix prefix. */
  function Unsigned(s: string): string
  {
    var t := TrimStart(s);
    if |t| > 0 && (t[0] == '-' || t[0] == '+') then t[1..] else t
  }

  /** What `parseInt` reads past the whitespace and the sign is the tail of the text. */
  lemma UnsignedSuffix(s: string)
    ensures |Unsigned(s)| <= |s| && Unsigned(s) == s[|s| - |Unsigned(s)|..]
  {
    var t := TrimStart(s);
    var k := |s| - |t|;
    assert t == s[k..];
    if |t| > 0 && (t[0] == '-' || t[0] == '+') {
      assert Unsigned(s) == t[1..];
      assert t[1..] == s[k + 1..];
    } else {
      assert Unsigned(s) == t;
    }
  }

  /** Without a decimal digit there is neither a `0x` prefix nor a first digit to read. */
  lemma NoDigitNoRun(s: string)
    ensures (forall i :: 0 <= i < |s| ==> !('0' <= s[i] <= '9')) ==> DigitRun(NumeralBody(s), NumeralRadix(s)) == 0
  {
    UnsignedSuffix(s);
    var u := Unsigned(s);
    var body := NumeralBody(s);
    if (forall i :: 0 <= i < |s| ==> !('0' <= s[i] <= '9')) && |u| > 0 {
      assert u[0] == s[|s| - |u|];
      assert body == u;
    }
  }

  predicate NumeralNegative(s: string)
  {
    var t := TrimStart(s);
    |t| > 0 && t[0] == '-'
  }

  predicate HasHexPrefix(u: string)
  {
    |u| >= 2 && u[0] == '0' && (u[1] == 'x' || u[1] == 'X')
  }

  function NumeralRadix(s: string): nat
  {
    if HasHexPrefix(Unsigned(s)) then 16 else 10
  }

  function NumeralBody(s: string): string
  {
    var u := Unsigned(s);
    if HasHexPrefix(u) then u[2..] else u
  }

  /** `parseInt(s) || 0`: both `NaN` and zero become zero. */
  function IntOrZero(o: Option<int>): (r: int)
    ensures r == 0 <==> o.None? || o == Some(0)
    ensures r != 0 ==> o == Some(r)
  {
    match o
    case None => 0
    case Some(v) => v
  }

  function DigitChar(d: nat): char
    requires d < 10
  {
    ('0' as int + d) as char
  }

  /** The decimal text of a non-negative integer, without leading zeros. */
  function NatToString(n: nat): (r: string)
    ensures |r| >= 1
    ensures forall i :: 0 <= i < |r| ==> '0' <= r[i] <= '9'
    ensures DigitsValue(r, 10) == n
  {
    if n < 10 then [DigitChar(n)]
    else
      var r := NatToString(n / 10) + [DigitChar(n % 10)];
      assert r[..|r| - 1] == NatToString(n / 10);
      r
  }

  /** `String(n)` for an integer `n`. */
  function IntToString(n: int): (r: string)
    ensures |r| >= 1 && !IsWhite(r[0]) && !IsWhite(r[|r| - 1])
    ensures forall i :: 0 <= i < |r| ==> r[i] == '-' || '0' <= r[i] <= '9'
  {
    if n < 0 then "-" + NatToString(-n) else NatToString(n)
  }

  lemma {:induction false} DigitRunOfDigits(s: string)
    requires forall i :: 0 <= i < |s| ==> '0' <= s[i] <= '9'
    ensures DigitRun(s, 10) == |s|
  {
    if |s| > 0 {
      DigitRunOfDigits(s[1..]);
    }
  }

  predicate AllDecimal(d: string)
  {
    forall i :: 0 <= i < |d| ==> '0' <= d[i] <= '9'
  }

  lemma UnsignedOfDigits(d: string)
    requires |d| >= 1 && AllDecimal(d)
    ensures Unsigned(d) == d && !NumeralNegative(d)
  {
    assert !IsWhite(d[0]);
  }

  lemma UnsignedOfNegative(d: string)
    requires |d| >= 1 && AllDecimal(d)
    ensures Unsigned("-" + d) == d && NumeralNegative("-" + d)
  {
    var s := "-" + d;
    assert s[0] == '-' && !IsWhite(s[0]);
    assert TrimStart(s) == s;
    assert s[1..] == d;
  }

  lemma ValueOfDigits(s: string, d: string)
    requires |d| >= 1 && AllDecimal(d)
    requires Unsigned(s) == d
    ensures NumeralRadix(s) == 10
    ensures DigitRun(NumeralBody(s), NumeralRadix(s)) == |d|
    ensures NumeralBody(s)[..|d|] == d
  {
    assert !HasHexPrefix(d) by {
      if |d| >= 2 {
        assert '0' <= d[1] <= '9';
      }
    }
    DigitRunOfDigits(d);
    assert d[..|d|] == d;
  }

  /** A numeral whose unsigned part is all decimal digits reads as their value, negated after a '-'. */
  lemma ParseIntOfDecimal(s: string, d: string)
    requires |d| >= 1 && AllDecimal(d)
    requires Unsigned(s) == d
    ensures var v: int := DigitsValue(d, 10);
            ParseInt(s) == Some(if NumeralNegative(s) then -v else v)
  {
    ValueOfDigits(s, d);
    ParseIntReads(s, |d|, DigitsValue(d, 10), NumeralNegative(s));
  }

  /** A run of decimal digits, with or without a leading '-', reads as its value. */
  lemma ParseIntOfDigits(d: string, negative: bool)
    requires |d| >= 1 && AllDecimal(d)
    ensures var v: int := DigitsValue(d, 10);
            ParseInt(if negative then "-" + d else d) == Some(if negative then -v else v)
  {
    if negative {
      UnsignedOfNegative(d);
      ParseIntOfDecimal("-" + d, d);
    } else {
      UnsignedOfDigits(d);
      ParseIntOfDecimal(d, d);
    }
  }

  predicate AllWhite(w: string)
  {
    forall i :: 0 <= i < |w| ==> IsWhite(w[i])
  }

  /** Leading whitespace is all that `trimStart` removes. */
  lemma {:induction false} TrimStartSkips(w: string, x: string)
    requires AllWhite(w)
    requires |x| > 0 && !IsWhite(x[0])
    ensures TrimStart(w + x) == x
  {
    if |w| == 0 {
      assert w + x == x;
    } else {
      assert (w + x)[0] == w[0];
      assert (w + x)[1..] == w[1..] + x;
      TrimStartSkips(w[1..], x);
    }
  }

  /** Past whitespace and an optional sign, `parseInt` looks at the text that starts with a digit. */
  lemma UnsignedAfterSign(w: string, sign: string, u: string)
    requires AllWhite(w)
    requires sign == "" || sign == "-" || sign == "+"
    requires |u| > 0 && '0' <= u[0] <= '9'
    ensures Unsigned(w + sign + u) == u
    ensures NumeralNegative(w + sign + u) <==> sign == "-"
  {
    var x := sign + u;
    var s := w + sign + u;
    assert s == w + x;
    assert x[0] == if sign == "" then u[0] else sign[0];
    TrimStartSkips(w, x);
    UnsignedOfTrimmed(s, x);
    if sign == "" {
      assert x == u;
    } else {
      assert x[1..] == u;
    }
  }

  /** What `parseInt` reads past the sign, given what `trimStart` left. */
  lemma UnsignedOfTrimmed(s: string, x: string)
    requires TrimStart(s) == x && |x| > 0
    ensures Unsigned(s) == if x[0] == '-' || x[0] == '+' then x[1..] else x
    ensures NumeralNegative(s) <==> x[0] == '-'
  {
  }

  /** The digit run of `d + t` is exactly `d` when `t` does not go on with a digit. */
  lemma {:induction false} DigitRunStops(d: string, t: string, radix: nat)
    requires forall i :: 0 <= i < |d| ==> IsDigitIn(d[i], radix)
    requires |t| == 0 || !IsDigitIn(t[0], radix)
    ensures DigitRun(d + t, radix) == |d|
  {
    if |d| == 0 {
      assert d + t == t;
    } else {
      assert (d + t)[0] == d[0];
      assert (d + t)[1..] == d[1..] + t;
      DigitRunStops(d[1..], t, radix);
    }
  }

  /**
   * A decimal numeral followed by any text that does not go on with a digit,
   * after whitespace and an optional sign, reads as the numeral's value:
   * `parseInt("12 ")` is 12 and `parseInt("35bpm")` is 35.
   */
  lemma ParseIntLeadingDecimal(w: string, sign: string, d: string, t: string, v: int)
    requires AllWhite(w)
    requires sign == "" || sign == "-" || sign == "+"
    requires |d| >= 1 && AllDecimal(d) && !HasHexPrefix(d + t)
    requires |t| == 0 || !('0' <= t[0] <= '9')
    requires v == DigitsValue(d, 10)
    ensures ParseInt(w + sign + d + t) == Some(if sign == "-" then -v else v)
  {
    var u := d + t;
    var s := w + sign + d + t;
    Regroup(w + sign, d, t);
    assert Unsigned(s) == u && (NumeralNegative(s) <==> sign == "-") by {
      UnsignedAfterSign(w, sign, u);
    }
    ParseIntOfDecimalRun(s, d, t, sign == "-", v);
  }

  /** Concatenation regrouped. */
  lemma Regroup(a: string, b: string, c: string)
    ensures a + b + c == a + (b + c)
  {
  }

  /** Concatenation of four regrouped. */
  lemma Regroup4(a: string, b: string, c: string, d: string)
    ensures a + b + c + d == a + (b + (c + d))
  {
  }

  /** `parseInt` in terms of the digit run it finds, that run's value and the sign. */
  lemma ParseIntReads(s: string, n: nat, v: int, negative: bool)
    requires DigitRun(NumeralBody(s), NumeralRadix(s)) == n > 0
    requires DigitsValue(NumeralBody(s)[..n], NumeralRadix(s)) == v
    requires NumeralNegative(s) == negative
    ensures ParseInt(s) == Some(if negative then -v else v)
  {
    ReadRunOf(NumeralBody(s), NumeralRadix(s), negative, n, v);
  }

  lemma ReadRunOf(body: string, radix: nat, negative: bool, n: nat, v: int)
    requires DigitRun(body, radix) == n > 0 && DigitsValue(body[..n], radix) == v
    ensures ReadRun(body, radix, negative) == Some(if negative then -v else v)
  {
  }

  /** Past whitespace and sign, decimal digits ended by a non-digit are what `parseInt` reads. */
  lemma ParseIntOfDecimalRun(s: string, ds: string, t: string, negative: bool, v: int)
    requires NumeralBody(s) == ds + t && NumeralRadix(s) == 10
    requires |ds| >= 1 && forall i :: 0 <= i < |ds| ==> IsDigitIn(ds[i], 10)
    requires |t| == 0 || !IsDigitIn(t[0], 10)
    requires NumeralNegative(s) == negative && DigitsValue(ds, 10) == v
    ensures ParseInt(s) == Some(if negative then -v else v)
  {
    assert DigitRun(NumeralBody(s), 10) == |ds| by {
      DigitRunStops(ds, t, 10);
    }
    assert DigitsValue(NumeralBody(s)[..|ds|], 10) == v by {
      assert NumeralBody(s)[..|ds|] == ds;
    }
    ParseIntReads(s, |ds|, v, negative);
  }

  /** Past whitespace and sign and `0x`, hexadecimal digits ended by a non-digit are what `parseInt` reads. */
  lemma ParseIntOfHexRun(s: string, ds: string, t: string, negative: bool, v: int)
    requires NumeralBody(s) == ds + t && NumeralRadix(s) == 16
    requires |ds| >= 1 && forall i :: 0 <= i < |ds| ==> IsDigitIn(ds[i], 16)
    requires |t| == 0 || !IsDigitIn(t[0], 16)
    requires NumeralNegative(s) == negative && DigitsValue(ds, 16) == v
    ensures ParseInt(s) == Some(if negative then -v else v)
  {
    assert DigitRun(NumeralBody(s), 16) == |ds| by {
      DigitRunStops(ds, t, 16);
    }
    assert DigitsValue(NumeralBody(s)[..|ds|], 16) == v by {
      assert NumeralBody(s)[..|ds|] == ds;
    }
    ParseIntReads(s, |ds|, v, negative);
  }

  /**
   * A `0x` or `0X` prefix switches to radix 16: hexadecimal digits followed by
   * any text that does not go on with one read as their value.
   */
  lemma ParseIntLeadingHex(w: string, sign: string, x: char, h: string, t: string, v: int)
    requires AllWhite(w)
    requires sign == "" || sign == "-" || sign == "+"
    requires x == 'x' || x == 'X'
    requires |h| >= 1 && forall i :: 0 <= i < |h| ==> IsDigitIn(h[i], 16)
    requires |t| == 0 || !IsDigitIn(t[0], 16)
    requires v == DigitsValue(h, 16)
    ensures ParseInt(w + sign + ['0', x] + h + t) == Some(if sign == "-" then -v else v)
  {
    var u := ['0', x] + (h + t);
    var s := w + sign + ['0', x] + h + t;
    Regroup4(w + sign, ['0', x], h, t);
    assert Unsigned(s) == u && (NumeralNegative(s) <==> sign == "-") by {
      UnsignedAfterSign(w, sign, u);
    }
    HexPrefixed(x, h + t);
    HexNumeral(s, h + t);
    ParseIntOfHexRun(s, h, t, sign == "-", v);
  }

  lemma HexPrefixed(x: char, rest: string)
    requires x == 'x' || x == 'X'
    ensures HasHexPrefix(['0', x] + rest) && (['0', x] + rest)[2..] == rest
  {
  }

  /** After a `0x` prefix the radix is 16 and the digits are looked for past it. */
  lemma HexNumeral(s: string, body: string)
    requires HasHexPrefix(Unsigned(s)) && Unsigned(s)[2..] == body
    ensures NumeralRadix(s) == 16 && NumeralBody(s) == body
  {
  }

  /** After whitespace and sign, no digit of the radix the text selects: what makes `parseInt` give `NaN`. */
  predicate NoNumeral(u: string)
  {
    if HasHexPrefix(u) then |u| == 2 || !IsDigitIn(u[2], 16)
    else |u| == 0 || !('0' <= u[0] <= '9')
  }

  /** `parseInt` gives `NaN` exactly when no digit follows the whitespace, the sign and any `0x`. */
  lemma ParseIntNaN(s: string)
    ensures ParseInt(s).None? <==> NoNumeral(Unsigned(s))
  {
    var u := Unsigned(s);
    if HasHexPrefix(u) {
      assert NumeralBody(s) == u[2..];
      if |u| > 2 {
        assert u[2..][0] == u[2];
      }
    }
  }

  /** The field values the CSV import and the target store meet. */
  /** Trailing text after the digits is ignored: `parseInt("12 ")` is 12. */
  lemma ParseIntTrailingSpace()
    ensures ParseInt("12 ") == Some(12)
  {
    DecimalExample("12 ", "", "", "12", " ", 12);
  }

  /** A unit after the digits is ignored: `parseInt("35bpm")` is 35. */
  lemma ParseIntTrailingUnit()
    ensures ParseInt("35bpm") == Some(35)
  {
    DecimalExample("35bpm", "", "", "35", "bpm", 35);
  }

  /** Leading white space and a sign: `parseInt(" -7")` is -7. */
  lemma ParseIntSignedAfterSpace()
    ensures ParseInt(" -7") == Some(-7)
  {
    DecimalExample(" -7", " ", "-", "7", "", 7);
  }

  /** `ParseIntLeadingDecimal` for a text already split into its parts. */
  lemma DecimalExample(s: string, w: string, sign: string, d: string, t: string, v: int)
    requires s == w + sign + d + t
    requires AllWhite(w)
    requires sign == "" || sign == "-" || sign == "+"
    requires |d| >= 1 && AllDecimal(d) && !HasHexPrefix(d + t)
    requires |t| == 0 || !('0' <= t[0] <= '9')
    requires v == DigitsValue(d, 10)
    ensures ParseInt(s) == Some(if sign == "-" then -v else v)
  {
    ParseIntLeadingDecimal(w, sign, d, t, v);
  }

  /** A letter before the first digit gives `NaN`: `parseInt("abc1")`. */
  lemma ParseIntLetterFirst()
    ensures ParseInt("abc1").None?
  {
    assert Unsigned("abc1") == "abc1" by {
      TrimStartSkips("", "abc1");
      assert "" + "abc1" == "abc1";
    }
    ParseIntNaN("abc1");
  }

  /** A signed hexadecimal numeral: `parseInt("-0x1A")` is -26. */
  lemma ParseIntSignedHex()
    ensures ParseInt("-0x1A") == Some(-26)
  {
    HexExample("-0x1A", "", "-", 'x', "1A", "", 26);
  }

  /** `ParseIntLeadingHex` for a text already split into its parts. */
  lemma HexExample(s: string, w: string, sign: string, x: char, h: string, t: string, v: int)
    requires s == w + sign + ['0', x] + h + t
    requires AllWhite(w)
    requires sign == "" || sign == "-" || sign == "+"
    requires x == 'x' || x == 'X'
    requires |h| >= 1 && forall i :: 0 <= i < |h| ==> IsDigitIn(h[i], 16)
    requires |t| == 0 || !IsDigitIn(t[0], 16)
    requires v == DigitsValue(h, 16)
    ensures ParseInt(s) == Some(if sign == "-" then -v else v)
  {
    ParseIntLeadingHex(w, sign, x, h, t, v);
  }

  /** A white-space character is no digit in any radix up to 36. */
  lemma WhiteNotDigit(c: char)
    requires IsWhite(c)
    ensures DigitValue(c) == 36
  {
  }

  /** A digit run stops where the digits do, whatever follows. */
  lemma {:induction false} DigitRunAppend(b: string, w: string, radix: nat)
    requires |w| == 0 || !IsDigitIn(w[0], radix)
    ensures DigitRun(b + w, radix) == DigitRun(b, radix)
  {
    if |b| == 0 {
      assert b + w == w;
    } else {
      assert (b + w)[0] == b[0];
      if IsDigitIn(b[0], radix) {
        assert (b + w)[1..] == b[1..] + w;
        DigitRunAppend(b[1..], w, radix);
      }
    }
  }

  lemma {:induction false} ReadRunWhiteTail(b: string, w: string, radix: nat, negative: bool)
    requires AllWhite(w) && radix <= 36
    ensures ReadRun(b + w, radix, negative) == ReadRun(b, radix, negative)
  {
    if |w| > 0 {
      WhiteNotDigit(w[0]);
    }
    DigitRunAppend(b, w, radix);
    var n := DigitRun(b, radix);
    assert (b + w)[..n] == b[..n];
  }

  lemma {:induction false} UnsignedWhiteTail(p: string, w: string)
    requires AllWhite(w) && TrimStart(p) != ""
    ensures Unsigned(p + w) == Unsigned(p) + w
    ensures NumeralNegative(p + w) == NumeralNegative(p)
  {
    var t := TrimStart(p);
    assert TrimStart(p + w) == t + w by {
      TrimStartConcat(p, w);
    }
    UnsignedOfTrimmed(p, t);
    UnsignedOfTrimmed(p + w, t + w);
    assert (t + w)[0] == t[0] && (t + w)[1..] == t[1..] + w;
  }

  /** White space after the unsigned part neither makes nor breaks a `0x` prefix. */
  lemma {:induction false} HexPrefixWhiteTail(u: string, w: string)
    requires AllWhite(w)
    ensures HasHexPrefix(u + w) == HasHexPrefix(u)
    ensures HasHexPrefix(u) ==> (u + w)[2..] == u[2..] + w
  {
    if |w| > 0 {
      WhiteNotDigit(w[0]);
    }
    if |u| >= 2 {
      assert (u + w)[0] == u[0] && (u + w)[1] == u[1];
      assert (u + w)[2..] == u[2..] + w;
    } else if |u| == 1 && |w| > 0 {
      assert (u + w)[1] == w[0];
    } else if |w| > 0 {
      assert (u + w)[0] == w[0];
    }
  }

  /** Radix and digits in terms of the unsigned part. */
  lemma NumeralOf(s: string, u: string)
    requires Unsigned(s) == u
    ensures NumeralRadix(s) == if HasHexPrefix(u) then 16 else 10
    ensures NumeralBody(s) == if HasHexPrefix(u) then u[2..] else u
  {
  }

  lemma {:induction false} NumeralWhiteTail(p: string, w: string)
    requires AllWhite(w) && TrimStart(p) != ""
    ensures NumeralRadix(p + w) == NumeralRadix(p)
    ensures NumeralBody(p + w) == NumeralBody(p) + w
    ensures NumeralNegative(p + w) == NumeralNegative(p)
  {
    UnsignedWhiteTail(p, w);
    var u := Unsigned(p);
    HexPrefixWhiteTail(u, w);
    NumeralOf(p, u);
    NumeralOf(p + w, u + w);
  }

  /** White space after a numeral changes nothing: `parseInt("12 ")` is `parseInt("12")`. */
  lemma {:induction false} ParseIntWhiteTail(p: string, w: string)
    requires AllWhite(w)
    ensures ParseInt(p + w) == ParseInt(p)
  {
    if TrimStart(p) == "" {
      assert AllWhite(p + w) by {
        forall i | 0 <= i < |p + w| ensures IsWhite((p + w)[i]) {
          if i >= |p| {
            assert (p + w)[i] == w[i - |p|];
          } else {
            assert (p + w)[i] == p[i];
          }
        }
      }
      assert TrimStart(p + w) == "";
    } else {
      NumeralWhiteTail(p, w);
      ReadRunWhiteTail(NumeralBody(p), w, NumeralRadix(p), NumeralNegative(p));
    }
  }

  /** `parseInt` ignores white space at the end of the text. */
  lemma {:induction false} ParseIntTrimEnd(s: string)
    ensures ParseInt(TrimEnd(s)) == ParseInt(s)
  {
    var t := TrimEnd(s);
    var w := s[|t|..];
    assert s == t + w;
    assert AllWhite(w) by {
      forall i | 0 <= i < |w| ensures IsWhite(w[i]) {
        assert w[i] == s[|t| + i];
      }
    }
    ParseIntWhiteTail(t, w);
  }

  /** `parseInt` reads back what `String` wrote. */
  lemma ParseIntOfIntToString(n: int)
    ensures ParseInt(IntToString(n)) == Some(n)
  {
    var d := NatToString(if n < 0 then -n else n);
    assert AllDecimal(d);
    ParseIntOfDigits(d, n < 0);
    assert IntToString(n) == if n < 0 then "-" + d else d;
  }
}
