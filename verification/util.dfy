/** Small generic helpers shared by every module of the model. */
module Util {

  /** JavaScript's `undefined`/`NaN`-or-value, as an optional value. */
  datatype Option<T> = None | Some(value: T)

  /** `Array.prototype.filter`: the elements satisfying `p`, in their original order. */
  function Filter<T(!new)>(s: seq<T>, p: T -> bool): (r: seq<T>)
    ensures |r| <= |s|
    ensures forall x :: x in r <==> x in s && p(x)
  {
    if |s| == 0 then []
    else (if p(s[0]) then [s[0]] else []) + Filter(s[1..], p)
  }

  /** Filtering distributes over concatenation, so a filter never reorders. */
  lemma {:induction false} FilterConcat<T(!new)>(a: seq<T>, b: seq<T>, p: T -> bool)
    ensures Filter(a + b, p) == Filter(a, p) + Filter(b, p)
  {
    if |a| == 0 {
      assert a + b == b;
    } else {
      assert (a + b)[1..] == a[1..] + b;
      FilterConcat(a[1..], b, p);
    }
  }

  /** Filtering with a predicate that holds everywhere returns the input. */
  lemma {:induction false} FilterAll<T(!new)>(s: seq<T>, p: T -> bool)
    requires forall x :: x in s ==> p(x)
    ensures Filter(s, p) == s
  {
    if |s| > 0 {
      assert forall x :: x in s[1..] ==> x in s;
      FilterAll(s[1..], p);
    }
  }

  /** Filtering depends only on the values of the predicate. */
  lemma {:induction false} FilterSame<T(!new)>(s: seq<T>, p: T -> bool, q: T -> bool)
    requires forall x :: x in s ==> p(x) == q(x)
    ensures Filter(s, p) == Filter(s, q)
  {
    if |s| > 0 {
      assert forall x :: x in s[1..] ==> x in s;
      FilterSame(s[1..], p, q);
    }
  }

  /** Filtering a list without repeats gives a list without repeats. */
  lemma {:induction false} FilterNoDuplicates<T(!new)>(s: seq<T>, p: T -> bool)
    requires NoDuplicates(s)
    ensures NoDuplicates(Filter(s, p))
  {
    if |s| > 0 {
      assert forall i :: 0 <= i < |s| - 1 ==> s[1..][i] == s[i + 1];
      FilterNoDuplicates(s[1..], p);
      var rest := Filter(s[1..], p);
      assert s[0] !in s[1..];
      assert s[0] !in rest;
      var r := Filter(s, p);
      if p(s[0]) {
        assert forall i :: 1 <= i < |r| ==> r[i] == rest[i - 1];
      }
    }
  }

  /** Filters by three predicates of which each element satisfies exactly one split the elements between them. */
  /** One more element in one of three parts is one more element in their sum. */
  lemma AddToPart<T>(x: T, a: multiset<T>, b: multiset<T>, c: multiset<T>, m: multiset<T>)
    requires a + b + c == m
    ensures (multiset{x} + a) + b + c == multiset{x} + m
    ensures a + (multiset{x} + b) + c == multiset{x} + m
    ensures a + b + (multiset{x} + c) == multiset{x} + m
  {
  }

  lemma {:induction false} FilterPartition3<T(!new)>(s: seq<T>, p: T -> bool, q: T -> bool, r: T -> bool)
    requires forall i :: 0 <= i < |s| ==> (p(s[i]) && !q(s[i]) && !r(s[i])) || (!p(s[i]) && q(s[i]) && !r(s[i])) || (!p(s[i]) && !q(s[i]) && r(s[i]))
    ensures multiset(Filter(s, p)) + multiset(Filter(s, q)) + multiset(Filter(s, r)) == multiset(s)
  {
    if |s| > 0 {
      var x, t := s[0], s[1..];
      assert forall i :: 0 <= i < |t| ==> t[i] == s[i + 1];
      FilterPartition3(t, p, q, r);
      var a, b, c := multiset(Filter(t, p)), multiset(Filter(t, q)), multiset(Filter(t, r));
      var m := multiset(t);
      ConsMultiset(x, t, s);
      AddToPart(x, a, b, c, m);
      var fp, fq, fr := Filter(s, p), Filter(s, q), Filter(s, r);
      if p(x) {
        assert fp == [x] + Filter(t, p) && fq == Filter(t, q) && fr == Filter(t, r);
        ConsMultiset(x, Filter(t, p), fp);
      } else if q(x) {
        assert fp == Filter(t, p) && fq == [x] + Filter(t, q) && fr == Filter(t, r);
        ConsMultiset(x, Filter(t, q), fq);
      } else {
        assert fp == Filter(t, p) && fq == Filter(t, q) && fr == [x] + Filter(t, r);
        ConsMultiset(x, Filter(t, r), fr);
      }
    }
  }

  lemma ConsMultiset<T>(x: T, t: seq<T>, s: seq<T>)
    requires s == [x] + t
    ensures multiset(s) == multiset{x} + multiset(t)
  {
  }

  /** The number of elements of `s` satisfying `p`. */
  function CountIf<T>(s: seq<T>, p: T -> bool): nat
  {
    if |s| == 0 then 0 else (if p(s[0]) then 1 else 0) + CountIf(s[1..], p)
  }

  lemma {:induction false} FilterLength<T(!new)>(s: seq<T>, p: T -> bool)
    ensures |Filter(s, p)| == CountIf(s, p)
  {
    if |s| > 0 {
      FilterLength(s[1..], p);
    }
  }

  /** A loop that pushes `f(x).value` for every `x` on which `f` succeeds, in order. */
  function FilterMap<A, B>(s: seq<A>, f: A -> Option<B>): seq<B>
  {
    if |s| == 0 then []
    else
      var last := f(s[|s| - 1]);
      FilterMap(s[..|s| - 1], f) + (if last.Some? then [last.value] else [])
  }

  /** Elements are handled independently, so the results of two blocks concatenate. */
  lemma {:induction false} FilterMapConcat<A, B>(a: seq<A>, b: seq<A>, f: A -> Option<B>)
    ensures FilterMap(a + b, f) == FilterMap(a, f) + FilterMap(b, f)
    decreases |b|
  {
    if |b| > 0 {
      var ab := a + b;
      assert ab[..|ab| - 1] == a + b[..|b| - 1];
      assert ab[|ab| - 1] == b[|b| - 1];
      FilterMapConcat(a, b[..|b| - 1], f);
    } else {
      assert a + b == a;
    }
  }

  /** One result per element on which `f` succeeds. */
  lemma {:induction false} FilterMapCount<A, B>(s: seq<A>, f: A -> Option<B>, p: A -> bool)
    requires forall x :: p(x) == f(x).Some?
    ensures |FilterMap(s, f)| == CountIf(s, p)
  {
    if |s| > 0 {
      FilterMapCons(s[0], s[1..], f);
      assert [s[0]] + s[1..] == s;
      FilterMapCount(s[1..], f, p);
    }
  }

  /** The first element's result, if any, comes first. */
  lemma FilterMapCons<A, B>(x: A, s: seq<A>, f: A -> Option<B>)
    ensures FilterMap([x] + s, f) == (if f(x).Some? then [f(x).value] else []) + FilterMap(s, f)
  {
    FilterMapConcat([x], s, f);
    assert [x][..0] == [];
  }

  /** When `f` fails everywhere, nothing is produced. */
  lemma {:induction false} FilterMapNone<A, B>(s: seq<A>, f: A -> Option<B>)
    requires forall i :: 0 <= i < |s| ==> f(s[i]).None?
    ensures FilterMap(s, f) == []
  {
    if |s| > 0 {
      FilterMapNone(s[..|s| - 1], f);
    }
  }

  /** When `f` succeeds everywhere, there is one result per element, in order. */
  lemma {:induction false} FilterMapAll<A, B>(s: seq<A>, f: A -> Option<B>)
    requires forall i :: 0 <= i < |s| ==> f(s[i]).Some?
    ensures |FilterMap(s, f)| == |s|
    ensures forall i :: 0 <= i < |s| ==> FilterMap(s, f)[i] == f(s[i]).value
  {
    if |s| > 0 {
      var init := s[..|s| - 1];
      assert forall i :: 0 <= i < |init| ==> init[i] == s[i];
      FilterMapAll(init, f);
    }
  }

  /** No element occurs twice. */
  predicate NoDuplicates<T(==)>(s: seq<T>)
  {
    forall i, j :: 0 <= i < j < |s| ==> s[i] != s[j]
  }

  /** Adding to a JavaScript `Set` kept as its iteration order: a new element goes last, a known one changes nothing. */
  function SetAdd<T(==,!new)>(s: seq<T>, x: T): (r: seq<T>)
    ensures forall y :: y in r <==> y in s || y == x
    ensures NoDuplicates(s) ==> NoDuplicates(r)
    ensures x in s ==> r == s
    ensures x !in s ==> |r| == |s| + 1 && r[..|s|] == s && r[|s|] == x
  {
    if x in s then s else s + [x]
  }

  /** `Math.max(a, b)` and `Math.min(a, b)` on integers. */
  function Max(a: int, b: int): int { if a >= b then a else b }
  function Min(a: int, b: int): int { if a <= b then a else b }

  lemma {:induction false} MulAtLeast(k: int, n: int)
    requires k >= 1 && n > 0
    ensures k * n >= n
    decreases k
  {
    if k > 1 {
      MulAtLeast(k - 1, n);
      assert k * n == (k - 1) * n + n;
    }
  }

  /** Euclidean remainder is determined by any quotient/remainder split. */
  lemma ModUnique(x: int, n: int, q: int, r: int)
    requires n > 0 && 0 <= r < n && x == q * n + r
    ensures x % n == r
  {
    var q' := x / n;
    var r' := x % n;
    assert x == q' * n + r';
    assert (q - q') * n == r' - r;
    if q > q' {
      MulAtLeast(q - q', n);
    } else if q < q' {
      assert (q' - q) * n == r - r';
      MulAtLeast(q' - q, n);
    }
  }

  /** Reducing modulo `n` before adding does not change the residue. */
  lemma ModShift(a: int, k: int, n: int)
    requires n > 0
    ensures (a % n + k) % n == (a + k) % n
  {
    var q1 := (a % n + k) / n;
    var r1 := (a % n + k) % n;
    assert a % n + k == q1 * n + r1;
    assert a == (a / n) * n + a % n;
    assert a + k == (q1 + a / n) * n + r1;
    ModUnique(a + k, n, q1 + a / n, r1);
  }

  /** `x mod n` for a natural `x`, by repeated subtraction (linear, so cheap to reason about). */
  function Wrap(x: nat, n: nat): (r: nat)
    requires n > 0
    ensures r < n
  {
    if x < n then x else Wrap(x - n, n)
  }

  lemma {:induction false} WrapIsMod(x: nat, n: nat)
    requires n > 0
    ensures Wrap(x, n) == x % n
  {
    if x >= n {
      WrapIsMod(x - n, n);
      ModUnique(x, n, (x - n) / n + 1, (x - n) % n);
    } else {
      ModUnique(x, n, 0, x);
    }
  }

  /** Counting on by one wraps to 0 exactly when it reaches `n`. */
  lemma {:induction false} WrapStep(x: nat, n: nat)
    requires n > 0
    ensures Wrap(x + 1, n) == (if Wrap(x, n) + 1 >= n then 0 else Wrap(x, n) + 1)
  {
    if x + 1 >= n && x >= n {
      WrapStep(x - n, n);
    }
  }

  lemma {:induction false} WrapSmall(x: nat, n: nat)
    requires n > 0 && x < n
    ensures Wrap(x, n) == x
  {
  }

  /** Reducing before adding does not change the residue. */
  lemma {:induction false} WrapShift(a: nat, k: nat, n: nat)
    requires n > 0
    ensures Wrap(Wrap(a, n) + k, n) == Wrap(a + k, n)
    decreases k
  {
    if k > 0 {
      WrapShift(a, k - 1, n);
      WrapStep(Wrap(a, n) + k - 1, n);
      WrapStep(a + k - 1, n);
    }
  }
}
