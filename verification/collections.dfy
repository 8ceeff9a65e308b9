/** Generic sequence helpers that mirror the JavaScript array operations the
    feed code relies on: `find`, `filter`, `slice`, a stable descending `sort`
    and `[...new Set(xs)]`. */
module Collections {

  datatype Option<+T> = None | Some(value: T) {
    /** `x ?? fallback` */
    function GetOr(fallback: T): T {
      match this
      case Some(v) => v
      case None => fallback
    }
  }

  /** `n || fallback` on a JavaScript number: 0 is falsy, every other integer is kept. */
  function OrElse(n: int, fallback: int): int {
    if n == 0 then fallback else n
  }

  /** `[b]`: 1 when the flag is set, 0 otherwise. */
  function Indicator(b: bool): int {
    if b then 1 else 0
  }

  function Min(a: int, b: int): int {
    if a <= b then a else b
  }

  /** Index of the first element satisfying `p`, as `findIndex` computes it. */
  function FindIndex<T>(s: seq<T>, p: T -> bool): (r: Option<nat>)
    ensures r.Some? ==> r.value < |s| && p(s[r.value])
    ensures r.Some? ==> forall j :: 0 <= j < r.value ==> !p(s[j])
    ensures r.None? <==> forall j :: 0 <= j < |s| ==> !p(s[j])
  {
    if |s| == 0 then None
    else if p(s[0]) then Some(0)
    else
      match FindIndex(s[1..], p)
      case None => None
      case Some(k) => Some(k + 1)
  }

  /** `Array.prototype.find`: the first element satisfying `p`, if any. */
  function Find<T>(s: seq<T>, p: T -> bool): (r: Option<T>)
    ensures r.None? <==> forall j :: 0 <= j < |s| ==> !p(s[j])
    ensures r.Some? ==> exists k :: 0 <= k < |s| && s[k] == r.value && p(s[k]) && forall j :: 0 <= j < k ==> !p(s[j])
  {
    match FindIndex(s, p)
    case None => None
    case Some(k) => Some(s[k])
  }

  /** `Array.prototype.filter`. */
  function Filter<T(==,!new)>(s: seq<T>, p: T -> bool): (r: seq<T>)
    ensures |r| <= |s|
    ensures forall i :: 0 <= i < |r| ==> p(r[i])
    ensures forall x :: x in r <==> x in s && p(x)
    ensures forall x :: multiset(r)[x] == if p(x) then multiset(s)[x] else 0
  {
    if |s| == 0 then []
    else
      assert s == [s[0]] + s[1..];
      (if p(s[0]) then [s[0]] else []) + Filter(s[1..], p)
  }

  /** Filtering distributes over concatenation, so the kept elements stay in
      their original relative order. */
  lemma {:induction false} FilterConcat<T(!new)>(a: seq<T>, b: seq<T>, p: T -> bool)
    ensures Filter(a + b, p) == Filter(a, p) + Filter(b, p)
  {
    if |a| == 0 {
      assert a + b == b;
    } else {
      var ab := a + b;
      var head := if p(a[0]) then [a[0]] else [];
      assert ab[0] == a[0] && ab[1..] == a[1..] + b;
      assert Filter(ab, p) == head + Filter(ab[1..], p);
      FilterConcat(a[1..], b, p);
      assert Filter(a, p) == head + Filter(a[1..], p);
      ConcatAssoc(head, Filter(a[1..], p), Filter(b, p));
    }
  }

  /** Filtering keeps the order of first appearance of the elements it keeps. */
  lemma {:induction false} FilterKeepsFirstOrder<T(!new)>(s: seq<T>, p: T -> bool, x: T, y: T)
    requires x in s && y in s && p(x) && p(y)
    ensures x in Filter(s, p) && y in Filter(s, p)
    ensures FirstIndexOf(Filter(s, p), x) < FirstIndexOf(Filter(s, p), y) <==> FirstIndexOf(s, x) < FirstIndexOf(s, y)
  {
    var f := Filter(s, p);
    var rest := Filter(s[1..], p);
    assert f == (if p(s[0]) then [s[0]] else []) + rest;
    if s[0] == x {
      assert x in f && f[0] == x;
    } else if s[0] == y {
      assert y in f && f[0] == y;
    } else {
      assert x in s[1..] && y in s[1..];
      FilterKeepsFirstOrder(s[1..], p, x, y);
      if p(s[0]) {
        assert f[1..] == rest;
        assert FirstIndexOf(f, x) == 1 + FirstIndexOf(rest, x);
        assert FirstIndexOf(f, y) == 1 + FirstIndexOf(rest, y);
      } else {
        assert f == rest;
      }
    }
  }

  lemma ConcatAssoc<T>(x: seq<T>, y: seq<T>, z: seq<T>)
    ensures x + (y + z) == (x + y) + z
  {
  }

  /** Index normalisation of `Array.prototype.slice` (ECMAScript section
      23.1.3.28): a negative index counts from the end, and the result is
      clamped to `[0, len]`. */
  function SliceIndex(i: int, len: nat): (r: nat)
    ensures r <= len
  {
    if i < 0 then (if len + i < 0 then 0 else len + i)
    else if i < len then i
    else len
  }

  /** `s.slice(start, end)`. */
  function Slice<T>(s: seq<T>, start: int, end: int): (r: seq<T>)
    ensures |r| <= |s|
    ensures 0 <= start && 0 <= end ==> r == if Min(start, |s|) <= Min(end, |s|) then s[Min(start, |s|)..Min(end, |s|)] else []
  {
    var a := SliceIndex(start, |s|);
    var b := SliceIndex(end, |s|);
    if a < b then s[a..b] else []
  }

  predicate Distinct<T(==)>(s: seq<T>) {
    forall i, j :: 0 <= i < j < |s| ==> s[i] != s[j]
  }

  predicate NonIncreasing<T>(s: seq<T>, key: T -> int) {
    forall i, j :: 0 <= i < j < |s| ==> key(s[i]) >= key(s[j])
  }

  /** Places `x` after every element with a strictly larger key and before the
      rest, so equal keys keep their relative order. */
  function Insert<T(==,!new)>(x: T, s: seq<T>, key: T -> int): (r: seq<T>)
    ensures |r| == |s| + 1
    ensures multiset(r) == multiset(s) + multiset{x}
    ensures r[0] == x || (|s| > 0 && r[0] == s[0])
  {
    if |s| == 0 || key(s[0]) <= key(x) then [x] + s
    else
      assert s == [s[0]] + s[1..];
      [s[0]] + Insert(x, s[1..], key)
  }

  /** Inserting into a sorted list keeps it sorted. */
  lemma {:induction false} InsertSorted<T(!new)>(x: T, s: seq<T>, key: T -> int)
    requires NonIncreasing(s, key)
    ensures NonIncreasing(Insert(x, s, key), key)
  {
    var r := Insert(x, s, key);
    if |s| == 0 || key(s[0]) <= key(x) {
      assert forall j :: 1 <= j < |r| ==> r[j] == s[j - 1];
    } else {
      var rest := Insert(x, s[1..], key);
      assert NonIncreasing(s[1..], key) by {
        forall i, j | 0 <= i < j < |s| - 1
          ensures key(s[1..][i]) >= key(s[1..][j])
        {
          assert s[1..][i] == s[i + 1] && s[1..][j] == s[j + 1];
        }
      }
      InsertSorted(x, s[1..], key);
      assert key(rest[0]) <= key(s[0]) by {
        if rest[0] != x {
          assert rest[0] == s[1];
        }
      }
      assert r == [s[0]] + rest;
      assert forall j :: 1 <= j < |r| ==> r[j] == rest[j - 1];
    }
  }

  lemma {:induction false} InsertKeepsDistinct<T(!new)>(x: T, s: seq<T>, key: T -> int)
    requires Distinct(s) && x !in s
    ensures Distinct(Insert(x, s, key))
  {
    var r := Insert(x, s, key);
    if |s| == 0 || key(s[0]) <= key(x) {
      assert forall j :: 1 <= j < |r| ==> r[j] == s[j - 1];
    } else {
      var rest := Insert(x, s[1..], key);
      HeadNotInTail(s);
      InsertKeepsDistinct(x, s[1..], key);
      assert multiset(s[1..])[s[0]] == 0;
      assert multiset(rest)[s[0]] == 0;
      assert s[0] !in rest;
      assert r == [s[0]] + rest;
      assert forall j :: 1 <= j < |r| ==> r[j] == rest[j - 1];
    }
  }

  /** A stable sort by descending key: the model of
      `xs.sort((a, b) => key(b) - key(a))`. */
  function SortDesc<T(==,!new)>(s: seq<T>, key: T -> int): (r: seq<T>)
    ensures |r| == |s|
    ensures NonIncreasing(r, key)
    ensures multiset(r) == multiset(s)
    ensures forall y :: y in r <==> y in s
    ensures Distinct(s) ==> Distinct(r)
  {
    if |s| == 0 then []
    else
      assert s == [s[0]] + s[1..];
      var sorted := SortDesc(s[1..], key);
      InsertSorted(s[0], sorted, key);
      var r := Insert(s[0], sorted, key);
      SameElements(r, s);
      if Distinct(s) then
        HeadNotInTail(s);
        InsertKeepsDistinct(s[0], sorted, key);
        r
      else
        r
  }

  /** Equal multisets have the same members. */
  lemma SameElements<T>(r: seq<T>, s: seq<T>)
    requires multiset(r) == multiset(s)
    ensures forall y :: y in r <==> y in s
  {
    forall y
      ensures y in r <==> y in s
    {
      assert y in r <==> y in multiset(r);
      assert y in s <==> y in multiset(s);
    }
  }

  /** The tail of a list without repeats has none either, and lacks the head. */
  lemma HeadNotInTail<T>(s: seq<T>)
    requires |s| > 0 && Distinct(s)
    ensures Distinct(s[1..]) && s[0] !in s[1..]
  {
    forall i, j | 0 <= i < j < |s| - 1
      ensures s[1..][i] != s[1..][j]
    {
      assert s[1..][i] == s[i + 1] && s[1..][j] == s[j + 1];
    }
    forall j | 1 <= j < |s|
      ensures s[j] != s[0]
    {
    }
  }

  /** `s.slice(0, limit)` of a list sorted by descending key is a prefix of it,
      still sorted, and an element left out has a key no larger than that of
      any element kept. */
  lemma TopPrefix<T(!new)>(s: seq<T>, key: T -> int, limit: int)
    requires NonIncreasing(s, key)
    ensures var r := Slice(s, 0, limit);
      && r == s[..|r|]
      && NonIncreasing(r, key)
      && (limit >= 0 ==> |r| == Min(limit, |s|))
      && (limit >= 0 ==> forall k :: |r| <= k < |s| ==> |r| == limit && forall i :: 0 <= i < |r| ==> key(r[i]) >= key(s[k]))
  {
    var r := Slice(s, 0, limit);
    assert r == s[..SliceIndex(limit, |s|)];
    assert forall i :: 0 <= i < |r| ==> r[i] == s[i];
  }

  /** A prefix takes each element at most as often as the whole list has it. */
  lemma PrefixMultiset<T>(s: seq<T>, k: nat)
    requires k <= |s|
    ensures multiset(s[..k]) <= multiset(s)
  {
    assert s == s[..k] + s[k..];
  }

  /** `[...new Set(s)]`: the first occurrence of each element, in order. */
  function Dedupe<T(==,!new)>(s: seq<T>): (r: seq<T>)
    ensures Distinct(r)
    ensures forall x :: x in r <==> x in s
    ensures |r| <= |s|
  {
    if |s| == 0 then []
    else
      var d := Dedupe(s[..|s| - 1]);
      assert s == s[..|s| - 1] + [s[|s| - 1]];
      if s[|s| - 1] in d then d else d + [s[|s| - 1]]
  }

  /** Position of the first occurrence of `x` in `s`. */
  function FirstIndexOf<T(==)>(s: seq<T>, x: T): (k: nat)
    requires x in s
    ensures k < |s| && s[k] == x
    ensures forall j :: 0 <= j < k ==> s[j] != x
  {
    if s[0] == x then 0 else 1 + FirstIndexOf(s[1..], x)
  }

  lemma FirstIndexOfPrefix<T>(s: seq<T>, n: nat, x: T)
    requires n <= |s| && x in s[..n]
    ensures FirstIndexOf(s, x) == FirstIndexOf(s[..n], x)
  {
    var k := FirstIndexOf(s[..n], x);
    var k' := FirstIndexOf(s, x);
    assert forall j :: 0 <= j < n ==> s[..n][j] == s[j];
  }

  /** `Dedupe` lists elements in the order of their first appearance in `s`. */
  lemma {:induction false} DedupeKeepsFirstAppearanceOrder<T(!new)>(s: seq<T>)
    ensures forall i, j :: 0 <= i < j < |Dedupe(s)| ==> FirstIndexOf(s, Dedupe(s)[i]) < FirstIndexOf(s, Dedupe(s)[j])
  {
    if |s| > 0 {
      var n := |s| - 1;
      var pre := s[..n];
      var d := Dedupe(pre);
      DedupeKeepsFirstAppearanceOrder(pre);
      forall x | x in d
        ensures FirstIndexOf(s, x) == FirstIndexOf(pre, x) && FirstIndexOf(s, x) < n
      {
        FirstIndexOfPrefix(s, n, x);
      }
      if s[n] !in d {
        assert s[n] !in pre;
        assert forall j :: 0 <= j < n ==> pre[j] == s[j];
        assert FirstIndexOf(s, s[n]) == n;
        var r := d + [s[n]];
        assert Dedupe(s) == r;
        assert forall i :: 0 <= i < |d| ==> r[i] == d[i] && FirstIndexOf(s, r[i]) < n;
      } else {
        assert Dedupe(s) == d;
      }
    }
  }
}
