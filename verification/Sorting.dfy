/** A stable sort, and the order of strings. */
module Sorting {
  function InsertBy<T>(x: T, s: seq<T>, le: (T, T) -> bool): seq<T> {
    if s == [] || le(x, s[0]) then [x] + s else [s[0]] + InsertBy(x, s[1..], le)
  }

  function SortBy<T>(s: seq<T>, le: (T, T) -> bool): seq<T> {
    if s == [] then [] else InsertBy(s[0], SortBy(s[1..], le), le)
  }

  ghost predicate Sorted<T>(s: seq<T>, le: (T, T) -> bool) {
    forall i, j :: 0 <= i < j < |s| ==> le(s[i], s[j])
  }

  /** `le` compares any two elements of `s`, and transitively. */
  ghost predicate Ordering<T>(s: seq<T>, le: (T, T) -> bool) {
    && (forall x, y :: x in s && y in s ==> le(x, y) || le(y, x))
    && (forall x, y, z :: x in s && y in s && z in s && le(x, y) && le(y, z) ==> le(x, z))
  }

  lemma {:induction false} InsertKeeps<T>(x: T, s: seq<T>, le: (T, T) -> bool)
    ensures multiset(InsertBy(x, s, le)) == multiset{x} + multiset(s)
  {
    if s != [] && !le(x, s[0]) {
      InsertKeeps(x, s[1..], le);
      assert s == [s[0]] + s[1..];
    }
  }

  /** Sorting keeps every element as often as it was there. */
  lemma {:induction false} SortKeeps<T>(s: seq<T>, le: (T, T) -> bool)
    ensures multiset(SortBy(s, le)) == multiset(s) && |SortBy(s, le)| == |s|
    ensures forall x :: x in SortBy(s, le) <==> x in s
  {
    if s != [] {
      SortKeeps(s[1..], le);
      InsertKeeps(s[0], SortBy(s[1..], le), le);
      assert s == [s[0]] + s[1..];
    }
    assert |multiset(SortBy(s, le))| == |multiset(s)|;
    assert forall x :: x in SortBy(s, le) <==> x in multiset(SortBy(s, le));
  }

  ghost predicate Distinct<T>(s: seq<T>) {
    forall i, j :: 0 <= i < j < |s| ==> s[i] != s[j]
  }

  lemma {:induction false} InsertDistinct<T>(x: T, s: seq<T>, le: (T, T) -> bool)
    requires Distinct(s) && x !in s
    ensures Distinct(InsertBy(x, s, le))
  {
    if s != [] && !le(x, s[0]) {
      var rest := InsertBy(x, s[1..], le);
      InsertDistinct(x, s[1..], le);
      InsertKeeps(x, s[1..], le);
      forall i | 0 <= i < |rest| ensures rest[i] != s[0] {
        assert rest[i] in multiset(rest);
        assert rest[i] == x || rest[i] in multiset(s[1..]);
        assert s[0] !in s[1..];
      }
    }
  }

  lemma {:induction false} SortDistinct<T>(s: seq<T>, le: (T, T) -> bool)
    requires Distinct(s)
    ensures Distinct(SortBy(s, le))
  {
    if s != [] {
      var rest := SortBy(s[1..], le);
      SortDistinct(s[1..], le);
      SortKeeps(s[1..], le);
      assert s[0] !in s[1..];
      assert s[0] !in multiset(s[1..]) && s[0] !in multiset(rest);
      InsertDistinct(s[0], rest, le);
    }
  }

  lemma HeadFirst<T>(x: T, s: seq<T>, le: (T, T) -> bool)
    requires Ordering([x] + s, le) && Sorted(s, le) && (s != [] ==> le(x, s[0]))
    ensures Sorted([x] + s, le)
  {
    var all := [x] + s;
    forall i, j | 0 <= i < j < |all| ensures le(all[i], all[j]) {
      if i == 0 && j > 1 {
        assert le(s[0], s[j - 1]);
        assert s[0] in all && s[j - 1] in all && x in all;
      }
    }
  }

  lemma OrderingWithin<T>(s: seq<T>, t: seq<T>, le: (T, T) -> bool)
    requires Ordering(s, le) && forall x :: x in t ==> x in s
    ensures Ordering(t, le)
  {
  }

  lemma {:induction false} InsertSorts<T>(x: T, s: seq<T>, le: (T, T) -> bool)
    requires Ordering([x] + s, le) && Sorted(s, le)
    ensures Sorted(InsertBy(x, s, le), le)
    ensures InsertBy(x, s, le)[0] == if s == [] || le(x, s[0]) then x else s[0]
  {
    if s == [] || le(x, s[0]) {
      HeadFirst(x, s, le);
    } else {
      var rest := InsertBy(x, s[1..], le);
      InsertKeeps(x, s[1..], le);
      assert forall y :: y in rest ==> y in multiset(rest);
      OrderingWithin([x] + s, [x] + s[1..], le);
      InsertSorts(x, s[1..], le);
      assert x in [x] + s && s[0] in [x] + s;
      OrderingWithin([x] + s, [s[0]] + rest, le);
      HeadFirst(s[0], rest, le);
    }
  }

  /** Sorting sorts. */
  lemma {:induction false} SortSorts<T>(s: seq<T>, le: (T, T) -> bool)
    requires Ordering(s, le)
    ensures Sorted(SortBy(s, le), le)
  {
    if s != [] {
      OrderingWithin(s, s[1..], le);
      SortSorts(s[1..], le);
      SortKeeps(s[1..], le);
      var rest := SortBy(s[1..], le);
      forall x | x in [s[0]] + rest ensures x in s {
        assert x == s[0] || x in multiset(rest);
        assert x in multiset(rest) ==> x in multiset(s[1..]);
      }
      OrderingWithin(s, [s[0]] + rest, le);
      InsertSorts(s[0], rest, le);
    }
  }

  /** `le`, and `tie` among those it does not tell apart. */
  ghost predicate Broken<T>(s: seq<T>, le: (T, T) -> bool, tie: (T, T) -> bool) {
    forall i, j :: 0 <= i < j < |s| && le(s[j], s[i]) ==> tie(s[i], s[j])
  }

  lemma {:induction false} InsertStable<T>(x: T, s: seq<T>, le: (T, T) -> bool, tie: (T, T) -> bool)
    requires Broken(s, le, tie) && forall y :: y in s ==> tie(x, y)
    ensures Broken(InsertBy(x, s, le), le, tie)
  {
    if s != [] && !le(x, s[0]) {
      var rest := InsertBy(x, s[1..], le);
      InsertStable(x, s[1..], le, tie);
      InsertKeeps(x, s[1..], le);
      forall j | 0 <= j < |rest| && le(rest[j], s[0]) ensures tie(s[0], rest[j]) {
        assert rest[j] in multiset(rest);
        assert rest[j] == x || rest[j] in multiset(s[1..]);
        if rest[j] != x {
          var k :| 0 <= k < |s[1..]| && s[1..][k] == rest[j];
          assert s[k + 1] == rest[j];
        }
      }
    }
  }

  /** The sort is stable: elements it does not tell apart stay in their order. */
  lemma {:induction false} SortStable<T>(s: seq<T>, le: (T, T) -> bool, tie: (T, T) -> bool)
    requires Sorted(s, tie)
    ensures Broken(SortBy(s, le), le, tie)
  {
    if s != [] {
      var rest := SortBy(s[1..], le);
      SortStable(s[1..], le, tie);
      SortKeeps(s[1..], le);
      forall y | y in rest ensures tie(s[0], y) {
        assert y in multiset(rest) && y in multiset(s[1..]);
        var k :| 0 <= k < |s[1..]| && s[1..][k] == y;
        assert s[k + 1] == y;
      }
      InsertStable(s[0], rest, le, tie);
    }
  }

  /** Dictionary order. */
  predicate Precedes(a: string, b: string) {
    a == "" || (b != "" && (a[0] < b[0] || (a[0] == b[0] && Precedes(a[1..], b[1..]))))
  }

  ghost predicate DiffersAt(a: string, b: string, i: nat) {
    i < |a| && i < |b| && a[i] != b[i] && forall j :: 0 <= j < i ==> a[j] == b[j]
  }

  /** Smaller where they first differ. */
  ghost predicate SmallerThere(a: string, b: string) {
    exists i: nat :: DiffersAt(a, b, i) && a[i] < b[i]
  }

  /** Dictionary order: the beginning of the other, or smaller where they first differ. */
  lemma {:induction false} PrecedesIsDictionary(a: string, b: string)
    ensures Precedes(a, b) <==> a <= b || SmallerThere(a, b)
  {
    if a != "" && b != "" {
      if a[0] == b[0] {
        PrecedesIsDictionary(a[1..], b[1..]);
        DiffersInTail(a, b);
        assert a <= b <==> a[1..] <= b[1..];
      } else {
        assert DiffersAt(a, b, 0);
      }
    }
  }

  lemma DiffersInTail(a: string, b: string)
    requires a != "" && b != "" && a[0] == b[0]
    ensures SmallerThere(a, b) <==> SmallerThere(a[1..], b[1..])
  {
    if i: nat :| DiffersAt(a[1..], b[1..], i) && a[1..][i] < b[1..][i] {
      forall j | 0 <= j < i + 1 ensures a[j] == b[j] {
        assert j > 0 ==> a[1..][j - 1] == b[1..][j - 1];
      }
      assert DiffersAt(a, b, i + 1);
    }
    if i: nat :| DiffersAt(a, b, i) && a[i] < b[i] {
      assert DiffersAt(a[1..], b[1..], i - 1);
    }
  }

  lemma {:induction false} PrecedesTotal(a: string, b: string)
    ensures Precedes(a, b) || Precedes(b, a)
  {
    if a != "" && b != "" && a[0] == b[0] {
      PrecedesTotal(a[1..], b[1..]);
    }
  }

  lemma {:induction false} PrecedesTransitive(a: string, b: string, c: string)
    requires Precedes(a, b) && Precedes(b, c)
    ensures Precedes(a, c)
  {
    if a != "" && a[0] == b[0] && b[0] == c[0] {
      PrecedesTransitive(a[1..], b[1..], c[1..]);
    }
  }

  lemma {:induction false} PrecedesAntisymmetric(a: string, b: string)
    requires Precedes(a, b) && Precedes(b, a)
    ensures a == b
  {
    if a != "" && b != "" {
      PrecedesAntisymmetric(a[1..], b[1..]);
      assert a == [a[0]] + a[1..] && b == [b[0]] + b[1..];
    }
  }
}
