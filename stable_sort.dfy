/** `Array.prototype.sort` with a comparator, which section 23.1.3.30 of ECMA-262
    requires to be stable: a comparator `cmp` lets `a` precede `b` when
    `cmp(a, b) <= 0`, and elements it ties keep their input order. The model is a
    stable insertion sort; any stable sort returns the same sequence for a
    consistent comparator. */
module StableSort {

  /** What ECMA-262 calls a consistent comparator, as far as ordering goes:
      any two elements can be ordered and "may precede" is transitive. */
  ghost predicate ConsistentComparator<T(!new)>(cmp: (T, T) -> real) {
    && (forall a, b :: cmp(a, b) <= 0.0 || cmp(b, a) <= 0.0)
    && (forall a, b, c :: cmp(a, b) <= 0.0 && cmp(b, c) <= 0.0 ==> cmp(a, c) <= 0.0)
  }

  predicate Sorted<T>(s: seq<T>, cmp: (T, T) -> real) {
    forall i, j :: 0 <= i < j < |s| ==> cmp(s[i], s[j]) <= 0.0
  }

  /** `cmp` orders `a` and `b` either way round. */
  predicate Tied<T>(a: T, b: T, cmp: (T, T) -> real) {
    cmp(a, b) <= 0.0 && cmp(b, a) <= 0.0
  }

  /** The elements of `s` tied with `e`, in their order in `s`. */
  function Ties<T>(s: seq<T>, e: T, cmp: (T, T) -> real): (r: seq<T>)
    ensures |r| <= |s|
    ensures forall x :: x in r ==> x in s && Tied(x, e, cmp)
  {
    if s == [] then []
    else (if Tied(s[0], e, cmp) then [s[0]] else []) + Ties(s[1..], e, cmp)
  }

  /** Places `x` in front of the first element of `t` it may precede. */
  function Insert<T>(x: T, t: seq<T>, cmp: (T, T) -> real): (r: seq<T>)
    ensures multiset(r) == multiset(t) + multiset{x}
  {
    if t == [] || cmp(x, t[0]) <= 0.0 then [x] + t
    else
      assert t == [t[0]] + t[1..];
      [t[0]] + Insert(x, t[1..], cmp)
  }

  /** `[...s].sort(cmp)`: a permutation of `s`; the input is not touched. */
  function SortBy<T>(s: seq<T>, cmp: (T, T) -> real): (r: seq<T>)
    ensures multiset(r) == multiset(s)
  {
    if s == [] then []
    else
      assert s == [s[0]] + s[1..];
      Insert(s[0], SortBy(s[1..], cmp), cmp)
  }

  /** Everything `Insert` returns is `x` or came from `t`. */
  lemma InsertFrom<T>(x: T, t: seq<T>, cmp: (T, T) -> real, y: T)
    requires y in Insert(x, t, cmp)
    ensures y == x || y in t
  {
    assert y in multiset(Insert(x, t, cmp));
  }

  lemma {:induction false} InsertSorted<T(!new)>(x: T, t: seq<T>, cmp: (T, T) -> real)
    requires ConsistentComparator(cmp) && Sorted(t, cmp)
    ensures Sorted(Insert(x, t, cmp), cmp)
  {
    var r := Insert(x, t, cmp);
    if t == [] || cmp(x, t[0]) <= 0.0 {
      forall j | 0 < j < |r| ensures cmp(x, r[j]) <= 0.0 {
        assert r[j] == t[j - 1];
        if j > 1 { assert cmp(t[0], t[j - 1]) <= 0.0; }
      }
    } else {
      var tail := Insert(x, t[1..], cmp);
      InsertSorted(x, t[1..], cmp);
      assert r == [t[0]] + tail;
      forall j | 0 < j < |r| ensures cmp(t[0], r[j]) <= 0.0 {
        assert r[j] == tail[j - 1];
        InsertFrom(x, t[1..], cmp, tail[j - 1]);
        if tail[j - 1] != x {
          var k :| 0 <= k < |t[1..]| && t[1..][k] == tail[j - 1];
          assert t[k + 1] == r[j];
        }
      }
    }
  }

  /** The result is in the comparator's order. */
  lemma {:induction false} SortSorted<T(!new)>(s: seq<T>, cmp: (T, T) -> real)
    requires ConsistentComparator(cmp)
    ensures Sorted(SortBy(s, cmp), cmp)
  {
    if s != [] {
      SortSorted(s[1..], cmp);
      InsertSorted(s[0], SortBy(s[1..], cmp), cmp);
    }
  }

  lemma TiesCons<T>(x: T, s: seq<T>, e: T, cmp: (T, T) -> real)
    ensures Ties([x] + s, e, cmp) == (if Tied(x, e, cmp) then [x] else []) + Ties(s, e, cmp)
  {
    assert ([x] + s)[1..] == s;
  }

  /** Two elements tied with the same `e` may precede each other. */
  lemma TiedWithSame<T(!new)>(a: T, b: T, e: T, cmp: (T, T) -> real)
    requires ConsistentComparator(cmp)
    ensures Tied(a, e, cmp) && Tied(b, e, cmp) ==> cmp(a, b) <= 0.0
  {
  }

  /** Swapping two neighbours that are not both tied with `e` leaves the ties of `e` alone. */
  lemma SwapTies<T>(x: T, y: T, rest: seq<T>, e: T, cmp: (T, T) -> real)
    requires !(Tied(x, e, cmp) && Tied(y, e, cmp))
    ensures Ties([x] + ([y] + rest), e, cmp) == Ties([y] + ([x] + rest), e, cmp)
  {
    var R := Ties(rest, e, cmp);
    TiesCons(y, rest, e, cmp);
    TiesCons(x, rest, e, cmp);
    TiesCons(x, [y] + rest, e, cmp);
    TiesCons(y, [x] + rest, e, cmp);
    if Tied(x, e, cmp) {
      assert Ties([x] + ([y] + rest), e, cmp) == [x] + R;
      assert Ties([y] + ([x] + rest), e, cmp) == [x] + R;
    } else {
      assert Ties([x] + rest, e, cmp) == R;
      assert Ties([x] + ([y] + rest), e, cmp) == Ties([y] + rest, e, cmp);
    }
  }

  /** Inserting an element in front of its ties leaves every class of ties as if
      the element had been put first. */
  lemma {:induction false} InsertTies<T(!new)>(x: T, t: seq<T>, e: T, cmp: (T, T) -> real)
    requires ConsistentComparator(cmp) && Sorted(t, cmp)
    ensures Ties(Insert(x, t, cmp), e, cmp) == Ties([x] + t, e, cmp)
  {
    if t != [] && cmp(x, t[0]) > 0.0 {
      var t0, rest := t[0], t[1..];
      var tail := Insert(x, rest, cmp);
      assert Sorted(rest, cmp);
      InsertTies(x, rest, e, cmp);
      TiedWithSame(x, t0, e, cmp);
      TiesCons(t0, tail, e, cmp);
      TiesCons(t0, [x] + rest, e, cmp);
      SwapTies(t0, x, rest, e, cmp);
      assert [t0] + rest == t;
    }
  }

  /** Stability: the elements tied with any `e` come out in their input order. */
  lemma {:induction false} SortStable<T(!new)>(s: seq<T>, e: T, cmp: (T, T) -> real)
    requires ConsistentComparator(cmp)
    ensures Ties(SortBy(s, cmp), e, cmp) == Ties(s, e, cmp)
  {
    if s != [] {
      SortStable(s[1..], e, cmp);
      SortSorted(s[1..], cmp);
      InsertTies(s[0], SortBy(s[1..], cmp), e, cmp);
      TiesCons(s[0], SortBy(s[1..], cmp), e, cmp);
      assert s == [s[0]] + s[1..];
      TiesCons(s[0], s[1..], e, cmp);
    }
  }

  /** The whole contract of `SortBy` for a consistent comparator: ordered and stable
      (and, from its own postcondition, a permutation). */
  lemma SortOrderedAndStable<T(!new)>(s: seq<T>, cmp: (T, T) -> real)
    requires ConsistentComparator(cmp)
    ensures Sorted(SortBy(s, cmp), cmp)
    ensures forall e :: Ties(SortBy(s, cmp), e, cmp) == Ties(s, e, cmp)
  {
    SortSorted(s, cmp);
    forall e ensures Ties(SortBy(s, cmp), e, cmp) == Ties(s, e, cmp) {
      SortStable(s, e, cmp);
    }
  }
}
