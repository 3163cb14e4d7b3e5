/** Ordering helpers shared by every sort in the tracker: the database's
    `.sort(...)` / `$sort` stages (modelled by a pure insertion sort whose tie
    order is one of the orders the database may produce) and the in-place
    `Array.prototype.sort` the components call, which ECMA-262 requires
    to be stable from its 2019 edition onwards, so that equal elements keep
    their input order. */
module Sorting {

  /** `le` is total and transitive: the comparators of the source all are. */
  ghost predicate TotalPreorder<T(!new)>(le: (T, T) -> bool) {
    && (forall x, y :: le(x, y) || le(y, x))
    && (forall x, y, z :: le(x, y) && le(y, z) ==> le(x, z))
  }

  /** The length `slice(0, n)` keeps. */
  function Min(a: int, b: int): int {
    if a <= b then a else b
  }

  predicate SortedBy<T>(s: seq<T>, le: (T, T) -> bool) {
    forall i, j :: 0 <= i < j < |s| ==> le(s[i], s[j])
  }

  predicate Distinct<T(==)>(s: seq<T>) {
    forall i, j :: 0 <= i < j < |s| ==> s[i] != s[j]
  }

  function Insert<T>(x: T, s: seq<T>, le: (T, T) -> bool): (r: seq<T>)
    ensures multiset(r) == multiset(s) + multiset{x}
  {
    if |s| == 0 then [x]
    else if le(x, s[0]) then [x] + s
    else
      assert s == [s[0]] + s[1..];
      [s[0]] + Insert(x, s[1..], le)
  }

  function SortBy<T>(s: seq<T>, le: (T, T) -> bool): (r: seq<T>)
    ensures multiset(r) == multiset(s)
  {
    if |s| == 0 then []
    else
      assert s == [s[0]] + s[1..];
      Insert(s[0], SortBy(s[1..], le), le)
  }

  lemma {:induction false} InsertSorted<T(!new)>(x: T, s: seq<T>, le: (T, T) -> bool)
    requires TotalPreorder(le) && SortedBy(s, le)
    ensures SortedBy(Insert(x, s, le), le)
  {
    if |s| > 0 && !le(x, s[0]) {
      var tail := s[1..];
      InsertSorted(x, tail, le);
      var r := Insert(x, tail, le);
      forall k | 0 <= k < |r|
        ensures le(s[0], r[k])
      {
        assert r[k] in multiset(r);
        if r[k] != x {
          assert r[k] in multiset(tail);
          var j :| 0 <= j < |tail| && tail[j] == r[k];
          assert s[j + 1] == r[k];
        }
      }
      assert Insert(x, s, le) == [s[0]] + r;
    }
  }

  /** The sort yields its input reordered so that `le` holds between every
      earlier and later element. */
  lemma {:induction false} SortBySorted<T(!new)>(s: seq<T>, le: (T, T) -> bool)
    requires TotalPreorder(le)
    ensures SortedBy(SortBy(s, le), le)
  {
    if |s| > 0 {
      SortBySorted(s[1..], le);
      InsertSorted(s[0], SortBy(s[1..], le), le);
    }
  }

  lemma {:induction false} DistinctMultiplicity<T>(s: seq<T>)
    ensures Distinct(s) <==> forall x :: multiset(s)[x] <= 1
  {
    if |s| > 0 {
      var tail := s[1..];
      DistinctMultiplicity(tail);
      assert s == [s[0]] + tail;
      assert forall x :: multiset(s)[x] == multiset(tail)[x] + (if x == s[0] then 1 else 0);
      if Distinct(s) {
        assert Distinct(tail) by {
          forall i, j | 0 <= i < j < |tail| ensures tail[i] != tail[j] {
            assert s[i + 1] != s[j + 1];
          }
        }
      }
      if forall x :: multiset(s)[x] <= 1 {
        assert forall x :: multiset(tail)[x] <= 1 by {
          forall x ensures multiset(tail)[x] <= 1 {
            assert multiset(tail)[x] <= multiset(s)[x];
          }
        }
        assert multiset(s)[s[0]] <= 1;
        assert s[0] !in multiset(tail);
        forall i, j | 0 <= i < j < |s| ensures s[i] != s[j] {
          if i == 0 {
            assert s[j] == tail[j - 1];
          } else {
            assert s[i] == tail[i - 1] && s[j] == tail[j - 1];
          }
        }
      }
    }
  }

  /** Reordering keeps distinct elements distinct. */
  lemma {:induction false} DistinctPermutation<T>(s: seq<T>, r: seq<T>)
    requires multiset(s) == multiset(r) && Distinct(s)
    ensures Distinct(r)
  {
    DistinctMultiplicity(s);
    DistinctMultiplicity(r);
  }

  /** x and y are tied: `le` orders them both ways (the comparator returns 0). */
  predicate Tied<T>(le: (T, T) -> bool, x: T, y: T) {
    le(x, y) && le(y, x)
  }

  /** The elements of s tied with x, in their order in s. */
  function Ties<T>(s: seq<T>, x: T, le: (T, T) -> bool): (r: seq<T>)
    ensures |r| <= |s|
    ensures forall i :: 0 <= i < |r| ==> Tied(le, x, r[i])
  {
    if |s| == 0 then []
    else
      var last := s[|s| - 1];
      Ties(s[..|s| - 1], x, le) + (if Tied(le, x, last) then [last] else [])
  }

  /** Every element of a group is drawn from the sequence. */
  lemma {:induction false} TiesFrom<T>(s: seq<T>, x: T, le: (T, T) -> bool)
    ensures forall y :: y in Ties(s, x, le) ==> y in s
  {
    if |s| > 0 {
      var init := s[..|s| - 1];
      TiesFrom(init, x, le);
      assert forall y :: y in init ==> y in s;
    }
  }

  /** r keeps the order of every group of tied elements of s: a stable
      reordering. */
  ghost predicate SameTies<T(!new)>(r: seq<T>, s: seq<T>, le: (T, T) -> bool) {
    forall x :: Ties(r, x, le) == Ties(s, x, le)
  }

  lemma {:induction false} TiesAppend<T>(a: seq<T>, b: seq<T>, x: T, le: (T, T) -> bool)
    ensures Ties(a + b, x, le) == Ties(a, x, le) + Ties(b, x, le)
  {
    if |b| > 0 {
      var init := b[..|b| - 1];
      TiesAppend(a, init, x, le);
      var ab := a + b;
      assert ab[..|ab| - 1] == a + init;
      assert ab[|ab| - 1] == b[|b| - 1];
      var tail := if Tied(le, x, b[|b| - 1]) then [b[|b| - 1]] else [];
      assert Ties(ab, x, le) == Ties(a + init, x, le) + tail;
      assert Ties(b, x, le) == Ties(init, x, le) + tail;
    } else {
      assert a + b == a;
    }
  }

  /** Swapping two adjacent elements that are out of order keeps every group
      of tied elements in its order: at most one of the two belongs to any
      group. */
  lemma {:induction false} SwapKeepsTies<T(!new)>(front: seq<T>, u: T, v: T, back: seq<T>, le: (T, T) -> bool)
    requires TotalPreorder(le) && !le(u, v)
    ensures SameTies(front + [v, u] + back, front + [u, v] + back, le)
  {
    forall x ensures Ties(front + [v, u] + back, x, le) == Ties(front + [u, v] + back, x, le) {
      SwapKeepsTiesOf(front, u, v, back, x, le);
    }
  }

  lemma {:induction false} SwapKeepsTiesOf<T(!new)>(front: seq<T>, u: T, v: T, back: seq<T>, x: T, le: (T, T) -> bool)
    requires TotalPreorder(le) && !le(u, v)
    ensures Ties(front + [v, u] + back, x, le) == Ties(front + [u, v] + back, x, le)
  {
    var uv, vu := [u, v], [v, u];
    TiesAppend(front + uv, back, x, le);
    TiesAppend(front + vu, back, x, le);
    TiesAppend(front, uv, x, le);
    TiesAppend(front, vu, x, le);
    assert !(Tied(le, x, u) && Tied(le, x, v));
    PairTies(u, v, x, le);
    PairTies(v, u, x, le);
  }

  lemma PairTies<T>(u: T, v: T, x: T, le: (T, T) -> bool)
    ensures Ties([u, v], x, le) == (if Tied(le, x, u) then [u] else []) + (if Tied(le, x, v) then [v] else [])
  {
    assert [u, v][..1] == [u];
    assert [u][..0] == [];
  }

  /** Sorting stably decides the result: two sequences that are ordered by
      `le` and keep every group of tied elements in the same order are
      equal. */
  lemma {:induction false} StableSortUnique<T(!new)>(a: seq<T>, b: seq<T>, le: (T, T) -> bool)
    requires TotalPreorder(le)
    requires SortedBy(a, le) && SortedBy(b, le) && SameTies(a, b, le)
    ensures a == b
    decreases |a| + |b|
  {
    if |a| == 0 || |b| == 0 {
      // A last element would be missing from the other's groups.
      if |a| > 0 {
        LastTies(a, le);
      } else if |b| > 0 {
        LastTies(b, le);
      }
    } else {
      var a0, b0 := a[..|a| - 1], b[..|b| - 1];
      var u, v := a[|a| - 1], b[|b| - 1];
      assert Ties(a, u, le) == Ties(b, u, le);
      assert Ties(a, v, le) == Ties(b, v, le);
      LastsAgree(a, b, le);
      forall x ensures Ties(a0, x, le) == Ties(b0, x, le) {
        assert Ties(a, x, le) == Ties(b, x, le);
        DropLastTie(a, b, x, le);
      }
      assert SortedBy(a0, le) && SortedBy(b0, le);
      StableSortUnique(a0, b0, le);
      assert a == a0 + [u] && b == b0 + [v];
    }
  }

  /** Two sorted sequences whose last elements have the same groups in both
      end in the same element. */
  lemma LastsAgree<T(!new)>(a: seq<T>, b: seq<T>, le: (T, T) -> bool)
    requires TotalPreorder(le) && SortedBy(a, le) && SortedBy(b, le) && |a| > 0 && |b| > 0
    requires Ties(a, a[|a| - 1], le) == Ties(b, a[|a| - 1], le)
    requires Ties(a, b[|b| - 1], le) == Ties(b, b[|b| - 1], le)
    ensures a[|a| - 1] == b[|b| - 1]
  {
    var u, v := a[|a| - 1], b[|b| - 1];
    LastTies(a, le);
    LastTies(b, le);
    var tu := Ties(b, u, le);
    assert u in tu;
    assert v in Ties(a, v, le);
    TiesFrom(b, u, le);
    TiesFrom(a, v, le);
    SortedLast(a, v, le);
    SortedLast(b, u, le);
    assert tu == Ties(b[..|b| - 1], u, le) + [v];
    assert tu[|tu| - 1] == v;
  }

  /** The last element is tied with itself, and ends its own group. */
  lemma LastTies<T(!new)>(s: seq<T>, le: (T, T) -> bool)
    requires TotalPreorder(le) && |s| > 0
    ensures Ties(s, s[|s| - 1], le) == Ties(s[..|s| - 1], s[|s| - 1], le) + [s[|s| - 1]]
  {
    assert Tied(le, s[|s| - 1], s[|s| - 1]);
  }

  /** In a sorted sequence every element comes before the last one. */
  lemma SortedLast<T(!new)>(s: seq<T>, y: T, le: (T, T) -> bool)
    requires TotalPreorder(le) && SortedBy(s, le) && y in s
    ensures le(y, s[|s| - 1])
  {
    var i :| 0 <= i < |s| && s[i] == y;
    if i < |s| - 1 {
      assert le(s[i], s[|s| - 1]);
    }
  }

  /** Two sequences with the same last element and the same groups keep the
      same groups without it. */
  lemma DropLastTie<T>(a: seq<T>, b: seq<T>, x: T, le: (T, T) -> bool)
    requires |a| > 0 && |b| > 0 && a[|a| - 1] == b[|b| - 1]
    requires Ties(a, x, le) == Ties(b, x, le)
    ensures Ties(a[..|a| - 1], x, le) == Ties(b[..|b| - 1], x, le)
  {
    var u := a[|a| - 1];
    var tail := if Tied(le, x, u) then [u] else [];
    var ta, tb := Ties(a[..|a| - 1], x, le), Ties(b[..|b| - 1], x, le);
    assert ta + tail == tb + tail;
    assert ta == (ta + tail)[..|ta|];
    assert tb == (tb + tail)[..|tb|];
  }

  /** Inserting x passes only elements strictly before it, so x keeps its
      place among the elements tied with it. */
  lemma {:induction false} InsertTies<T(!new)>(x: T, r: seq<T>, z: T, le: (T, T) -> bool)
    requires TotalPreorder(le)
    ensures Ties(Insert(x, r, le), z, le) == Ties([x] + r, z, le)
  {
    if |r| > 0 && !le(x, r[0]) {
      var y, rest := r[0], r[1..];
      InsertTies(x, rest, z, le);
      assert r == [y] + rest;
      PassOne(x, y, rest, Insert(x, rest, le), z, le);
    }
  }

  /** x moving past one element y strictly before it. */
  lemma PassOne<T(!new)>(x: T, y: T, rest: seq<T>, t: seq<T>, z: T, le: (T, T) -> bool)
    requires TotalPreorder(le) && !le(x, y)
    requires Ties(t, z, le) == Ties([x] + rest, z, le)
    ensures Ties([y] + t, z, le) == Ties([x] + ([y] + rest), z, le)
  {
    TiesAppend([y], t, z, le);
    TiesAppend([y], [x] + rest, z, le);
    assert [y] + ([x] + rest) == [] + [y, x] + rest;
    assert [x] + ([y] + rest) == [] + [x, y] + rest;
    SwapKeepsTiesOf([], x, y, rest, z, le);
  }

  /** The functional sort is stable too. */
  lemma {:induction false} SortByStable<T(!new)>(s: seq<T>, le: (T, T) -> bool)
    requires TotalPreorder(le)
    ensures SameTies(SortBy(s, le), s, le)
  {
    if |s| > 0 {
      var rest := s[1..];
      SortByStable(rest, le);
      forall z ensures Ties(SortBy(s, le), z, le) == Ties(s, z, le) {
        InsertTies(s[0], SortBy(rest, le), z, le);
        TiesAppend([s[0]], SortBy(rest, le), z, le);
        TiesAppend([s[0]], rest, z, le);
        assert s == [s[0]] + rest;
      }
    }
  }

  /** Any stable sort of s is `SortBy(s, le)`. */
  lemma {:induction false} StableSortIsSortBy<T(!new)>(r: seq<T>, s: seq<T>, le: (T, T) -> bool)
    requires TotalPreorder(le) && SortedBy(r, le) && SameTies(r, s, le)
    ensures r == SortBy(s, le)
  {
    SortBySorted(s, le);
    SortByStable(s, le);
    StableSortUnique(r, SortBy(s, le), le);
  }

  /** `a.sort(compare)` in place: afterwards the array is ordered by `le`,
      holds the same elements, and keeps tied elements in their input order,
      as `Array.prototype.sort` must since ECMAScript 2019. */
  method SortInPlace<T(!new)>(a: array<T>, le: (T, T) -> bool)
    requires TotalPreorder(le)
    modifies a
    ensures SortedBy(a[..], le)
    ensures multiset(a[..]) == multiset(old(a[..]))
    ensures SameTies(a[..], old(a[..]), le)
    ensures a[..] == SortBy(old(a[..]), le)
  {
    var i := 0;
    while i < a.Length
      invariant 0 <= i <= a.Length
      invariant SortedBy(a[..i], le)
      invariant multiset(a[..]) == multiset(old(a[..]))
      invariant SameTies(a[..], old(a[..]), le)
    {
      InsertLast(a, i, le);
      i := i + 1;
    }
    assert a[..a.Length] == a[..];
    StableSortIsSortBy(a[..], old(a[..]), le);
  }

  /** One step of the insertion sort: a[i] is swapped down into the sorted
      prefix a[..i], past the elements it is strictly smaller than only, after
      which a[..i + 1] is sorted and ties keep their order. */
  method InsertLast<T(!new)>(a: array<T>, i: nat, le: (T, T) -> bool)
    requires TotalPreorder(le)
    requires i < a.Length && SortedBy(a[..i], le)
    modifies a
    ensures SortedBy(a[..i + 1], le)
    ensures multiset(a[..]) == multiset(old(a[..]))
    ensures SameTies(a[..], old(a[..]), le)
  {
    var j := i;
    while j > 0 && !le(a[j - 1], a[j])
      invariant 0 <= j <= i
      invariant forall p, q :: 0 <= p < q <= i && p != j && q != j ==> le(a[p], a[q])
      invariant forall q :: j < q <= i ==> le(a[j], a[q])
      invariant multiset(a[..]) == multiset(old(a[..]))
      invariant SameTies(a[..], old(a[..]), le)
    {
      ghost var s := a[..];
      a[j - 1], a[j] := a[j], a[j - 1];
      SwapStep(s, a[..], j, le);
      j := j - 1;
    }
    assert forall p :: 0 <= p < j ==> le(a[p], a[j]) by {
      if j > 0 {
        forall p | 0 <= p < j ensures le(a[p], a[j]) {
          if p < j - 1 {
            assert le(a[p], a[j - 1]);
          }
        }
      }
    }
  }

  /** The array after one swap of the insertion step, as sequences. */
  lemma SwapStep<T(!new)>(s: seq<T>, t: seq<T>, j: nat, le: (T, T) -> bool)
    requires TotalPreorder(le) && 0 < j < |s| && !le(s[j - 1], s[j])
    requires t == s[j - 1 := s[j]][j := s[j - 1]]
    ensures SameTies(t, s, le)
  {
    assert s == s[..j - 1] + [s[j - 1], s[j]] + s[j + 1..];
    assert t == s[..j - 1] + [s[j], s[j - 1]] + s[j + 1..];
    SwapKeepsTies(s[..j - 1], s[j - 1], s[j], s[j + 1..], le);
  }

  /** In a sorted sequence, everything in a prefix comes before everything
      after it. */
  lemma {:induction false} SortedSplit<T>(s: seq<T>, le: (T, T) -> bool, k: nat)
    requires SortedBy(s, le) && k <= |s|
    ensures forall x, y :: x in s[..k] && y in s[k..] ==> le(x, y)
  {
    forall x, y | x in s[..k] && y in s[k..] ensures le(x, y) {
      var i :| 0 <= i < k && s[..k][i] == x;
      var j :| 0 <= j < |s| - k && s[k..][j] == y;
      assert s[i] == x && s[k + j] == y;
    }
  }

  /** Peeling the last element off one of two permutations of each other:
      it sits at some position `k` of the other, and what remains of both
      are again permutations of each other. */
  lemma {:induction false} PermutationStep<T>(a: seq<T>, b: seq<T>) returns (k: nat)
    requires multiset(a) == multiset(b) && |a| > 0
    ensures k < |b| && b[k] == a[|a| - 1]
    ensures multiset(a[..|a| - 1]) == multiset(b[..k] + b[k + 1..])
  {
    var init, x := a[..|a| - 1], a[|a| - 1];
    assert a == init + [x];
    assert multiset(a) == multiset(init) + multiset{x};
    assert x in multiset(b);
    k :| 0 <= k < |b| && b[k] == x;
    var left, right := b[..k], b[k + 1..];
    assert b == left + [x] + right;
    assert multiset(b) == multiset(left) + multiset{x} + multiset(right);
    assert multiset(left + right) == multiset(left) + multiset(right);
    assert multiset(init) == multiset(a) - multiset{x};
    assert multiset(left) + multiset(right) == multiset(b) - multiset{x};
  }
}
