/** What a WHERE and an ORDER BY do to the rows of a table, for any row type and any order. */
module Ordering {

  ghost predicate StrictOrder<T(!new)>(less: (T, T) -> bool) {
    && (forall x :: !less(x, x))
    && (forall x, y, z :: less(x, y) && less(y, z) ==> less(x, z))
  }

  /** Any two rows at different places are ordered one way or the other. */
  ghost predicate Comparable<T(!new)>(s: seq<T>, less: (T, T) -> bool) {
    forall i, j :: 0 <= i < j < |s| ==> less(s[i], s[j]) || less(s[j], s[i])
  }

  ghost predicate Sorted<T(!new)>(s: seq<T>, less: (T, T) -> bool) {
    forall i, j :: 0 <= i < j < |s| ==> less(s[i], s[j])
  }

  function Where<T>(s: seq<T>, keep: T -> bool): (r: seq<T>)
    ensures |r| <= |s|
  {
    if s == [] then [] else if keep(s[0]) then [s[0]] + Where(s[1..], keep) else Where(s[1..], keep)
  }

  function Insert<T>(x: T, s: seq<T>, less: (T, T) -> bool): (r: seq<T>)
    ensures |r| == |s| + 1 && multiset(r) == multiset(s) + multiset{x}
    decreases |s|
  {
    if s == [] || less(x, s[0]) then [x] + s
    else
      assert s == [s[0]] + s[1..];
      [s[0]] + Insert(x, s[1..], less)
  }

  function OrderBy<T>(s: seq<T>, less: (T, T) -> bool): (r: seq<T>)
    ensures |r| == |s| && multiset(r) == multiset(s)
    decreases |s|
  {
    if s == [] then []
    else
      assert s == [s[0]] + s[1..];
      Insert(s[0], OrderBy(s[1..], less), less)
  }

  lemma SameRows<T>(a: seq<T>, b: seq<T>, x: T)
    requires multiset(a) == multiset(b)
    ensures x in a <==> x in b
  {
    assert x in a <==> x in multiset(a);
    assert x in b <==> x in multiset(b);
  }

  // ---------------------------------------------------------------- WHERE

  lemma WhereCons<T>(x: T, s: seq<T>, keep: T -> bool)
    ensures Where([x] + s, keep) == if keep(x) then [x] + Where(s, keep) else Where(s, keep)
  {
    assert ([x] + s)[1..] == s;
  }

  lemma {:induction false} WhereHas<T>(s: seq<T>, keep: T -> bool, x: T)
    ensures x in Where(s, keep) <==> x in s && keep(x)
    decreases |s|
  {
    if s != [] {
      assert x in s <==> x == s[0] || x in s[1..];
      WhereHas(s[1..], keep, x);
    }
  }

  lemma {:induction false} WhereConcat<T>(a: seq<T>, b: seq<T>, keep: T -> bool)
    ensures Where(a + b, keep) == Where(a, keep) + Where(b, keep)
    decreases |a|
  {
    if a == [] {
      assert a + b == b;
    } else {
      assert (a + b)[1..] == a[1..] + b;
      WhereConcat(a[1..], b, keep);
    }
  }

  lemma {:induction false} WhereAll<T>(s: seq<T>, keep: T -> bool)
    requires forall x :: x in s ==> keep(x)
    ensures Where(s, keep) == s
    decreases |s|
  {
    if s != [] { WhereAll(s[1..], keep); }
  }

  lemma {:induction false} WhereNone<T>(s: seq<T>, keep: T -> bool)
    requires forall x :: x in s ==> !keep(x)
    ensures Where(s, keep) == []
    decreases |s|
  {
    if s != [] { WhereNone(s[1..], keep); }
  }

  /** Conditions that exclude each other select together as many rows as their union. */
  lemma {:induction false} WhereUnion<T>(s: seq<T>, a: T -> bool, b: T -> bool, either: T -> bool)
    requires forall x :: x in s ==> !(a(x) && b(x)) && (either(x) <==> a(x) || b(x))
    ensures |Where(s, a)| + |Where(s, b)| == |Where(s, either)|
    decreases |s|
  {
    if s != [] {
      assert s[0] in s;
      WhereUnion(s[1..], a, b, either);
    }
  }

  lemma {:induction false} WhereSame<T>(s: seq<T>, p: T -> bool, q: T -> bool)
    requires forall x :: x in s ==> p(x) == q(x)
    ensures Where(s, p) == Where(s, q)
    decreases |s|
  {
    if s != [] { WhereSame(s[1..], p, q); }
  }

  lemma {:induction false} WhereTwice<T>(s: seq<T>, first: T -> bool, second: T -> bool, both: T -> bool)
    requires forall x :: x in s ==> (both(x) <==> first(x) && second(x))
    ensures Where(Where(s, first), second) == Where(s, both)
    decreases |s|
  {
    if s != [] {
      WhereTwice(s[1..], first, second, both);
      if first(s[0]) { WhereCons(s[0], Where(s[1..], first), second); }
    }
  }

  /** A sequence that splits into kept and dropped rows is filtered by cutting it there. */
  lemma WhereSplits<T>(s: seq<T>, keep: T -> bool, k: nat)
    requires k <= |s|
    requires (forall i :: 0 <= i < k ==> !keep(s[i])) && (forall i :: k <= i < |s| ==> keep(s[i]))
    ensures Where(s, keep) == s[k..]
  {
    assert s == s[..k] + s[k..];
    WhereConcat(s[..k], s[k..], keep);
    WhereNone(s[..k], keep);
    WhereAll(s[k..], keep);
  }

  lemma WhereKeepsFront<T>(s: seq<T>, keep: T -> bool, k: nat)
    requires k <= |s|
    requires (forall i :: 0 <= i < k ==> keep(s[i])) && (forall i :: k <= i < |s| ==> !keep(s[i]))
    ensures Where(s, keep) == s[..k]
  {
    assert s == s[..k] + s[k..];
    WhereConcat(s[..k], s[k..], keep);
    WhereAll(s[..k], keep);
    WhereNone(s[k..], keep);
  }

  // ---------------------------------------------------------------- ORDER BY

  lemma {:induction false} InsertSorted<T(!new)>(x: T, s: seq<T>, less: (T, T) -> bool)
    requires StrictOrder(less) && Sorted(s, less)
    requires forall y :: y in s ==> less(x, y) || less(y, x)
    ensures Sorted(Insert(x, s, less), less)
    decreases |s|
  {
    if s != [] && !less(x, s[0]) {
      InsertSorted(x, s[1..], less);
      var rest := Insert(x, s[1..], less);
      forall y | y in rest ensures less(s[0], y) {
        SameRows(rest, s[1..] + [x], y);
      }
    }
  }

  lemma {:induction false} OrderBySorts<T(!new)>(s: seq<T>, less: (T, T) -> bool)
    requires StrictOrder(less) && Comparable(s, less)
    ensures Sorted(OrderBy(s, less), less)
    decreases |s|
  {
    if s != [] {
      ComparableTail(s, less);
      OrderBySorts(s[1..], less);
      forall y | y in OrderBy(s[1..], less) ensures less(s[0], y) || less(y, s[0]) {
        SameRows(OrderBy(s[1..], less), s[1..], y);
      }
      InsertSorted(s[0], OrderBy(s[1..], less), less);
    }
  }

  lemma InsertFront<T(!new)>(x: T, s: seq<T>, less: (T, T) -> bool)
    requires s != [] ==> less(x, s[0])
    ensures Insert(x, s, less) == [x] + s
  {}

  lemma InsertBehind<T>(x: T, y: T, s: seq<T>, less: (T, T) -> bool)
    requires !less(x, y)
    ensures Insert(x, [y] + s, less) == [y] + Insert(x, s, less)
  {
    assert ([y] + s)[1..] == s;
  }

  lemma BeforeKept<T(!new)>(x: T, s: seq<T>, less: (T, T) -> bool, keep: T -> bool)
    requires StrictOrder(less) && Sorted(s, less) && (s != [] ==> less(x, s[0]))
    ensures Where(s, keep) != [] ==> less(x, Where(s, keep)[0])
  {
    if Where(s, keep) != [] {
      WhereHas(s, keep, Where(s, keep)[0]);
    }
  }

  lemma {:induction false} WhereInsert<T(!new)>(x: T, s: seq<T>, less: (T, T) -> bool, keep: T -> bool)
    requires StrictOrder(less) && Sorted(s, less)
    ensures Where(Insert(x, s, less), keep) ==
            if keep(x) then Insert(x, Where(s, keep), less) else Where(s, keep)
    decreases |s|
  {
    if s == [] || less(x, s[0]) {
      WhereCons(x, s, keep);
      BeforeKept(x, s, less, keep);
      InsertFront(x, Where(s, keep), less);
    } else {
      WhereInsert(x, s[1..], less, keep);
      WhereCons(s[0], Insert(x, s[1..], less), keep);
      InsertBehind(x, s[0], Where(s[1..], keep), less);
    }
  }

  lemma InsertFirst<T>(x: T, s: seq<T>, less: (T, T) -> bool)
    ensures OrderBy([x] + s, less) == Insert(x, OrderBy(s, less), less)
  {
    assert ([x] + s)[1..] == s;
  }

  lemma ComparableTail<T(!new)>(s: seq<T>, less: (T, T) -> bool)
    requires Comparable(s, less) && s != []
    ensures Comparable(s[1..], less)
  {
    forall i, j | 0 <= i < j < |s| - 1 ensures less(s[1..][i], s[1..][j]) || less(s[1..][j], s[1..][i]) {
      assert less(s[i + 1], s[j + 1]) || less(s[j + 1], s[i + 1]);
    }
  }

  /** Filtering and then ordering gives what ordering and then filtering gives. */
  lemma {:induction false} WhereOrderBy<T(!new)>(s: seq<T>, less: (T, T) -> bool, keep: T -> bool)
    requires StrictOrder(less) && Comparable(s, less)
    ensures Where(OrderBy(s, less), keep) == OrderBy(Where(s, keep), less)
    decreases |s|
  {
    if s != [] {
      ComparableTail(s, less);
      OrderBySorts(s[1..], less);
      WhereInsert(s[0], OrderBy(s[1..], less), less, keep);
      InsertFirst(s[0], Where(s[1..], keep), less);
      WhereOrderBy(s[1..], less, keep);
    }
  }

  /** There is only one way to order a set of rows. */
  lemma {:induction false} SortedSame<T(!new)>(a: seq<T>, b: seq<T>, less: (T, T) -> bool)
    requires StrictOrder(less) && Sorted(a, less) && Sorted(b, less) && forall x :: x in a <==> x in b
    ensures a == b
    decreases |a|
  {
    assert (a != [] ==> a[0] in a) && (b != [] ==> b[0] in b);
    if a != [] {
      forall x ensures x in a[1..] <==> x in b[1..] {
        assert x in a <==> x == a[0] || x in a[1..];
        assert x in b <==> x == b[0] || x in b[1..];
        assert !less(x, x);
      }
      SortedSame(a[1..], b[1..], less);
    }
  }

  // ---------------------------------------------------------------- updates that keep the order

  function Map<S, T>(s: seq<S>, f: S -> T): (r: seq<T>)
    ensures |r| == |s| && forall i :: 0 <= i < |s| ==> r[i] == f(s[i])
  {
    if s == [] then [] else [f(s[0])] + Map(s[1..], f)
  }

  lemma {:induction false} MapInsert<T>(x: T, s: seq<T>, less: (T, T) -> bool, f: T -> T)
    requires forall a, b :: less(f(a), f(b)) <==> less(a, b)
    ensures Map(Insert(x, s, less), f) == Insert(f(x), Map(s, f), less)
    decreases |s|
  {
    if s == [] || less(x, s[0]) {
      assert ([x] + s)[1..] == s;
    } else {
      MapInsert(x, s[1..], less, f);
    }
  }

  /** An update that keeps every row's place in the order may be made before or after ordering. */
  lemma {:induction false} MapOrderBy<T>(s: seq<T>, less: (T, T) -> bool, f: T -> T)
    requires forall a, b :: less(f(a), f(b)) <==> less(a, b)
    ensures OrderBy(Map(s, f), less) == Map(OrderBy(s, less), f)
    decreases |s|
  {
    if s != [] {
      MapOrderBy(s[1..], less, f);
      MapInsert(s[0], OrderBy(s[1..], less), less, f);
    }
  }

  lemma {:induction false} MapWhere<T>(s: seq<T>, keep: T -> bool, f: T -> T)
    requires forall x :: keep(f(x)) <==> keep(x)
    ensures Where(Map(s, f), keep) == Map(Where(s, keep), f)
    decreases |s|
  {
    if s != [] { MapWhere(s[1..], keep, f); }
  }
}
