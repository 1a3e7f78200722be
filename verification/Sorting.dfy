/** A stable sort and its laws. `Sort` stands for the built-in sort of the modelled programs, which is stable too. */
module Sorting {

  ghost predicate TotalOrder<T(!new)>(le: (T, T) -> bool) {
    && (forall a, b :: le(a, b) || le(b, a))
    && (forall a, b, c :: le(a, b) && le(b, c) ==> le(a, c))
  }

  ghost predicate Sorted<T>(le: (T, T) -> bool, s: seq<T>) {
    forall i, j :: 0 <= i < j < |s| ==> le(s[i], s[j])
  }

  function Insert<T>(le: (T, T) -> bool, x: T, s: seq<T>): seq<T>
    decreases |s|
  {
    if s == [] then [x]
    else if le(s[|s| - 1], x) then s + [x]
    else Insert(le, x, s[..|s| - 1]) + [s[|s| - 1]]
  }

  /** Equal elements keep their order: a later element is inserted behind the earlier ones it equals. */
  function Sort<T>(le: (T, T) -> bool, s: seq<T>): seq<T>
    decreases |s|
  {
    if s == [] then [] else Insert(le, s[|s| - 1], Sort(le, s[..|s| - 1]))
  }

  lemma {:induction false} InsertPermutes<T>(le: (T, T) -> bool, x: T, s: seq<T>)
    ensures multiset(Insert(le, x, s)) == multiset(s) + multiset{x}
    ensures |Insert(le, x, s)| == |s| + 1
    decreases |s|
  {
    if s != [] && !le(s[|s| - 1], x) {
      InsertPermutes(le, x, s[..|s| - 1]);
      assert s == s[..|s| - 1] + [s[|s| - 1]];
    }
  }

  lemma {:induction false} SortPermutes<T>(le: (T, T) -> bool, s: seq<T>)
    ensures multiset(Sort(le, s)) == multiset(s)
    ensures |Sort(le, s)| == |s|
    decreases |s|
  {
    if s != [] {
      SortPermutes(le, s[..|s| - 1]);
      InsertPermutes(le, s[|s| - 1], Sort(le, s[..|s| - 1]));
      assert s == s[..|s| - 1] + [s[|s| - 1]];
    }
  }

  lemma {:induction false} InsertSorts<T(!new)>(le: (T, T) -> bool, x: T, s: seq<T>)
    requires TotalOrder(le) && Sorted(le, s)
    ensures Sorted(le, Insert(le, x, s))
    decreases |s|
  {
    if s != [] && !le(s[|s| - 1], x) {
      var init, last := s[..|s| - 1], s[|s| - 1];
      InsertSorts(le, x, init);
      var r := Insert(le, x, init);
      InsertPermutes(le, x, init);
      forall i | 0 <= i < |r| ensures le(r[i], last) {
        assert r[i] in multiset(r);
        assert r[i] in multiset(init) + multiset{x};
        if r[i] != x { assert r[i] in init; }
      }
    }
  }

  lemma {:induction false} SortSorts<T(!new)>(le: (T, T) -> bool, s: seq<T>)
    requires TotalOrder(le)
    ensures Sorted(le, Sort(le, s))
    decreases |s|
  {
    if s != [] {
      SortSorts(le, s[..|s| - 1]);
      InsertSorts(le, s[|s| - 1], Sort(le, s[..|s| - 1]));
    }
  }

  lemma InSort<T>(le: (T, T) -> bool, s: seq<T>, x: T)
    ensures x in Sort(le, s) <==> x in s
  {
    SortPermutes(le, s);
    assert x in Sort(le, s) <==> x in multiset(Sort(le, s));
    assert x in s <==> x in multiset(s);
  }

  /** The order tells all elements of the sequence apart. */
  ghost predicate Separates<T>(le: (T, T) -> bool, s: seq<T>) {
    forall x, y :: x in s && y in s && le(x, y) && le(y, x) ==> x == y
  }

  /** A sorted arrangement of given elements is unique when the order tells all of them apart. */
  lemma {:induction false} SortedUnique<T(!new)>(le: (T, T) -> bool, a: seq<T>, b: seq<T>)
    requires TotalOrder(le) && Separates(le, a)
    requires Sorted(le, a) && Sorted(le, b) && multiset(a) == multiset(b)
    ensures a == b
    decreases |a|
  {
    hide TotalOrder, Separates, Sorted;
    assert |a| == |multiset(a)| == |multiset(b)| == |b|;
    if a != [] {
      SameFirst(le, a, b);
      Tail(le, a);
      Tail(le, b);
      SortedUnique(le, a[1..], b[1..]);
    }
  }

  lemma Tail<T>(le: (T, T) -> bool, a: seq<T>)
    requires a != [] && Sorted(le, a)
    ensures a == [a[0]] + a[1..] && Sorted(le, a[1..])
    ensures Separates(le, a) ==> Separates(le, a[1..])
    ensures multiset(a[1..]) == multiset(a) - multiset{a[0]}
  {
    assert a == [a[0]] + a[1..];
  }

  lemma SameFirst<T(!new)>(le: (T, T) -> bool, a: seq<T>, b: seq<T>)
    requires TotalOrder(le) && Separates(le, a) && a != [] && b != []
    requires Sorted(le, a) && Sorted(le, b) && multiset(a) == multiset(b)
    ensures a[0] == b[0]
  {
    var x, y := a[0], b[0];
    assert x in multiset(b) && y in multiset(a);
    var i :| 0 <= i < |b| && b[i] == x;
    var j :| 0 <= j < |a| && a[j] == y;
    assert le(x, y) && le(y, x);
  }

  /** Two orders that agree on the elements of a sequence sort it alike. */
  lemma {:induction false} InsertAgrees<T(!new)>(le: (T, T) -> bool, le': (T, T) -> bool, x: T, s: seq<T>)
    requires forall a :: a in s ==> le(a, x) == le'(a, x)
    ensures Insert(le, x, s) == Insert(le', x, s)
    decreases |s|
  {
    if s != [] { InsertAgrees(le, le', x, s[..|s| - 1]); }
  }

  lemma {:induction false} SortAgrees<T(!new)>(le: (T, T) -> bool, le': (T, T) -> bool, s: seq<T>)
    requires forall a, b :: a in s && b in s ==> le(a, b) == le'(a, b)
    ensures Sort(le, s) == Sort(le', s)
    decreases |s|
  {
    if s != [] {
      var init, x := s[..|s| - 1], s[|s| - 1];
      SortAgrees(le, le', init);
      forall a | a in Sort(le, init) ensures le(a, x) == le'(a, x) { InSort(le, init, a); }
      InsertAgrees(le, le', x, Sort(le, init));
    }
  }

  /** With elements that the order tells apart, sorting forgets the order of its input. */
  lemma SortForgetsOrder<T(!new)>(le: (T, T) -> bool, s: seq<T>, t: seq<T>)
    requires TotalOrder(le) && Separates(le, s) && multiset(s) == multiset(t)
    ensures Sort(le, s) == Sort(le, t)
  {
    SortPermutes(le, s);
    SortPermutes(le, t);
    SortSorts(le, s);
    SortSorts(le, t);
    forall x ensures x in Sort(le, s) <==> x in s { InSort(le, s, x); }
    SortedUnique(le, Sort(le, s), Sort(le, t));
  }

  // ---------- stability ----------

  function Filter<T>(p: T -> bool, s: seq<T>): seq<T>
    decreases |s|
  {
    if s == [] then []
    else Filter(p, s[..|s| - 1]) + if p(s[|s| - 1]) then [s[|s| - 1]] else []
  }

  lemma FilterLast<T>(p: T -> bool, s: seq<T>, x: T)
    ensures Filter(p, s + [x]) == Filter(p, s) + if p(x) then [x] else []
  {
    assert (s + [x])[..|s|] == s;
  }

  lemma {:induction false} InsertIsStable<T(!new)>(le: (T, T) -> bool, p: T -> bool, x: T, s: seq<T>)
    requires forall a, b :: p(a) && p(b) ==> le(a, b)
    ensures Filter(p, Insert(le, x, s)) == Filter(p, s) + if p(x) then [x] else []
    decreases |s|
  {
    if s == [] || le(s[|s| - 1], x) {
      assert Insert(le, x, s) == s + [x];
      FilterLast(p, s, x);
    } else {
      var init, last := s[..|s| - 1], s[|s| - 1];
      assert Insert(le, x, s) == Insert(le, x, init) + [last] && s == init + [last];
      InsertIsStable(le, p, x, init);
      FilterLast(p, Insert(le, x, init), last);
      FilterLast(p, init, last);
      hide Insert, Filter;
      assert p(x) ==> !p(last);
    }
  }

  /** Elements that the order does not tell apart keep their order. */
  lemma {:induction false} SortIsStable<T(!new)>(le: (T, T) -> bool, p: T -> bool, s: seq<T>)
    requires forall a, b :: p(a) && p(b) ==> le(a, b)
    ensures Filter(p, Sort(le, s)) == Filter(p, s)
    decreases |s|
  {
    if s != [] {
      SortIsStable(le, p, s[..|s| - 1]);
      InsertIsStable(le, p, s[|s| - 1], Sort(le, s[..|s| - 1]));
    }
  }

  // ---------- mapping ----------

  function Map<T, U>(g: T -> U, s: seq<T>): seq<U>
    ensures |Map(g, s)| == |s|
  {
    seq(|s|, i requires 0 <= i < |s| => g(s[i]))
  }

  function Without<T>(s: seq<T>, j: nat): seq<T>
    requires j < |s|
  {
    s[..j] + s[j + 1..]
  }

  lemma WithoutOne<T>(s: seq<T>, j: nat)
    requires j < |s|
    ensures multiset(s) == multiset(Without(s, j)) + multiset{s[j]}
  {
    assert s == s[..j] + ([s[j]] + s[j + 1..]);
  }

  lemma MapWithout<T, U>(g: T -> U, s: seq<T>, j: nat)
    requires j < |s|
    ensures |Map(g, s)| == |s| && Map(g, s)[j] == g(s[j])
    ensures Map(g, Without(s, j)) == Without(Map(g, s), j)
  {
  }

  /** The images of a permutation are a permutation of the images. */
  lemma {:induction false} MapPermutes<T, U>(g: T -> U, a: seq<T>, b: seq<T>)
    requires multiset(a) == multiset(b)
    ensures multiset(Map(g, a)) == multiset(Map(g, b))
    decreases |a|
  {
    hide Map;
    assert |a| == |multiset(a)| == |multiset(b)| == |b|;
    if a == [] {
      assert a == b;
    } else {
      assert a[0] in multiset(b);
      var j :| 0 <= j < |b| && b[j] == a[0];
      WithoutOne(a, 0);
      WithoutOne(b, j);
      assert multiset(Without(a, 0)) == multiset(a) - multiset{a[0]} == multiset(b) - multiset{b[j]} == multiset(Without(b, j));
      MapPermutes(g, Without(a, 0), Without(b, j));
      MapWithout(g, a, 0);
      MapWithout(g, b, j);
      WithoutOne(Map(g, a), 0);
      WithoutOne(Map(g, b), j);
    }
  }

  /** Relabelling elements without changing any comparison does not change the order of the result. */
  lemma {:induction false} InsertMaps<T(!new), U>(le: (T, T) -> bool, le': (U, U) -> bool, g: T -> U, x: T, s: seq<T>)
    requires forall a, b :: le'(g(a), g(b)) == le(a, b)
    ensures Insert(le', g(x), Map(g, s)) == Map(g, Insert(le, x, s))
    decreases |s|
  {
    if s != [] && !le(s[|s| - 1], x) {
      InsertMaps(le, le', g, x, s[..|s| - 1]);
      assert Map(g, s)[..|s| - 1] == Map(g, s[..|s| - 1]);
    }
  }

  lemma {:induction false} SortMaps<T(!new), U>(le: (T, T) -> bool, le': (U, U) -> bool, g: T -> U, s: seq<T>)
    requires forall a, b :: le'(g(a), g(b)) == le(a, b)
    ensures Sort(le', Map(g, s)) == Map(g, Sort(le, s))
    decreases |s|
  {
    if s != [] {
      SortMaps(le, le', g, s[..|s| - 1]);
      assert Map(g, s)[..|s| - 1] == Map(g, s[..|s| - 1]);
      InsertMaps(le, le', g, s[|s| - 1], Sort(le, s[..|s| - 1]));
    }
  }

  // ---------- the order of strings ----------

  predicate StringLe(a: string, b: string) {
    a == "" || (b != "" && (a[0] < b[0] || (a[0] == b[0] && StringLe(a[1..], b[1..]))))
  }

  /** A string is below its extensions, and of two strings that differ the one with the smaller character at the first
      difference is the smaller. */
  lemma {:induction false} StringLeMeans(common: string, a: string, b: string)
    requires a == "" || b == "" || a[0] != b[0]
    ensures StringLe(common + a, common + b) <==> a == "" || (b != "" && a[0] < b[0])
  {
    if common == "" {
      assert common + a == a && common + b == b;
    } else {
      var c, rest := common[0], common[1..];
      assert common + a == [c] + (rest + a) && common + b == [c] + (rest + b);
      StringLeBehind(c, rest + a, rest + b);
      StringLeMeans(rest, a, b);
    }
  }

  lemma StringLeBehind(c: char, a: string, b: string)
    ensures StringLe([c] + a, [c] + b) <==> StringLe(a, b)
  {
    assert ([c] + a)[1..] == a && ([c] + b)[1..] == b;
  }

  lemma {:induction false} StringLeTotal(a: string, b: string)
    ensures StringLe(a, b) || StringLe(b, a)
    ensures StringLe(a, b) && StringLe(b, a) ==> a == b
  {
    if a != "" && b != "" && a[0] == b[0] {
      StringLeTotal(a[1..], b[1..]);
      assert a == [a[0]] + a[1..] && b == [b[0]] + b[1..];
    }
  }

  lemma {:induction false} StringLeTransitive(a: string, b: string, c: string)
    requires StringLe(a, b) && StringLe(b, c)
    ensures StringLe(a, c)
  {
    if a != "" && b != "" && c != "" && a[0] == b[0] == c[0] { StringLeTransitive(a[1..], b[1..], c[1..]); }
  }

  lemma StringLeIsTotalOrder()
    ensures TotalOrder(StringLe)
    ensures forall a, b :: StringLe(a, b) && StringLe(b, a) ==> a == b
  {
    forall a, b ensures StringLe(a, b) || StringLe(b, a) { StringLeTotal(a, b); }
    forall a, b ensures StringLe(a, b) && StringLe(b, a) ==> a == b { StringLeTotal(a, b); }
    forall a, b, c | StringLe(a, b) && StringLe(b, c) ensures StringLe(a, c) { StringLeTransitive(a, b, c); }
  }
}
