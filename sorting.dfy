/**
 * The stable sort behind `Array.prototype.sort` with a comparator that
 * only says which of two entries comes first. Entries the comparator ties
 * keep their input order, so a list that arrives in increasing `rank`
 * comes out ordered by the comparator and then by `rank`.
 */
module Sorting {

  /**
   * `before` is a strict weak order: irreflexive, transitive, and "neither
   * comes first" is transitive too (that is what a comparator built from
   * differences of numbers gives).
   */
  ghost predicate StrictWeak<T(!new)>(before: (T, T) -> bool)
  {
    (forall a :: !before(a, a)) &&
    (forall a, b, c :: before(a, b) && before(b, c) ==> before(a, c)) &&
    (forall a, b, c :: !before(a, b) && !before(b, c) ==> !before(a, c))
  }

  /** `a` precedes `b` once sorted: it comes first, or they tie and `a` came earlier. */
  predicate Ahead<T>(a: T, b: T, before: (T, T) -> bool, rank: T -> int)
  {
    before(a, b) || (!before(b, a) && rank(a) < rank(b))
  }

  /** Every entry of `s` precedes every later one. */
  predicate Chain<T>(s: seq<T>, before: (T, T) -> bool, rank: T -> int)
  {
    forall i, j :: 0 <= i < j < |s| ==> Ahead(s[i], s[j], before, rank)
  }

  /** `s` lists its entries in strictly increasing `rank`. */
  predicate Increasing<T>(s: seq<T>, rank: T -> int)
  {
    forall i, j :: 0 <= i < j < |s| ==> rank(s[i]) < rank(s[j])
  }

  /** An increasing list stays increasing with an entry ranked below all of it in front. */
  lemma IncreasingCons<T>(x: T, s: seq<T>, rank: T -> int)
    requires Increasing(s, rank)
    requires forall e :: e in s ==> rank(x) < rank(e)
    ensures Increasing([x] + s, rank)
  {
    forall i, j | 0 <= i < j < |[x] + s|
      ensures rank(([x] + s)[i]) < rank(([x] + s)[j])
    {
      assert ([x] + s)[j] == s[j - 1];
      if i > 0 {
        assert ([x] + s)[i] == s[i - 1];
      }
    }
  }

  /** `x` placed in front of the first entry it comes before, or at the end. */
  function Insert<T>(x: T, s: seq<T>, before: (T, T) -> bool): (r: seq<T>)
    ensures multiset(r) == multiset(s) + multiset{x}
  {
    if s == [] then [x]
    else if before(x, s[0]) then [x] + s
    else
      assert s == [s[0]] + s[1..];
      [s[0]] + Insert(x, s[1..], before)
  }

  /** Insertion sort: each entry, left to right, inserted into the sorted prefix. */
  function SortBy<T>(s: seq<T>, before: (T, T) -> bool): (r: seq<T>)
    ensures multiset(r) == multiset(s)
  {
    if s == [] then []
    else
      assert s == s[..|s| - 1] + [s[|s| - 1]];
      Insert(s[|s| - 1], SortBy(s[..|s| - 1], before), before)
  }

  /** Inserting an entry that came after all the others keeps the chain. */
  lemma {:induction false} InsertChain<T(!new)>(x: T, s: seq<T>, before: (T, T) -> bool, rank: T -> int)
    requires StrictWeak(before) && Chain(s, before, rank)
    requires forall e :: e in s ==> rank(e) < rank(x)
    ensures Chain(Insert(x, s, before), before, rank)
  {
    if s == [] {
    } else if before(x, s[0]) {
      InsertFront(x, s, before, rank);
    } else {
      InsertChain(x, s[1..], before, rank);
      InsertBehind(x, s, before, rank);
    }
  }

  /** `x` placed in front of a chain whose head it comes before. */
  lemma InsertFront<T(!new)>(x: T, s: seq<T>, before: (T, T) -> bool, rank: T -> int)
    requires StrictWeak(before) && Chain(s, before, rank)
    requires s != [] && before(x, s[0])
    ensures Chain([x] + s, before, rank)
  {
    var r := [x] + s;
    forall i, j | 0 <= i < j < |r|
      ensures Ahead(r[i], r[j], before, rank)
    {
      if i == 0 {
        // s[0] does not come after s[j - 1], so x, which comes before s[0], comes before it
        if j > 1 {
          assert Ahead(s[0], s[j - 1], before, rank);
        }
      } else {
        assert Ahead(s[i - 1], s[j - 1], before, rank);
      }
    }
  }

  /** The head of a chain kept in front of `x` inserted into the rest. */
  lemma InsertBehind<T(!new)>(x: T, s: seq<T>, before: (T, T) -> bool, rank: T -> int)
    requires Chain(s, before, rank) && s != [] && !before(x, s[0])
    requires forall e :: e in s ==> rank(e) < rank(x)
    requires Chain(Insert(x, s[1..], before), before, rank)
    ensures Chain([s[0]] + Insert(x, s[1..], before), before, rank)
  {
    var t := Insert(x, s[1..], before);
    var r := [s[0]] + t;
    forall i, j | 0 <= i < j < |r|
      ensures Ahead(r[i], r[j], before, rank)
    {
      if i == 0 {
        var e := t[j - 1];
        assert e in multiset(t);
        if e != x {
          assert e in s[1..];
          var k :| 0 <= k < |s[1..]| && s[1..][k] == e;
          assert Ahead(s[0], s[k + 1], before, rank);
        }
      } else {
        assert r[i] == t[i - 1] && r[j] == t[j - 1];
      }
    }
  }

  /** Sorting a list given in increasing rank orders it by `before`, then by rank. */
  lemma {:induction false} SortChain<T(!new)>(s: seq<T>, before: (T, T) -> bool, rank: T -> int)
    requires StrictWeak(before) && Increasing(s, rank)
    ensures Chain(SortBy(s, before), before, rank)
  {
    if s != [] {
      var init := s[..|s| - 1];
      var x := s[|s| - 1];
      SortChain(init, before, rank);
      forall e | e in SortBy(init, before)
        ensures rank(e) < rank(x)
      {
        assert e in multiset(SortBy(init, before));
      }
      InsertChain(x, SortBy(init, before), before, rank);
    }
  }

  /** Inserting an entry whose rank is new into a list in increasing rank, by rank. */
  lemma {:induction false} InsertIncreasing<T(!new)>(x: T, s: seq<T>, before: (T, T) -> bool, rank: T -> int)
    requires forall a, b :: before(a, b) <==> rank(a) < rank(b)
    requires Increasing(s, rank) && forall e :: e in s ==> rank(e) != rank(x)
    ensures Increasing(Insert(x, s, before), rank)
  {
    if s != [] && !before(x, s[0]) {
      InsertIncreasing(x, s[1..], before, rank);
      var r := Insert(x, s[1..], before);
      forall e | e in r
        ensures rank(s[0]) < rank(e)
      {
        assert e in multiset(r);
        if e != x {
          var k :| 0 <= k < |s[1..]| && s[1..][k] == e;
          assert s[k + 1] == e;
        }
      }
    }
  }

  /** Sorting by rank a list whose ranks are all different lists it in increasing rank. */
  lemma {:induction false} SortIncreasing<T(!new)>(s: seq<T>, before: (T, T) -> bool, rank: T -> int)
    requires forall a, b :: before(a, b) <==> rank(a) < rank(b)
    requires forall i, j :: 0 <= i < j < |s| ==> rank(s[i]) != rank(s[j])
    ensures Increasing(SortBy(s, before), rank)
  {
    if s != [] {
      var init := s[..|s| - 1];
      var x := s[|s| - 1];
      SortIncreasing(init, before, rank);
      var r := SortBy(init, before);
      forall e | e in r
        ensures rank(e) != rank(x)
      {
        assert e in multiset(init);
        var k :| 0 <= k < |init| && init[k] == e;
        assert s[k] == e;
      }
      InsertIncreasing(x, r, before, rank);
    }
  }

  /** Two entries come out swapped exactly when the second comes before the first. */
  lemma SortPair<T>(a: T, b: T, before: (T, T) -> bool)
    ensures SortBy([a, b], before) == if before(b, a) then [b, a] else [a, b]
  {
    assert [a][..0] == [];
    assert SortBy([a], before) == Insert(a, [], before) == [a];
    assert [a, b][..1] == [a];
    assert SortBy([a, b], before) == Insert(b, [a], before);
  }

  /** The first `n` entries of `s` once sorted, or all of them when there are fewer. */
  function Best<T>(s: seq<T>, before: (T, T) -> bool, n: nat): (r: seq<T>)
    ensures |r| <= n
  {
    var sorted := SortBy(s, before);
    sorted[..if |sorted| <= n then |sorted| else n]
  }

  /**
   * The best `n` of a list given in increasing rank: drawn from the list,
   * ordered by `before` and then by rank, and every entry left out comes
   * after all of them, which only happens when all `n` places are taken.
   */
  lemma BestChosen<T(!new)>(s: seq<T>, before: (T, T) -> bool, rank: T -> int, n: nat)
    requires StrictWeak(before) && Increasing(s, rank)
    ensures forall e :: e in Best(s, before, n) ==> e in s
    ensures Chain(Best(s, before, n), before, rank)
    ensures forall e :: e in s && e !in Best(s, before, n) ==>
              |Best(s, before, n)| == n && forall f :: f in Best(s, before, n) ==> Ahead(f, e, before, rank)
  {
    var sorted := SortBy(s, before);
    var r := Best(s, before, n);
    SortChain(s, before, rank);
    assert sorted == r + sorted[|r|..];
    forall e | e in r
      ensures e in s
    {
      assert e in multiset(sorted);
    }
    forall e | e in s && e !in r
      ensures |r| == n && forall f :: f in r ==> Ahead(f, e, before, rank)
    {
      BestLeftOut(s, before, rank, n, e);
    }
  }

  /** An entry of `s` outside its best `n` comes after all of them. */
  lemma BestLeftOut<T>(s: seq<T>, before: (T, T) -> bool, rank: T -> int, n: nat, e: T)
    requires Chain(SortBy(s, before), before, rank)
    requires e in s && e !in Best(s, before, n)
    ensures |Best(s, before, n)| == n && forall f :: f in Best(s, before, n) ==> Ahead(f, e, before, rank)
  {
    var sorted := SortBy(s, before);
    var r := Best(s, before, n);
    assert sorted == r + sorted[|r|..];
    assert e in multiset(sorted);
    TakeChain(sorted, |r|, before, rank, e);
  }

  /** An entry outside a chain's prefix comes after every entry of that prefix. */
  lemma TakeChain<T>(s: seq<T>, n: nat, before: (T, T) -> bool, rank: T -> int, e: T)
    requires Chain(s, before, rank) && n <= |s| && e in s[n..]
    ensures forall f :: f in s[..n] ==> Ahead(f, e, before, rank)
  {
    var k :| n <= k < |s| && s[k] == e;
    forall f | f in s[..n]
      ensures Ahead(f, e, before, rank)
    {
      var i :| 0 <= i < n && s[i] == f;
    }
  }
}
