/** A stable sort by a comparison, as `Array.prototype.sort` performs it (the
    ECMAScript specification requires the sort to be stable). The algorithm here
    is insertion: each element goes in front of the first later-sorted element it
    does not follow. For a comparison that is a total preorder the output of a
    stable sort is fixed by the input alone (see SortIsUnique), so the choice of
    algorithm does not matter. */
module StableSort {

  /** `leq(a, b)`: `a` may come before `b`. */
  ghost predicate TotalPreorder<T(!new)>(leq: (T, T) -> bool) {
    && (forall a, b :: leq(a, b) || leq(b, a))
    && (forall a, b, c :: leq(a, b) && leq(b, c) ==> leq(a, c))
  }

  ghost predicate Sorted<T>(s: seq<T>, leq: (T, T) -> bool) {
    forall i, j :: 0 <= i < j < |s| ==> leq(s[i], s[j])
  }

  /** `a` and `b` compare equal: a tie. */
  predicate Tied<T>(a: T, b: T, leq: (T, T) -> bool) {
    leq(a, b) && leq(b, a)
  }

  /** The elements of `s` tied with `x`, in the order they have in `s`. */
  function Ties<T>(s: seq<T>, x: T, leq: (T, T) -> bool): (r: seq<T>)
    ensures |r| <= |s|
  {
    if s == [] then []
    else (if Tied(x, s[0], leq) then [s[0]] else []) + Ties(s[1..], x, leq)
  }

  /** Inserts `x` in front of the first element it may precede. */
  function Insert<T>(x: T, s: seq<T>, leq: (T, T) -> bool): (r: seq<T>)
    ensures multiset(r) == multiset(s) + multiset{x}
  {
    if s == [] || leq(x, s[0]) then [x] + s
    else
      assert s == [s[0]] + s[1..];
      [s[0]] + Insert(x, s[1..], leq)
  }

  function Sort<T>(s: seq<T>, leq: (T, T) -> bool): (r: seq<T>)
    ensures multiset(r) == multiset(s)
    ensures |r| == |s|
  {
    if s == [] then []
    else
      assert s == [s[0]] + s[1..];
      Insert(s[0], Sort(s[1..], leq), leq)
  }

  lemma {:induction false} InsertSorted<T(!new)>(x: T, s: seq<T>, leq: (T, T) -> bool)
    requires TotalPreorder(leq) && Sorted(s, leq)
    ensures Sorted(Insert(x, s, leq), leq)
  {
    var r := Insert(x, s, leq);
    if s == [] || leq(x, s[0]) {
      forall i, j | 0 <= i < j < |r| ensures leq(r[i], r[j]) {
        if i > 0 {
          assert leq(s[i - 1], s[j - 1]);
        } else if j > 1 {
          assert leq(s[0], s[j - 1]);
        }
      }
    } else {
      var t := Insert(x, s[1..], leq);
      InsertSorted(x, s[1..], leq);
      assert leq(s[0], x);
      forall j | 0 <= j < |t| ensures leq(s[0], t[j]) {
        assert t[j] in multiset(t);
        if t[j] != x {
          assert t[j] in multiset(s[1..]);
          var k :| 0 <= k < |s[1..]| && s[1..][k] == t[j];
          assert leq(s[0], s[k + 1]);
        }
      }
      forall i, j | 0 <= i < j < |r| ensures leq(r[i], r[j]) {
        if i > 0 {
          assert leq(t[i - 1], t[j - 1]);
        } else {
          assert leq(s[0], t[j - 1]);
        }
      }
    }
  }

  /** Sorting yields an ordered sequence. */
  lemma {:induction false} SortSorted<T(!new)>(s: seq<T>, leq: (T, T) -> bool)
    requires TotalPreorder(leq)
    ensures Sorted(Sort(s, leq), leq)
  {
    if s != [] {
      SortSorted(s[1..], leq);
      InsertSorted(s[0], Sort(s[1..], leq), leq);
    }
  }

  lemma TiesCons<T>(h: T, t: seq<T>, x: T, leq: (T, T) -> bool)
    ensures Ties([h] + t, x, leq) == (if Tied(x, h, leq) then [h] else []) + Ties(t, x, leq)
  {
    assert ([h] + t)[1..] == t;
  }

  /** `z` strictly after `y` and `y` cannot both tie with `x`, so their tie
      contributions commute. */
  lemma TiesSwap<T(!new)>(x: T, y: T, z: T, rest: seq<T>, leq: (T, T) -> bool)
    requires TotalPreorder(leq)
    requires !leq(y, z)
    ensures var a := if Tied(x, z, leq) then [z] else [];
            var b := if Tied(x, y, leq) then [y] else [];
            a + (b + rest) == b + (a + rest)
  {
    var a := if Tied(x, z, leq) then [z] else [];
    var b := if Tied(x, y, leq) then [y] else [];
    assert a == [] || b == [];
    if a == [] {
      assert a + (b + rest) == b + rest == b + (a + rest);
    } else {
      assert a + (b + rest) == a + rest == b + (a + rest);
    }
  }

  /** Inserting behind the head: the ties of the result, unfolded one step. */
  lemma InsertBehindHead<T>(y: T, s: seq<T>, x: T, leq: (T, T) -> bool)
    requires s != [] && !leq(y, s[0])
    ensures Ties(Insert(y, s, leq), x, leq)
            == (if Tied(x, s[0], leq) then [s[0]] else []) + Ties(Insert(y, s[1..], leq), x, leq)
    ensures Ties(s, x, leq) == (if Tied(x, s[0], leq) then [s[0]] else []) + Ties(s[1..], x, leq)
  {
    TiesCons(s[0], Insert(y, s[1..], leq), x, leq);
    assert s == [s[0]] + s[1..];
    TiesCons(s[0], s[1..], x, leq);
  }

  lemma {:induction false} InsertTies<T(!new)>(y: T, s: seq<T>, x: T, leq: (T, T) -> bool)
    requires TotalPreorder(leq)
    ensures Ties(Insert(y, s, leq), x, leq) == (if Tied(x, y, leq) then [y] else []) + Ties(s, x, leq)
  {
    if s == [] || leq(y, s[0]) {
      TiesCons(y, s, x, leq);
    } else {
      InsertTies(y, s[1..], x, leq);
      InsertBehindHead(y, s, x, leq);
      TiesSwap(x, y, s[0], Ties(s[1..], x, leq), leq);
    }
  }

  /** Stability: for every `x`, the elements tied with `x` keep their relative order. */
  lemma {:induction false} SortStable<T(!new)>(s: seq<T>, x: T, leq: (T, T) -> bool)
    requires TotalPreorder(leq)
    ensures Ties(Sort(s, leq), x, leq) == Ties(s, x, leq)
  {
    if s != [] {
      SortStable(s[1..], x, leq);
      InsertTies(s[0], Sort(s[1..], leq), x, leq);
    }
  }

  /** A comparison under which everything ties (the comparator that always answers 0)
      leaves the order as it was. */
  lemma {:induction false} SortAllTied<T>(s: seq<T>, leq: (T, T) -> bool)
    requires forall a, b :: leq(a, b)
    ensures Sort(s, leq) == s
  {
    if s != [] {
      SortAllTied(s[1..], leq);
      assert [s[0]] + s[1..] == s;
    }
  }

  lemma SortedTiesHead<T(!new)>(p: seq<T>, q: seq<T>, leq: (T, T) -> bool)
    requires TotalPreorder(leq)
    requires multiset(p) == multiset(q)
    requires Sorted(p, leq) && Sorted(q, leq)
    requires forall x :: Ties(p, x, leq) == Ties(q, x, leq)
    requires p != []
    ensures q != [] && q[0] == p[0]
  {
    assert |q| == |multiset(q)| == |multiset(p)| == |p|;
    var x := p[0];
    assert leq(x, x);
    assert q[0] in multiset(p);
    assert x in multiset(q);
    var i :| 0 <= i < |p| && p[i] == q[0];
    var j :| 0 <= j < |q| && q[j] == x;
    assert leq(p[0], p[i]) && leq(q[0], q[j]);
    // q[0] ties with x, so both tie lists start at the head
    assert Ties(p, x, leq)[0] == x;
    assert Ties(q, x, leq)[0] == q[0];
  }

  lemma SortedTiesTail<T>(p: seq<T>, q: seq<T>, leq: (T, T) -> bool)
    requires p != [] && q != [] && p[0] == q[0]
    requires forall x :: Ties(p, x, leq) == Ties(q, x, leq)
    ensures forall y :: Ties(p[1..], y, leq) == Ties(q[1..], y, leq)
  {
    forall y ensures Ties(p[1..], y, leq) == Ties(q[1..], y, leq) {
      var a := if Tied(y, p[0], leq) then [p[0]] else [];
      assert Ties(p, y, leq) == a + Ties(p[1..], y, leq);
      assert Ties(q, y, leq) == a + Ties(q[1..], y, leq);
      assert Ties(p[1..], y, leq) == Ties(p, y, leq)[|a|..];
    }
  }

  lemma SortedTail<T>(p: seq<T>, leq: (T, T) -> bool)
    requires p != [] && Sorted(p, leq)
    ensures Sorted(p[1..], leq)
  {
    forall i, j | 0 <= i < j < |p[1..]| ensures leq(p[1..][i], p[1..][j]) {
      assert leq(p[i + 1], p[j + 1]);
    }
  }

  lemma MultisetTail<T>(p: seq<T>, q: seq<T>)
    requires p != [] && q != [] && p[0] == q[0] && multiset(p) == multiset(q)
    ensures multiset(p[1..]) == multiset(q[1..])
  {
    assert p == [p[0]] + p[1..] && q == [q[0]] + q[1..];
    assert multiset(p[1..]) == multiset(p) - multiset{p[0]};
    assert multiset(q[1..]) == multiset(q) - multiset{q[0]};
  }

  lemma {:induction false} SortedTiesDetermine<T(!new)>(p: seq<T>, q: seq<T>, leq: (T, T) -> bool)
    requires TotalPreorder(leq)
    requires multiset(p) == multiset(q)
    requires Sorted(p, leq) && Sorted(q, leq)
    requires forall x :: Ties(p, x, leq) == Ties(q, x, leq)
    ensures p == q
  {
    if p == [] {
      assert |q| == |multiset(q)| == 0;
    } else {
      SortedTiesHead(p, q, leq);
      SortedTiesTail(p, q, leq);
      MultisetTail(p, q);
      SortedTail(p, leq);
      SortedTail(q, leq);
      SortedTiesDetermine(p[1..], q[1..], leq);
      assert p == [p[0]] + p[1..] && q == [q[0]] + q[1..];
    }
  }

  /** Any ordered, stable rearrangement of `s` is `Sort(s, leq)`: every stable sort
      (TimSort, merge sort, insertion sort) computes the same sequence. */
  lemma SortIsUnique<T(!new)>(s: seq<T>, r: seq<T>, leq: (T, T) -> bool)
    requires TotalPreorder(leq)
    requires multiset(r) == multiset(s)
    requires Sorted(r, leq)
    requires forall x :: Ties(r, x, leq) == Ties(s, x, leq)
    ensures r == Sort(s, leq)
  {
    var q := Sort(s, leq);
    SortSorted(s, leq);
    forall x ensures Ties(r, x, leq) == Ties(q, x, leq) {
      SortStable(s, x, leq);
    }
    SortedTiesDetermine(r, q, leq);
  }

  predicate NoDuplicates<T(==)>(s: seq<T>) {
    forall i, j :: 0 <= i < j < |s| ==> s[i] != s[j]
  }

  lemma {:induction false} NoDuplicatesCount<T>(s: seq<T>, x: T)
    requires NoDuplicates(s)
    ensures multiset(s)[x] <= 1
  {
    if s != [] {
      NoDuplicatesCount(s[1..], x);
      assert s == [s[0]] + s[1..];
      if s[0] == x {
        assert x !in s[1..];
      }
    }
  }

  lemma DuplicateCount<T>(s: seq<T>, i: int, j: int)
    requires 0 <= i < j < |s| && s[i] == s[j]
    ensures multiset(s)[s[i]] >= 2
  {
    assert s == s[..i] + [s[i]] + s[i + 1..j] + [s[j]] + s[j + 1..];
  }

  /** Rearranging a duplicate-free sequence keeps it duplicate-free. */
  lemma PermutationNoDuplicates<T>(a: seq<T>, b: seq<T>)
    requires multiset(a) == multiset(b) && NoDuplicates(a)
    ensures NoDuplicates(b)
  {
    forall i, j | 0 <= i < j < |b| ensures b[i] != b[j] {
      if b[i] == b[j] {
        DuplicateCount(b, i, j);
        NoDuplicatesCount(a, b[i]);
      }
    }
  }
}
