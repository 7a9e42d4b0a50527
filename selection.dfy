/** Filtering a movie list by a conjunction of criteria, as `Array.prototype.filter`
    does: an order-preserving selection that neither adds nor duplicates. */
module Selection {
  import opened MovieModel
  import opened Text

  /** One predicate of the catalog view. `TitleContains` expects an already
      lower-cased query and compares it with the lower-cased title. */
  datatype Criterion =
    | TitleContains(query: string)
    | InGenre(genre: string)
    | YearFrom(from: int)
    | YearTo(to: int)

  predicate Holds(c: Criterion, m: Movie) {
    match c
    case TitleContains(q) => Contains(ToLower(m.title), q)
    case InGenre(g) => g in m.genres
    case YearFrom(y) => m.year >= y
    case YearTo(y) => m.year <= y
  }

  predicate HoldsAll(cs: seq<Criterion>, m: Movie) {
    forall c :: c in cs ==> Holds(c, m)
  }

  /** The movies of `s` meeting every criterion of `cs`, in their order in `s`. */
  function Filter(s: seq<Movie>, cs: seq<Criterion>): (r: seq<Movie>)
    ensures |r| <= |s|
    ensures forall m :: m in r ==> m in s && HoldsAll(cs, m)
  {
    if s == [] then []
    else (if HoldsAll(cs, s[0]) then [s[0]] else []) + Filter(s[1..], cs)
  }

  /** `a` is `b` with some elements removed, the rest in order. */
  predicate IsSubsequence(a: seq<Movie>, b: seq<Movie>) {
    if a == [] then true
    else if b == [] then false
    else (a[0] == b[0] && IsSubsequence(a[1..], b[1..])) || IsSubsequence(a, b[1..])
  }

  /** Completeness and no duplication: each movie occurs in the result exactly as
      often as in the input if it meets the criteria, and not at all otherwise. */
  lemma {:induction false} FilterCount(s: seq<Movie>, cs: seq<Criterion>, m: Movie)
    ensures multiset(Filter(s, cs))[m] == if HoldsAll(cs, m) then multiset(s)[m] else 0
  {
    if s != [] {
      FilterCount(s[1..], cs, m);
      var head := if HoldsAll(cs, s[0]) then [s[0]] else [];
      assert Filter(s, cs) == head + Filter(s[1..], cs);
      assert multiset(Filter(s, cs)) == multiset(head) + multiset(Filter(s[1..], cs));
      assert s == [s[0]] + s[1..];
      assert multiset(s) == multiset{s[0]} + multiset(s[1..]);
    }
  }

  /** The selection keeps the input order. */
  lemma {:induction false} FilterSubsequence(s: seq<Movie>, cs: seq<Criterion>)
    ensures IsSubsequence(Filter(s, cs), s)
  {
    if s != [] {
      FilterSubsequence(s[1..], cs);
      var t := Filter(s[1..], cs);
      if HoldsAll(cs, s[0]) {
        assert Filter(s, cs) == [s[0]] + t;
        assert ([s[0]] + t)[1..] == t;
      } else {
        assert Filter(s, cs) == t;
      }
    }
  }

  /** Filtering by `cs` and then by `ds` is filtering once by both. */
  lemma {:induction false} FilterThen(s: seq<Movie>, cs: seq<Criterion>, ds: seq<Criterion>)
    ensures Filter(Filter(s, cs), ds) == Filter(s, cs + ds)
  {
    if s != [] {
      FilterThen(s[1..], cs, ds);
      var t := Filter(s[1..], cs);
      assert HoldsAll(cs + ds, s[0]) <==> HoldsAll(cs, s[0]) && HoldsAll(ds, s[0]);
      if HoldsAll(cs, s[0]) {
        assert Filter(s, cs) == [s[0]] + t;
        assert ([s[0]] + t)[1..] == t;
        assert Filter(Filter(s, cs), ds) == (if HoldsAll(ds, s[0]) then [s[0]] else []) + Filter(t, ds);
      } else {
        assert Filter(s, cs) == t;
      }
    }
  }

  /** Criteria every movie meets remove nothing (in particular, no criteria at all). */
  lemma {:induction false} FilterKeepsAll(s: seq<Movie>, cs: seq<Criterion>)
    requires forall m :: m in s ==> HoldsAll(cs, m)
    ensures Filter(s, cs) == s
  {
    if s != [] {
      FilterKeepsAll(s[1..], cs);
      assert [s[0]] + s[1..] == s;
    }
  }

  lemma HoldsAllConcat(cs: seq<Criterion>, ds: seq<Criterion>, m: Movie)
    ensures HoldsAll(cs + ds, m) <==> HoldsAll(cs, m) && HoldsAll(ds, m)
  {
    if HoldsAll(cs, m) && HoldsAll(ds, m) {
      forall c | c in cs + ds ensures Holds(c, m) {
        assert c in cs || c in ds;
      }
    }
  }

  lemma HoldsAllSingle(c: Criterion, m: Movie)
    ensures HoldsAll([c], m) <==> Holds(c, m)
  {
    assert c in [c];
  }
}
