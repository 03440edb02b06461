/** Filtering a sequence, and the distinct elements of a sequence in first-met order. */
module Seqs {
  function Filter<T>(s: seq<T>, keep: T -> bool): seq<T> {
    if s == [] then []
    else Filter(s[..|s| - 1], keep) + if keep(s[|s| - 1]) then [s[|s| - 1]] else []
  }

  lemma SplitLast<T>(s: seq<T>)
    requires s != []
    ensures s[..|s| - 1] + [s[|s| - 1]] == s
  {}

  lemma {:induction false} FilterConcat<T>(s: seq<T>, t: seq<T>, keep: T -> bool)
    ensures Filter(s + t, keep) == Filter(s, keep) + Filter(t, keep)
  {
    if t == [] {
      assert s + t == s;
    } else {
      var n := |t| - 1;
      assert (s + t)[..|s| + n] == s + t[..n];
      FilterConcat(s, t[..n], keep);
    }
  }

  lemma {:induction false} FilterIn<T>(s: seq<T>, keep: T -> bool, x: T)
    ensures x in Filter(s, keep) <==> x in s && keep(x)
  {
    if s != [] {
      SplitLast(s);
      FilterIn(s[..|s| - 1], keep, x);
      assert x in s <==> x in s[..|s| - 1] || x == s[|s| - 1];
    }
  }

  lemma {:induction false} FilterCount<T>(s: seq<T>, keep: T -> bool, x: T)
    ensures multiset(Filter(s, keep))[x] == if keep(x) then multiset(s)[x] else 0
  {
    if s != [] {
      SplitLast(s);
      FilterCount(s[..|s| - 1], keep, x);
      assert multiset(s) == multiset(s[..|s| - 1]) + multiset{s[|s| - 1]};
    }
  }

  /** Filters that agree on the elements of s filter s alike. */
  lemma {:induction false} FilterAgree<T>(s: seq<T>, f: T -> bool, g: T -> bool)
    requires forall x | x in s :: f(x) == g(x)
    ensures Filter(s, f) == Filter(s, g)
  {
    if s != [] {
      assert s[|s| - 1] in s;
      assert forall x | x in s[..|s| - 1] :: x in s;
      FilterAgree(s[..|s| - 1], f, g);
    }
  }

  lemma {:induction false} FilterAll<T>(s: seq<T>, keep: T -> bool)
    requires forall x | x in s :: keep(x)
    ensures Filter(s, keep) == s
  {
    if s != [] {
      SplitLast(s);
      assert s[|s| - 1] in s;
      assert forall x | x in s[..|s| - 1] :: x in s;
      FilterAll(s[..|s| - 1], keep);
    }
  }

  /** Two filters may be applied in either order. */
  lemma {:induction false} FilterSwap<T>(s: seq<T>, f: T -> bool, g: T -> bool)
    ensures Filter(Filter(s, f), g) == Filter(Filter(s, g), f)
  {
    if s != [] {
      var front, x := s[..|s| - 1], s[|s| - 1];
      FilterSwap(front, f, g);
      if f(x) { FilterSnoc(Filter(front, f), x, g); }
      if g(x) { FilterSnoc(Filter(front, g), x, f); }
      SplitLast(s);
      FilterSnoc(front, x, f);
      FilterSnoc(front, x, g);
    }
  }

  /** The distinct elements of s, each where it is first met. */
  function Firsts<T(==)>(s: seq<T>): seq<T> {
    if s == [] then []
    else
      var r := Firsts(s[..|s| - 1]);
      if s[|s| - 1] in r then r else r + [s[|s| - 1]]
  }

  ghost predicate Distinct<T>(s: seq<T>) {
    forall i, j | 0 <= i < j < |s| :: s[i] != s[j]
  }

  lemma {:induction false} FirstsElements<T>(s: seq<T>)
    ensures Distinct(Firsts(s))
    ensures forall x :: x in Firsts(s) <==> x in s
    ensures s != [] ==> Firsts(s) != [] && Firsts(s)[0] == s[0]
  {
    if s != [] {
      FirstsElements(s[..|s| - 1]);
      SplitLast(s);
      assert forall x :: x in s <==> x in s[..|s| - 1] || x == s[|s| - 1];
    }
  }

  lemma FilterSnoc<T>(s: seq<T>, x: T, keep: T -> bool)
    ensures Filter(s + [x], keep) == if keep(x) then Filter(s, keep) + [x] else Filter(s, keep)
  {
    assert (s + [x])[..|s|] == s;
  }

  lemma FirstsSnoc<T>(s: seq<T>, x: T)
    ensures Firsts(s + [x]) == if x in s then Firsts(s) else Firsts(s) + [x]
  {
    assert (s + [x])[..|s|] == s;
    FirstsElements(s);
  }

  /** Deleting elements commutes with taking first occurrences. */
  lemma {:induction false} FirstsFilter<T>(s: seq<T>, keep: T -> bool)
    ensures Firsts(Filter(s, keep)) == Filter(Firsts(s), keep)
  {
    if s != [] {
      var front, x := s[..|s| - 1], s[|s| - 1];
      SplitLast(s);
      FirstsFilter(front, keep);
      FirstsSnoc(front, x);
      FilterSnoc(Firsts(front), x, keep);
      FilterSnoc(front, x, keep);
      if keep(x) {
        FirstsSnoc(Filter(front, keep), x);
        FilterIn(front, keep, x);
      }
    }
  }

  /** The elements met so far come first among all the elements. */
  lemma {:induction false} FirstsPrefix<T>(s: seq<T>, i: nat)
    requires i <= |s|
    ensures Firsts(s[..i]) <= Firsts(s)
    decreases |s|
  {
    if i < |s| {
      FirstsPrefix(s[..|s| - 1], i);
      assert s[..|s| - 1][..i] == s[..i];
    } else {
      assert s[..i] == s;
    }
  }

  lemma DistinctSnoc<T>(s: seq<T>, x: T)
    ensures Distinct(s + [x]) <==> Distinct(s) && x !in s
  {
    var t := s + [x];
    assert forall i | 0 <= i < |s| :: t[i] == s[i];
    assert t[|s|] == x;
    if Distinct(t) {
      assert forall i | 0 <= i < |s| :: t[i] != t[|s|];
    }
  }

  lemma FirstsEmpty<T>(s: seq<T>)
    ensures Firsts(s[..0]) == []
  {}

  lemma PrefixSnoc<T>(s: seq<T>, i: nat)
    requires i < |s|
    ensures s[..i + 1] == s[..i] + [s[i]]
  {}

  /** One more element of a walk: what has been met, and what is met next. */
  lemma FirstsNext<T>(s: seq<T>, i: nat)
    requires i < |s|
    ensures var r := Firsts(s[..i]); Firsts(s[..i + 1]) == if s[i] in r then r else r + [s[i]]
    ensures Firsts(s[..i + 1]) <= Firsts(s)
  {
    PrefixSnoc(s, i);
    FirstsSnoc(s[..i], s[i]);
    FirstsElements(s[..i]);
    FirstsPrefix(s, i + 1);
  }

  lemma {:induction false} DistinctSize<T>(s: seq<T>, elements: set<T>)
    requires Distinct(s) && forall x :: x in s <==> x in elements
    ensures |s| == |elements|
  {
    if s == [] {
      assert elements == {};
    } else {
      var rest, last := s[..|s| - 1], s[|s| - 1];
      SplitLast(s);
      assert forall x :: x in s <==> x in rest || x == last;
      assert last !in rest;
      DistinctSize(rest, elements - {last});
    }
  }

  lemma FilterFirst<T>(s: seq<T>, keep: T -> bool)
    requires s != [] && keep(s[0])
    ensures Filter(s, keep) != [] && Filter(s, keep)[0] == s[0]
  {
    assert s == [s[0]] + s[1..];
    FilterConcat([s[0]], s[1..], keep);
    assert [s[0]][..0] == [];
  }

  lemma FilterSecond<T>(s: seq<T>, keep: T -> bool)
    requires |s| >= 2 && !keep(s[0]) && keep(s[1])
    ensures Filter(s, keep) != [] && Filter(s, keep)[0] == s[1]
  {
    assert s == [s[0]] + s[1..];
    FilterConcat([s[0]], s[1..], keep);
    assert [s[0]][..0] == [];
    FilterFirst(s[1..], keep);
  }
}
