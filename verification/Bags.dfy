/** Sums of multisets of block handles, one multiset per holder. */
module Bags {
  function Sum(bags: seq<multiset<nat>>): multiset<nat> {
    if bags == [] then multiset{} else Sum(bags[..|bags| - 1]) + bags[|bags| - 1]
  }

  /** The sum without entry i. */
  function Rest(bags: seq<multiset<nat>>, i: nat): multiset<nat>
    requires i < |bags|
  {
    Sum(bags[..i] + bags[i + 1..])
  }

  lemma Swap(x: multiset<nat>, y: multiset<nat>, z: multiset<nat>)
    ensures x + y + z == x + z + y
  {}

  lemma {:induction false} SumInsert(a: seq<multiset<nat>>, y: multiset<nat>, b: seq<multiset<nat>>)
    ensures Sum(a + [y] + b) == Sum(a + b) + y
  {
    if b == [] {
      assert a + [y] + b == a + [y] && a + b == a;
      assert (a + [y])[..|a|] == a;
    } else {
      var n := |b| - 1;
      assert (a + [y] + b)[..|a| + 1 + n] == a + [y] + b[..n];
      assert (a + b)[..|a| + n] == a + b[..n];
      SumInsert(a, y, b[..n]);
      Swap(Sum(a + b[..n]), y, b[n]);
    }
  }

  lemma SplitAt(bags: seq<multiset<nat>>, i: nat)
    requires i < |bags|
    ensures bags == bags[..i] + [bags[i]] + bags[i + 1..]
  {}

  lemma SumSplit(bags: seq<multiset<nat>>, i: nat)
    requires i < |bags|
    ensures Sum(bags) == Rest(bags, i) + bags[i]
  {
    hide Sum;
    SplitAt(bags, i);
    SumInsert(bags[..i], bags[i], bags[i + 1..]);
  }

  lemma SumUpdate(bags: seq<multiset<nat>>, i: nat, h: multiset<nat>)
    requires i < |bags|
    ensures Sum(bags[i := h]) == Rest(bags, i) + h
  {
    hide Sum;
    var after := bags[i := h];
    SumSplit(after, i);
    assert after[..i] + after[i + 1..] == bags[..i] + bags[i + 1..];
  }

  /** Any other entry is part of the rest. */
  lemma RestContains(bags: seq<multiset<nat>>, i: nat, j: nat)
    requires i < |bags| && j < |bags| && i != j
    ensures bags[j] <= Rest(bags, i)
  {
    hide Sum;
    var rest := bags[..i] + bags[i + 1..];
    var k := if j < i then j else j - 1;
    assert rest[k] == bags[j];
    SumSplit(rest, k);
  }
}
