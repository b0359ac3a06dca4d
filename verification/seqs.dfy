/** Ordered-collection helpers: distinctness, Python slicing `xs[:n]`, and order-preserving de-duplication. */
module Seqs {

  predicate Distinct<T(==)>(xs: seq<T>) {
    forall i, j :: 0 <= i < j < |xs| ==> xs[i] != xs[j]
  }

  /** Python's `xs[:n]`. */
  function Take<T>(xs: seq<T>, n: nat): (r: seq<T>)
    ensures |r| == if |xs| < n then |xs| else n
    ensures r == xs[..|r|]
  {
    if |xs| <= n then xs else xs[..n]
  }

  lemma TakeDistinct<T>(xs: seq<T>, n: nat)
    requires Distinct(xs)
    ensures Distinct(Take(xs, n))
  {
  }

  /** Position of the first occurrence of `x` in `xs`. */
  function FirstIndex<T(==)>(xs: seq<T>, x: T): (r: nat)
    requires x in xs
    ensures r < |xs| && xs[r] == x && x !in xs[..r]
  {
    if xs[0] == x then 0
    else
      var k := FirstIndex(xs[1..], x);
      assert xs[..k + 1] == [xs[0]] + xs[1..][..k];
      k + 1
  }

  /** A first occurrence inside a prefix is the first occurrence in the whole sequence. */
  lemma FirstIndexPrefix<T>(xs: seq<T>, n: nat, x: T)
    requires n <= |xs| && x in xs[..n]
    ensures FirstIndex(xs, x) == FirstIndex(xs[..n], x)
  {
    var b := FirstIndex(xs[..n], x);
    assert xs[..b] == xs[..n][..b];
  }

  /**
   * Keep the first occurrence of every element, in order: the `seen`/`out`
   * loop, with `out` holding exactly the elements seen so far.
   */
  function Dedupe<T(==,!new)>(xs: seq<T>): (r: seq<T>)
    ensures Distinct(r)
    ensures forall x :: x in r <==> x in xs
    ensures forall i, j :: 0 <= i < j < |r| ==> FirstIndex(xs, r[i]) < FirstIndex(xs, r[j])
    decreases |xs|
  {
    if |xs| == 0 then []
    else
      var n := |xs| - 1;
      var init := xs[..n];
      var out := Dedupe(init);
      var x := xs[n];
      assert xs == init + [x];
      assert forall y :: y in out ==> FirstIndex(xs, y) == FirstIndex(init, y) by {
        forall y | y in out ensures FirstIndex(xs, y) == FirstIndex(init, y) {
          FirstIndexPrefix(xs, n, y);
        }
      }
      if x in out then out
      else
        assert FirstIndex(xs, x) == n;
        out + [x]
  }

  /** An element survives de-duplication exactly when it occurs in the input. */
  lemma DedupeMember<T(!new)>(xs: seq<T>, x: T)
    ensures x in Dedupe(xs) <==> x in xs
  {
  }

  /** De-duplicating a sequence that has no duplicates changes nothing. */
  lemma {:induction false} DedupeOfDistinct<T(!new)>(xs: seq<T>)
    requires Distinct(xs)
    ensures Dedupe(xs) == xs
    decreases |xs|
  {
    if |xs| > 0 {
      var n := |xs| - 1;
      DedupeOfDistinct(xs[..n]);
      assert xs[n] !in xs[..n];
      assert xs == xs[..n] + [xs[n]];
    }
  }
}
