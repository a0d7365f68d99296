/** Order-preserving list combinators used by the rules (`Array.prototype.filter`/`map`, Ramda's
    `filter`, `map` and `innerJoin`), with the facts the proofs need about them. */
module Seqs {

  /** The elements of `s` that satisfy `p`, in their original order. */
  function Filter<T>(p: T -> bool, s: seq<T>): (r: seq<T>)
    ensures |r| <= |s|
  {
    if s == [] then [] else (if p(s[0]) then [s[0]] else []) + Filter(p, s[1..])
  }

  /** Every element the filter keeps satisfies `p` and comes from some position of `s`. */
  lemma {:induction false} FilterSource<T>(p: T -> bool, s: seq<T>, k: nat) returns (i: nat)
    requires k < |Filter(p, s)|
    ensures i < |s| && s[i] == Filter(p, s)[k] && p(s[i])
  {
    FilterCons(p, s);
    if p(s[0]) && k == 0 {
      i := 0;
    } else {
      var k' := if p(s[0]) then k - 1 else k;
      var i' := FilterSource(p, s[1..], k');
      i := i' + 1;
    }
  }

  /** Every element of `s` that satisfies `p` is kept, at some position of the filter. */
  lemma {:induction false} FilterTarget<T>(p: T -> bool, s: seq<T>, i: nat) returns (k: nat)
    requires i < |s| && p(s[i])
    ensures k < |Filter(p, s)| && Filter(p, s)[k] == s[i]
  {
    FilterCons(p, s);
    if i == 0 {
      k := 0;
    } else {
      var k' := FilterTarget(p, s[1..], i - 1);
      k := if p(s[0]) then k' + 1 else k';
    }
  }

  /** `f` applied to every element of `s`, position by position. */
  function Map<T, U>(f: T -> U, s: seq<T>): (r: seq<U>)
    ensures |r| == |s|
    ensures forall i :: 0 <= i < |s| ==> r[i] == f(s[i])
  {
    if s == [] then [] else [f(s[0])] + Map(f, s[1..])
  }

  /** Filtering distributes over concatenation. */
  lemma {:induction false} FilterAppend<T>(p: T -> bool, a: seq<T>, b: seq<T>)
    ensures Filter(p, a + b) == Filter(p, a) + Filter(p, b)
  {
    if a == [] {
      assert a + b == b;
    } else {
      var head := if p(a[0]) then [a[0]] else [];
      assert (a + b)[0] == a[0] && (a + b)[1..] == a[1..] + b;
      assert Filter(p, a + b) == head + Filter(p, a[1..] + b);
      FilterAppend(p, a[1..], b);
      assert Filter(p, a) == head + Filter(p, a[1..]);
    }
  }

  /** Mapping distributes over concatenation. */
  lemma MapAppend<T, U>(f: T -> U, a: seq<T>, b: seq<T>)
    ensures Map(f, a + b) == Map(f, a) + Map(f, b)
  {
  }

  /** A filter keeps nothing exactly when no element satisfies the predicate. */
  lemma FilterEmptyIff<T>(p: T -> bool, s: seq<T>)
    ensures Filter(p, s) == [] <==> forall i :: 0 <= i < |s| ==> !p(s[i])
  {
    if Filter(p, s) != [] {
      var i := FilterSource(p, s, 0);
    }
    if exists i :: 0 <= i < |s| && p(s[i]) {
      var i :| 0 <= i < |s| && p(s[i]);
      var k := FilterTarget(p, s, i);
    }
  }

  /** Filtering splits at a kept position `k`: what comes before it, then `s[k]` and the rest. */
  lemma FilterSplitAt<T>(p: T -> bool, s: seq<T>, k: nat)
    requires k < |s| && p(s[k])
    ensures var before := Filter(p, s[..k]);
            && Filter(p, s) == before + Filter(p, s[k..])
            && |Filter(p, s)| > |before| && Filter(p, s)[|before|] == s[k]
  {
    assert s == s[..k] + s[k..];
    FilterAppend(p, s[..k], s[k..]);
    FilterCons(p, s[k..]);
  }

  /** A filter that keeps every element changes nothing. */
  lemma {:induction false} FilterKeepsAll<T>(p: T -> bool, s: seq<T>)
    requires forall i :: 0 <= i < |s| ==> p(s[i])
    ensures Filter(p, s) == s
  {
    if s != [] {
      FilterKeepsAll(p, s[1..]);
    }
  }

  /** Two filters in a row are one filter by the conjunction (`pq` is `p && q`). */
  lemma {:induction false} FilterTwice<T>(p: T -> bool, q: T -> bool, pq: T -> bool, s: seq<T>)
    requires forall i :: 0 <= i < |s| ==> pq(s[i]) == (p(s[i]) && q(s[i]))
    ensures Filter(q, Filter(p, s)) == Filter(pq, s)
  {
    if s != [] {
      FilterTwice(p, q, pq, s[1..]);
      var head := if p(s[0]) then [s[0]] else [];
      FilterAppend(q, head, Filter(p, s[1..]));
    }
  }

  /** Filtering a non-empty sequence: the head, if kept, followed by the filtered tail. */
  lemma FilterCons<T>(p: T -> bool, s: seq<T>)
    requires s != []
    ensures Filter(p, s) == (if p(s[0]) then [s[0]] else []) + Filter(p, s[1..])
  {
  }

  /** Two distinct positions satisfying `p` make the filter keep at least two elements. */
  lemma {:induction false} FilterTwoFromPositions<T>(p: T -> bool, s: seq<T>, i: nat, j: nat)
    requires i < j < |s| && p(s[i]) && p(s[j])
    ensures |Filter(p, s)| >= 2
  {
    FilterCons(p, s);
    if i == 0 {
      var k := FilterTarget(p, s[1..], j - 1);
    } else {
      FilterTwoFromPositions(p, s[1..], i - 1, j - 1);
    }
  }

  /** A filter that keeps two elements found them at two distinct positions. */
  lemma {:induction false} PositionsFromFilterTwo<T>(p: T -> bool, s: seq<T>) returns (i: nat, j: nat)
    requires |Filter(p, s)| >= 2
    ensures i < j < |s| && p(s[i]) && p(s[j])
  {
    FilterCons(p, s);
    var rest := s[1..];
    if p(s[0]) {
      var k := FilterSource(p, rest, 0);
      i, j := 0, k + 1;
    } else {
      var i', j' := PositionsFromFilterTwo(p, rest);
      i, j := i' + 1, j' + 1;
    }
  }

  /** At least two elements satisfy `p` exactly when two distinct positions do. */
  lemma FilterAtLeastTwo<T>(p: T -> bool, s: seq<T>)
    ensures |Filter(p, s)| >= 2 <==> exists i, j :: 0 <= i < j < |s| && p(s[i]) && p(s[j])
  {
    if exists i, j :: 0 <= i < j < |s| && p(s[i]) && p(s[j]) {
      var i, j :| 0 <= i < j < |s| && p(s[i]) && p(s[j]);
      FilterTwoFromPositions(p, s, i, j);
    }
    if |Filter(p, s)| >= 2 {
      var i, j := PositionsFromFilterTwo(p, s);
    }
  }
}
