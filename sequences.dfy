/**
 * `Array.prototype.filter` on immutable sequences: the selected elements, in
 * order, together with what is promised of it.
 */
module Sequences {

  /** The elements of `s` on which `keep` holds, in their original order. */
  function FilterBy<T>(s: seq<T>, keep: T -> bool): (r: seq<T>)
    ensures |r| <= |s|
    ensures forall k :: 0 <= k < |r| ==> r[k] in s && keep(r[k])
    ensures forall i :: 0 <= i < |s| && keep(s[i]) ==> s[i] in r
  {
    if s == [] then [] else (if keep(s[0]) then [s[0]] else []) + FilterBy(s[1..], keep)
  }

  /** Every position is smaller than the ones after it. */
  predicate StrictlyAscending(ps: seq<nat>)
  {
    forall k, l :: 0 <= k < l < |ps| ==> ps[k] < ps[l]
  }

  /** The positions of `s` whose element `keep` accepts, ascending. */
  ghost function Positions<T>(s: seq<T>, keep: T -> bool): (r: seq<nat>)
    ensures forall k :: 0 <= k < |r| ==> r[k] < |s|
  {
    if s == [] then []
    else Positions(s[..|s| - 1], keep) + (if keep(s[|s| - 1]) then [|s| - 1] else [])
  }

  /** The positions are listed in strictly ascending order. */
  lemma {:induction false} PositionsAscending<T>(s: seq<T>, keep: T -> bool)
    ensures StrictlyAscending(Positions(s, keep))
  {
    if s != [] {
      var init := s[..|s| - 1];
      var ps, extra := Positions(init, keep), if keep(s[|s| - 1]) then [|s| - 1] else [];
      PositionsAscending(init, keep);
      assert Positions(s, keep) == ps + extra;
      forall k, l | 0 <= k < l < |ps + extra|
        ensures (ps + extra)[k] < (ps + extra)[l]
      {
        if l >= |ps| {
          assert k < |ps| && (ps + extra)[l] == |init|;
          assert (ps + extra)[k] == ps[k] < |init|;
        } else {
          assert (ps + extra)[k] == ps[k] && (ps + extra)[l] == ps[l];
        }
      }
    }
  }

  /** A position is listed exactly when `keep` accepts the element there. */
  lemma {:induction false} PositionsExact<T>(s: seq<T>, keep: T -> bool, i: nat)
    requires i < |s|
    ensures i in Positions(s, keep) <==> keep(s[i])
  {
    var init := s[..|s| - 1];
    var ps := Positions(init, keep);
    if i < |s| - 1 {
      PositionsExact(init, keep, i);
      assert init[i] == s[i];
    }
    assert |s| - 1 !in ps;
  }

  /**
   * The filter keeps exactly the accepted elements in their original relative
   * order: the k-th result is the element at the k-th accepted position.
   */
  lemma {:induction false} FilterIsSelection<T>(s: seq<T>, keep: T -> bool)
    ensures var r, ps := FilterBy(s, keep), Positions(s, keep);
      |r| == |ps| && forall k :: 0 <= k < |r| ==> r[k] == s[ps[k]]
  {
    if s != [] {
      var init, last := s[..|s| - 1], s[|s| - 1];
      FilterIsSelection(init, keep);
      assert s == init + [last];
      FilterAppend(init, [last], keep);
      assert FilterBy([last], keep) == if keep(last) then [last] else [];
    }
  }

  /** Multiplicities: an accepted element keeps every copy, a rejected one none. */
  lemma {:induction false} FilterCounts<T>(s: seq<T>, keep: T -> bool, x: T)
    ensures multiset(FilterBy(s, keep))[x] == if keep(x) then multiset(s)[x] else 0
  {
    if s != [] {
      FilterCounts(s[1..], keep, x);
      assert s == [s[0]] + s[1..];
    }
  }

  /** Filtering a concatenation filters each part. */
  lemma {:induction false} FilterAppend<T>(a: seq<T>, b: seq<T>, keep: T -> bool)
    ensures FilterBy(a + b, keep) == FilterBy(a, keep) + FilterBy(b, keep)
  {
    if a == [] {
      assert a + b == b;
    } else {
      assert (a + b)[0] == a[0];
      assert (a + b)[1..] == a[1..] + b;
      FilterAppend(a[1..], b, keep);
    }
  }

  /** The filter returns its input unchanged exactly when every element is accepted. */
  lemma {:induction false} FilterKeepsAll<T>(s: seq<T>, keep: T -> bool)
    ensures FilterBy(s, keep) == s <==> forall i :: 0 <= i < |s| ==> keep(s[i])
  {
    if s != [] {
      FilterKeepsAll(s[1..], keep);
      if !keep(s[0]) {
        assert |FilterBy(s, keep)| < |s|;
      }
    }
  }

  /** The filter returns nothing exactly when no element is accepted. */
  lemma FilterDropsAll<T>(s: seq<T>, keep: T -> bool)
    ensures FilterBy(s, keep) == [] <==> forall i :: 0 <= i < |s| ==> !keep(s[i])
  {
    if FilterBy(s, keep) != [] {
      var x := FilterBy(s, keep)[0];
      var i :| 0 <= i < |s| && s[i] == x;
      assert keep(s[i]);
    }
  }

  /** Filtering a filtered sequence again with the same test changes nothing. */
  lemma FilterIdempotent<T>(s: seq<T>, keep: T -> bool)
    ensures FilterBy(FilterBy(s, keep), keep) == FilterBy(s, keep)
  {
    FilterKeepsAll(FilterBy(s, keep), keep);
  }

  /** Two tests that agree on every element give the same result. */
  lemma {:induction false} FilterCongruent<T>(s: seq<T>, k1: T -> bool, k2: T -> bool)
    requires forall i :: 0 <= i < |s| ==> k1(s[i]) == k2(s[i])
    ensures FilterBy(s, k1) == FilterBy(s, k2)
  {
    if s != [] {
      FilterCongruent(s[1..], k1, k2);
    }
  }
}
