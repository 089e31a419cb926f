/**
 * Adjacent-duplicate suppression, stated on its own.
 *
 * CollapseRuns drops every element that equals its immediate predecessor;
 * it is the reference behaviour of the `lastFoundId` check in
 * MovieScraper.getMovies. Its meaning is pinned down by run-length
 * encoding: every sequence is its collapsed form with each element repeated
 * the length of its run (ExpandRunLengths), and a sequence without adjacent
 * repeats, expanded by any positive run lengths, collapses back to itself
 * with those same lengths (CollapseOfExpand). Only neighbours are compared,
 * so an element that comes back later, after a different one, is kept.
 */
module Runs {

  /** No element equals the one just before it. */
  ghost predicate NoAdjacentRepeats<T>(s: seq<T>) {
    forall i, j :: 0 <= i < j < |s| && j == i + 1 ==> s[i] != s[j]
  }

  /** `s` with every element that equals its immediate predecessor dropped. */
  function CollapseRuns<T(==)>(s: seq<T>): (r: seq<T>)
    ensures |r| <= |s|
    ensures s != [] ==> r != [] && r[|r| - 1] == s[|s| - 1]
  {
    if s == [] then []
    else
      var init := s[..|s| - 1];
      if init != [] && s[|s| - 1] == init[|init| - 1] then CollapseRuns(init)
      else CollapseRuns(init) + [s[|s| - 1]]
  }

  /** `n` copies of `x`. */
  function Repeat<T>(x: T, n: nat): seq<T> {
    seq(n, _ => x)
  }

  predicate AllPositive(counts: seq<nat>) {
    forall i :: 0 <= i < |counts| ==> counts[i] >= 1
  }

  /**
   * Each `r[i]` replaced by `counts[i]` copies of itself (the two sequences
   * are paired from their ends when their lengths differ).
   */
  function Expand<T>(r: seq<T>, counts: seq<nat>): seq<T> {
    if r == [] || counts == [] then []
    else Expand(r[..|r| - 1], counts[..|counts| - 1]) + Repeat(r[|r| - 1], counts[|counts| - 1])
  }

  /** The length of each maximal run of equal neighbours in `s`, in order. */
  function RunLengths<T(==)>(s: seq<T>): (counts: seq<nat>)
    ensures s != [] ==> counts != []
  {
    if s == [] then []
    else
      var init := s[..|s| - 1];
      var c := RunLengths(init);
      if init != [] && s[|s| - 1] == init[|init| - 1] then Bump(c)
      else c + [1]
  }

  /** `c` with its last entry one larger. */
  function Bump(c: seq<nat>): seq<nat>
    requires c != []
  {
    c[..|c| - 1] + [c[|c| - 1] + 1]
  }

  /** There is one run length per collapsed element, and every run is non-empty. */
  lemma {:induction false} RunLengthsShape<T>(s: seq<T>)
    ensures |RunLengths(s)| == |CollapseRuns(s)|
    ensures AllPositive(RunLengths(s))
  {
    if s != [] {
      RunLengthsShape(s[..|s| - 1]);
    }
  }

  /** The collapsed sequence never holds two equal neighbours. */
  lemma {:induction false} CollapseNoAdjacentRepeats<T>(s: seq<T>)
    ensures NoAdjacentRepeats(CollapseRuns(s))
  {
    if s != [] {
      var init := s[..|s| - 1];
      CollapseNoAdjacentRepeats(init);
    }
  }

  /** The first element always survives. */
  lemma {:induction false} CollapseKeepsFirst<T>(s: seq<T>)
    requires s != []
    ensures CollapseRuns(s)[0] == s[0]
  {
    var init := s[..|s| - 1];
    if init != [] {
      CollapseKeepsFirst(init);
    }
  }

  /** Collapsing keeps exactly the values that occur. */
  lemma {:induction false} CollapseSameElements<T>(s: seq<T>)
    ensures forall x :: x in CollapseRuns(s) <==> x in s
  {
    if s != [] {
      var init := s[..|s| - 1];
      CollapseSameElements(init);
      assert s == init + [s[|s| - 1]];
    }
  }

  /** A sequence without adjacent repeats is left as it is. */
  lemma {:induction false} CollapseFixesRepeatFree<T>(s: seq<T>)
    requires NoAdjacentRepeats(s)
    ensures CollapseRuns(s) == s
  {
    if s != [] {
      var init := s[..|s| - 1];
      CollapseFixesRepeatFree(init);
      assert s == init + [s[|s| - 1]];
    }
  }

  /** Collapsing twice is collapsing once. */
  lemma {:induction false} CollapseIdempotent<T>(s: seq<T>)
    ensures CollapseRuns(CollapseRuns(s)) == CollapseRuns(s)
  {
    CollapseNoAdjacentRepeats(s);
    CollapseFixesRepeatFree(CollapseRuns(s));
  }

  /** One step of CollapseRuns, seen from the appended element. */
  lemma {:induction false} CollapseSnoc<T>(s: seq<T>, x: T)
    ensures CollapseRuns(s + [x])
            == if s != [] && x == s[|s| - 1] then CollapseRuns(s) else CollapseRuns(s) + [x]
  {
  }

  /** One step of RunLengths: the last run grows, or a new run of length one starts. */
  lemma {:induction false} RunLengthsSnoc<T>(s: seq<T>, x: T)
    ensures RunLengths(s + [x])
            == if s != [] && x == s[|s| - 1] then Bump(RunLengths(s)) else RunLengths(s) + [1]
  {
  }

  lemma {:induction false} ExpandSnoc<T>(r: seq<T>, counts: seq<nat>, x: T, n: nat)
    ensures Expand(r + [x], counts + [n]) == Expand(r, counts) + Repeat(x, n)
  {
  }

  /** Growing the last run length by one appends one more copy of the last element. */
  lemma {:induction false} ExpandBump<T>(r: seq<T>, counts: seq<nat>)
    requires |counts| == |r| && r != []
    ensures Expand(r, Bump(counts)) == Expand(r, counts) + [r[|r| - 1]]
  {
  }

  lemma {:induction false} ExpandLast<T>(r: seq<T>, counts: seq<nat>)
    requires |counts| == |r| && r != [] && AllPositive(counts)
    ensures Expand(r, counts) != []
    ensures Expand(r, counts)[|Expand(r, counts)| - 1] == r[|r| - 1]
  {
  }

  /** Round trip: the collapsed sequence, re-expanded by its run lengths, is the input. */
  lemma {:induction false} ExpandRunLengths<T>(s: seq<T>)
    ensures Expand(CollapseRuns(s), RunLengths(s)) == s
  {
    if s != [] {
      var init, x := s[..|s| - 1], s[|s| - 1];
      assert s == init + [x];
      var r, c := CollapseRuns(init), RunLengths(init);
      ExpandRunLengths(init);
      CollapseSnoc(init, x);
      RunLengthsSnoc(init, x);
      if init != [] && x == init[|init| - 1] {
        RunLengthsShape(init);
        ExpandBump(r, c);
      } else {
        ExpandSnoc(r, c, x, 1);
        assert Repeat(x, 1) == [x];
      }
    }
  }

  /** Appending a run of a new value adds exactly that value to the collapsed sequence. */
  lemma {:induction false} CollapseAppendRun<T>(s: seq<T>, run: seq<T>, x: T)
    requires run != [] && forall i :: 0 <= i < |run| ==> run[i] == x
    requires s == [] || s[|s| - 1] != x
    ensures CollapseRuns(s + run) == CollapseRuns(s) + [x]
  {
    var init := run[..|run| - 1];
    assert run == init + [x];
    assert s + run == (s + init) + [x];
    CollapseSnoc(s + init, x);
    if init == [] {
      assert s + init == s;
    } else {
      CollapseAppendRun(s, init, x);
      assert (s + init)[|s + init| - 1] == x;
    }
  }

  /**
   * Uniqueness: a repeat-free sequence expanded by any positive run lengths
   * collapses back to itself, so CollapseRuns(s) is the only repeat-free
   * sequence whose expansion gives `s`.
   */
  lemma {:induction false} CollapseOfExpand<T>(r: seq<T>, counts: seq<nat>)
    requires |counts| == |r| && AllPositive(counts) && NoAdjacentRepeats(r)
    ensures CollapseRuns(Expand(r, counts)) == r
  {
    if r != [] {
      var k := |r|;
      var r0, c0 := r[..k - 1], counts[..k - 1];
      NoAdjacentRepeatsPrefix(r, k - 1);
      AllPositivePrefix(counts, k - 1);
      CollapseOfExpand(r0, c0);
      ExpandEndsBeforeLast(r, counts);
      InitPlusLast(r);
      InitPlusLast(counts);
      CollapseOfExpandStep(r0, c0, r[k - 1], counts[k - 1]);
    }
  }

  /** The inductive step of CollapseOfExpand: a last run of a new element adds exactly that element. */
  lemma {:induction false} CollapseOfExpandStep<T>(r0: seq<T>, c0: seq<nat>, x: T, n: nat)
    requires n >= 1 && CollapseRuns(Expand(r0, c0)) == r0
    requires var e0 := Expand(r0, c0); e0 == [] || e0[|e0| - 1] != x
    ensures CollapseRuns(Expand(r0 + [x], c0 + [n])) == r0 + [x]
  {
    ExpandSnoc(r0, c0, x, n);
    CollapseAppendRun(Expand(r0, c0), Repeat(x, n), x);
  }

  /** A non-empty sequence is its initial part followed by its last element. */
  lemma {:induction false} InitPlusLast<T>(s: seq<T>)
    requires s != []
    ensures s[..|s| - 1] + [s[|s| - 1]] == s
  {
    var t := s[..|s| - 1] + [s[|s| - 1]];
    assert forall i :: 0 <= i < |s| ==> t[i] == s[i];
  }

  /** Expanding all but the last element ends in something other than the last element. */
  lemma {:induction false} ExpandEndsBeforeLast<T>(r: seq<T>, counts: seq<nat>)
    requires |counts| == |r| && r != [] && AllPositive(counts) && NoAdjacentRepeats(r)
    ensures var e0 := Expand(r[..|r| - 1], counts[..|r| - 1]);
      e0 == [] || e0[|e0| - 1] != r[|r| - 1]
  {
    var k := |r|;
    var r0, c0 := r[..k - 1], counts[..k - 1];
    if r0 != [] {
      AllPositivePrefix(counts, k - 1);
      ExpandLast(r0, c0);
      assert r0[|r0| - 1] == r[k - 2];
      assert r[k - 2] != r[k - 1];
    }
  }

  /** A prefix of positive run lengths is positive. */
  lemma {:induction false} AllPositivePrefix(counts: seq<nat>, k: nat)
    requires k <= |counts| && AllPositive(counts)
    ensures AllPositive(counts[..k])
  {
  }

  /** A prefix of a repeat-free sequence is repeat-free. */
  lemma {:induction false} NoAdjacentRepeatsPrefix<T>(s: seq<T>, k: nat)
    requires k <= |s| && NoAdjacentRepeats(s)
    ensures NoAdjacentRepeats(s[..k])
  {
  }

  lemma {:induction false} CollapseOfThree<T>(a: T, b: T, c: T)
    ensures CollapseRuns([a, b, c])
            == [a] + (if b == a then [] else [b]) + (if c == b then [] else [c])
  {
  }
}
