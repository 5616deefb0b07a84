/**
 * Segments and segment lists: half-open time intervals [start, end) with exact
 * (real) end points, their total measure, and coalescing into the canonical
 * sorted, disjoint, non-touching form.
 */
module Segments {

  /** A pair of end points. */
  datatype Interval = Interval(start: real, end: real)

  /** A half-open interval [start, end); a Segment never has its end before its start. */
  type Segment = s: Interval | s.start <= s.end witness Interval(0.0, 0.0)

  function Min(a: real, b: real): real { if a <= b then a else b }

  function Max(a: real, b: real): real { if a >= b then a else b }

  /** The Segment built from a raw pair: the two end points in increasing order. */
  function MakeSegment(a: real, b: real): (r: Segment)
    ensures a <= b ==> r.start == a && r.end == b
    ensures b < a ==> r.start == b && r.end == a
  {
    if a <= b then Interval(a, b) else Interval(b, a)
  }

  /** Time t lies in the half-open segment x. */
  predicate Contains(x: Segment, t: real) {
    x.start <= t < x.end
  }

  /** Time t lies in some segment of the list. */
  predicate Covers(s: seq<Segment>, t: real) {
    exists x :: x in s && Contains(x, t)
  }

  /** The duration of a segment. */
  function Length(x: Segment): (r: real)
    ensures r >= 0.0
    ensures r == 0.0 <==> forall t :: !Contains(x, t)
  {
    assert x.start < x.end ==> Contains(x, x.start);
    x.end - x.start
  }

  /** `abs(list)`: the sum of the durations of the list's segments (not coalesced first). */
  function Abs(s: seq<Segment>): (r: real)
    ensures r >= 0.0
  {
    if s == [] then 0.0 else Length(s[0]) + Abs(s[1..])
  }

  /**
   * The canonical form that coalescing produces: every segment has positive
   * duration and each one ends strictly before the next one starts (so the
   * list is sorted, disjoint, and no two segments touch).
   */
  predicate Canonical(s: seq<Segment>) {
    && (forall i :: 0 <= i < |s| ==> s[i].start < s[i].end)
    && (forall i :: 0 < i < |s| ==> s[i - 1].end < s[i].start)
  }

  // ---------------------------------------------------------------------------
  // Facts about coverage and measure of concatenations

  lemma CoversConcat(a: seq<Segment>, b: seq<Segment>, t: real)
    ensures Covers(a + b, t) <==> Covers(a, t) || Covers(b, t)
  {
    if Covers(a + b, t) {
      var x :| x in a + b && Contains(x, t);
      assert x in a || x in b;
    }
    if Covers(a, t) {
      var x :| x in a && Contains(x, t);
      assert x in a + b;
    }
    if Covers(b, t) {
      var x :| x in b && Contains(x, t);
      assert x in a + b;
    }
  }

  lemma CoversCons(s: seq<Segment>, t: real)
    requires s != []
    ensures Covers(s, t) <==> Contains(s[0], t) || Covers(s[1..], t)
  {
    assert s == [s[0]] + s[1..];
    CoversConcat([s[0]], s[1..], t);
    assert Covers([s[0]], t) <==> Contains(s[0], t) by {
      if Contains(s[0], t) { assert s[0] in [s[0]]; }
    }
  }

  lemma {:induction false} AbsConcat(a: seq<Segment>, b: seq<Segment>)
    ensures Abs(a + b) == Abs(a) + Abs(b)
  {
    if a == [] {
      assert a + b == b;
    } else {
      assert (a + b)[1..] == a[1..] + b;
      AbsConcat(a[1..], b);
    }
  }

  /** Coverage depends only on which segments occur, not on their order. */
  lemma CoversPermutation(a: seq<Segment>, b: seq<Segment>, t: real)
    requires multiset(a) == multiset(b)
    ensures Covers(a, t) <==> Covers(b, t)
  {
    if Covers(a, t) {
      var x :| x in a && Contains(x, t);
      assert x in multiset(b);
    }
    if Covers(b, t) {
      var x :| x in b && Contains(x, t);
      assert x in multiset(a);
    }
  }

  // ---------------------------------------------------------------------------
  // Facts about the canonical form

  /** In a canonical list every earlier segment ends before every later one starts. */
  lemma {:induction false} CanonicalSeparated(s: seq<Segment>, i: int, j: int)
    requires Canonical(s) && 0 <= i < j < |s|
    ensures s[i].end < s[j].start
  {
    if j > i + 1 {
      CanonicalSeparated(s, i, j - 1);
    }
  }

  /** A canonical list covers nothing before its first start. */
  lemma CanonicalBelowFirst(s: seq<Segment>, t: real)
    requires Canonical(s) && s != [] && t < s[0].start
    ensures !Covers(s, t)
  {
    if Covers(s, t) {
      var x :| x in s && Contains(x, t);
      var i :| 0 <= i < |s| && s[i] == x;
      if i > 0 { CanonicalSeparated(s, 0, i); }
    }
  }

  /** Past the end of its first segment, a canonical list covers what its tail covers. */
  lemma CanonicalTailCovers(s: seq<Segment>, t: real)
    requires Canonical(s) && s != []
    ensures Covers(s[1..], t) <==> Covers(s, t) && s[0].end <= t
  {
    CoversCons(s, t);
    if Covers(s[1..], t) {
      var x :| x in s[1..] && Contains(x, t);
      var i :| 0 <= i < |s[1..]| && s[1..][i] == x;
      CanonicalSeparated(s, 0, i + 1);
    }
  }

  /** A canonical list does not cover the end of its first segment. */
  lemma CanonicalFirstEnd(s: seq<Segment>)
    requires Canonical(s) && s != []
    ensures !Covers(s, s[0].end)
  {
    CoversCons(s, s[0].end);
    if |s| > 1 {
      CanonicalBelowFirst(s[1..], s[0].end);
    }
  }

  /** A nonempty canonical list covers the start of its first segment. */
  lemma CanonicalCoversFirst(s: seq<Segment>)
    requires Canonical(s) && s != []
    ensures Covers(s, s[0].start)
  {
    assert s[0] in s && Contains(s[0], s[0].start);
  }

  /** Two canonical lists covering the same times start with the same segment. */
  lemma CanonicalSameHead(a: seq<Segment>, b: seq<Segment>)
    requires Canonical(a) && Canonical(b) && a != [] && b != []
    requires forall t :: Covers(a, t) <==> Covers(b, t)
    ensures a[0] == b[0]
  {
    CanonicalCoversFirst(a);
    CanonicalCoversFirst(b);
    if a[0].start < b[0].start {
      CanonicalBelowFirst(b, a[0].start);
    } else if b[0].start < a[0].start {
      CanonicalBelowFirst(a, b[0].start);
    }
    CanonicalFirstEnd(a);
    CanonicalFirstEnd(b);
    if a[0].end < b[0].end {
      assert b[0] in b && Contains(b[0], a[0].end);
    } else if b[0].end < a[0].end {
      assert a[0] in a && Contains(a[0], b[0].end);
    }
  }

  /**
   * The canonical form is unique: two canonical lists that cover the same
   * times are the same list.
   */
  lemma {:induction false} CanonicalUnique(a: seq<Segment>, b: seq<Segment>)
    requires Canonical(a) && Canonical(b)
    requires forall t :: Covers(a, t) <==> Covers(b, t)
    ensures a == b
    decreases |a| + |b|
  {
    if a == [] && b != [] {
      CanonicalCoversFirst(b);
      assert false;
    } else if a != [] && b == [] {
      CanonicalCoversFirst(a);
      assert false;
    } else if a != [] && b != [] {
      CanonicalSameHead(a, b);
      forall t
        ensures Covers(a[1..], t) <==> Covers(b[1..], t)
      {
        CanonicalTailCovers(a, t);
        CanonicalTailCovers(b, t);
      }
      CanonicalUnique(a[1..], b[1..]);
      assert a == [a[0]] + a[1..] && b == [b[0]] + b[1..];
    }
  }

  /** In a canonical list, every segment has positive duration, so the measure is 0 only when it is empty. */
  lemma {:induction false} CanonicalAbsZero(s: seq<Segment>)
    requires Canonical(s)
    ensures Abs(s) == 0.0 <==> s == []
  {
    if s != [] {
      assert Abs(s) == Length(s[0]) + Abs(s[1..]);
    }
  }

  // ---------------------------------------------------------------------------
  // Sorting (Python's list sort, which orders segments as (start, end) tuples)

  /** The lexicographic order on segments. */
  predicate SegmentLe(a: Segment, b: Segment) {
    a.start < b.start || (a.start == b.start && a.end <= b.end)
  }

  predicate SortedSegments(s: seq<Segment>) {
    forall i, j :: 0 <= i < j < |s| ==> SegmentLe(s[i], s[j])
  }

  /** A segment no greater than any element of a sorted list can go in front of it. */
  lemma ConsSorted(x: Segment, s: seq<Segment>)
    requires SortedSegments(s)
    requires forall k :: 0 <= k < |s| ==> SegmentLe(x, s[k])
    ensures SortedSegments([x] + s)
  {
    forall i, j | 0 <= i < j < |[x] + s| ensures SegmentLe(([x] + s)[i], ([x] + s)[j]) {
      if i > 0 { assert ([x] + s)[i] == s[i - 1]; }
      assert ([x] + s)[j] == s[j - 1];
    }
  }

  /** Insert x into a list before the first element it does not exceed. */
  function Insert(x: Segment, s: seq<Segment>): (r: seq<Segment>)
    ensures multiset(r) == multiset(s) + multiset{x}
    ensures SortedSegments(s) ==> SortedSegments(r)
  {
    if s == [] then [x]
    else if SegmentLe(x, s[0]) then
      assert SortedSegments(s) ==> SortedSegments([x] + s) by {
        if SortedSegments(s) {
          forall k | 0 <= k < |s| ensures SegmentLe(x, s[k]) {
            assert k == 0 || SegmentLe(s[0], s[k]);
          }
          ConsSorted(x, s);
        }
      }
      [x] + s
    else
      var rest := Insert(x, s[1..]);
      assert s == [s[0]] + s[1..];
      assert SortedSegments(s) ==> SortedSegments([s[0]] + rest) by {
        if SortedSegments(s) {
          forall k | 0 <= k < |rest| ensures SegmentLe(s[0], rest[k]) {
            assert rest[k] in multiset(rest);
            if rest[k] != x {
              assert rest[k] in multiset(s[1..]);
              assert rest[k] in s[1..];
            }
          }
          assert SortedSegments(s[1..]) by {
            forall i, j | 0 <= i < j < |s[1..]| ensures SegmentLe(s[1..][i], s[1..][j]) {
              assert s[1..][i] == s[i + 1] && s[1..][j] == s[j + 1];
            }
          }
          ConsSorted(s[0], rest);
        }
      }
      [s[0]] + rest
  }

  /** Insertion sort; stands for the list sort that coalescing starts with. */
  function Sort(s: seq<Segment>): (r: seq<Segment>)
    ensures multiset(r) == multiset(s)
    ensures SortedSegments(r)
  {
    if s == [] then []
    else
      assert s == [s[0]] + s[1..];
      Insert(s[0], Sort(s[1..]))
  }

  lemma {:induction false} AbsInsert(x: Segment, s: seq<Segment>)
    ensures Abs(Insert(x, s)) == Length(x) + Abs(s)
  {
    if s != [] && !SegmentLe(x, s[0]) {
      AbsInsert(x, s[1..]);
      assert ([s[0]] + Insert(x, s[1..]))[1..] == Insert(x, s[1..]);
    }
  }

  lemma {:induction false} AbsSort(s: seq<Segment>)
    ensures Abs(Sort(s)) == Abs(s)
  {
    if s != [] {
      AbsSort(s[1..]);
      AbsInsert(s[0], Sort(s[1..]));
    }
  }

  /** A list that is already sorted is left as it is. */
  lemma {:induction false} SortSorted(s: seq<Segment>)
    requires SortedSegments(s)
    ensures Sort(s) == s
  {
    if s != [] {
      SortSorted(s[1..]);
      if |s| > 1 {
        assert SegmentLe(s[0], s[1]);
      }
      assert [s[0]] + s[1..] == s;
    }
  }

  // ---------------------------------------------------------------------------
  // The coalescing sweep

  /** Yield [lo, hi) unless it is empty. */
  function Emit(lo: real, hi: real): seq<Segment>
    requires lo <= hi
  {
    if lo == hi then [] else [Interval(lo, hi)]
  }

  /**
   * Left-to-right sweep with the running segment [lo, hi): a segment that
   * starts at or before hi (overlapping or touching) is merged into it,
   * otherwise the running segment is emitted and the next one begins.
   */
  function SweepFrom(lo: real, hi: real, rest: seq<Segment>): seq<Segment>
    requires lo <= hi
    decreases |rest|
  {
    if rest == [] then Emit(lo, hi)
    else if rest[0].start <= hi then SweepFrom(lo, Max(hi, rest[0].end), rest[1..])
    else Emit(lo, hi) + SweepFrom(rest[0].start, rest[0].end, rest[1..])
  }

  function Sweep(s: seq<Segment>): seq<Segment> {
    if s == [] then [] else SweepFrom(s[0].start, s[0].end, s[1..])
  }

  predicate StartsFrom(lo: real, s: seq<Segment>) {
    && (forall i, j :: 0 <= i < j < |s| ==> s[i].start <= s[j].start)
    && (forall i :: 0 <= i < |s| ==> lo <= s[i].start)
  }

  lemma {:induction false} SweepCovers(lo: real, hi: real, rest: seq<Segment>, t: real)
    requires lo <= hi && StartsFrom(lo, rest)
    ensures Covers(SweepFrom(lo, hi, rest), t) <==> (lo <= t < hi) || Covers(rest, t)
    decreases |rest|
  {
    if rest == [] {
      if lo < hi && lo <= t < hi { assert Interval(lo, hi) in Emit(lo, hi); }
    } else {
      CoversCons(rest, t);
      if rest[0].start <= hi {
        SweepCovers(lo, Max(hi, rest[0].end), rest[1..], t);
      } else {
        SweepCovers(rest[0].start, rest[0].end, rest[1..], t);
        CoversConcat(Emit(lo, hi), SweepFrom(rest[0].start, rest[0].end, rest[1..]), t);
        if lo < hi && lo <= t < hi { assert Interval(lo, hi) in Emit(lo, hi); }
      }
    }
  }

  lemma {:induction false} SweepCanonical(lo: real, hi: real, rest: seq<Segment>)
    requires lo <= hi && StartsFrom(lo, rest)
    ensures Canonical(SweepFrom(lo, hi, rest))
    ensures forall k :: 0 <= k < |SweepFrom(lo, hi, rest)| ==> lo <= SweepFrom(lo, hi, rest)[k].start
    decreases |rest|
  {
    if rest != [] {
      if rest[0].start <= hi {
        SweepCanonical(lo, Max(hi, rest[0].end), rest[1..]);
      } else {
        SweepCanonical(rest[0].start, rest[0].end, rest[1..]);
      }
    }
  }

  lemma {:induction false} SweepAbs(lo: real, hi: real, rest: seq<Segment>)
    requires lo <= hi && StartsFrom(lo, rest)
    ensures Abs(SweepFrom(lo, hi, rest)) <= (hi - lo) + Abs(rest)
    decreases |rest|
  {
    if rest != [] {
      if rest[0].start <= hi {
        SweepAbs(lo, Max(hi, rest[0].end), rest[1..]);
      } else {
        SweepAbs(rest[0].start, rest[0].end, rest[1..]);
        AbsConcat(Emit(lo, hi), SweepFrom(rest[0].start, rest[0].end, rest[1..]));
      }
    }
  }

  /** Sweeping a list that is already canonical changes nothing. */
  lemma {:induction false} SweepOfCanonical(lo: real, hi: real, rest: seq<Segment>)
    requires lo < hi && Canonical(rest) && (rest != [] ==> hi < rest[0].start)
    ensures SweepFrom(lo, hi, rest) == [Interval(lo, hi)] + rest
    decreases |rest|
  {
    if rest != [] {
      SweepOfCanonical(rest[0].start, rest[0].end, rest[1..]);
      assert rest == [rest[0]] + rest[1..];
    }
  }

  lemma SortedStartsFrom(s: seq<Segment>)
    requires SortedSegments(s) && s != []
    ensures StartsFrom(s[0].start, s[1..])
  {
    forall i | 0 <= i < |s[1..]| ensures s[0].start <= s[1..][i].start {
      assert SegmentLe(s[0], s[i + 1]);
    }
    forall i, j | 0 <= i < j < |s[1..]| ensures s[1..][i].start <= s[1..][j].start {
      assert SegmentLe(s[i + 1], s[j + 1]);
    }
  }

  /**
   * `coalesce()`: the canonical list covering exactly the times the input covers.
   */
  function Coalesced(s: seq<Segment>): (r: seq<Segment>)
    ensures Canonical(r)
    ensures forall t :: Covers(r, t) <==> Covers(s, t)
  {
    var sorted := Sort(s);
    if sorted == [] then
      assert forall t :: Covers(s, t) <==> Covers(sorted, t) by {
        forall t ensures Covers(s, t) <==> Covers(sorted, t) { CoversPermutation(s, sorted, t); }
      }
      []
    else
      SortedStartsFrom(sorted);
      SweepCanonical(sorted[0].start, sorted[0].end, sorted[1..]);
      assert forall t :: Covers(Sweep(sorted), t) <==> Covers(s, t) by {
        forall t ensures Covers(Sweep(sorted), t) <==> Covers(s, t) {
          SweepCovers(sorted[0].start, sorted[0].end, sorted[1..], t);
          CoversCons(sorted, t);
          CoversPermutation(s, sorted, t);
        }
      }
      Sweep(sorted)
  }

  /** Coalescing a canonical list returns it unchanged. */
  lemma CoalescedOfCanonical(c: seq<Segment>)
    requires Canonical(c)
    ensures Coalesced(c) == c
  {
    CanonicalUnique(Coalesced(c), c);
  }

  /** `coalesce(coalesce(A)) == coalesce(A)`. */
  lemma CoalesceIdempotent(s: seq<Segment>)
    ensures Coalesced(Coalesced(s)) == Coalesced(s)
  {
    CoalescedOfCanonical(Coalesced(s));
  }

  /** Coalesced(s) is the one canonical list covering what s covers. */
  lemma CoalescedUnique(s: seq<Segment>, c: seq<Segment>)
    requires Canonical(c)
    requires forall t :: Covers(c, t) <==> Covers(s, t)
    ensures Coalesced(s) == c
  {
    CanonicalUnique(Coalesced(s), c);
  }

  /** Coalescing never increases the total measure (merging overlaps can only lose overlap). */
  lemma CoalescedAbs(s: seq<Segment>)
    ensures Abs(Coalesced(s)) <= Abs(s)
  {
    var sorted := Sort(s);
    AbsSort(s);
    if sorted != [] {
      SortedStartsFrom(sorted);
      SweepAbs(sorted[0].start, sorted[0].end, sorted[1..]);
      assert Abs(sorted) == Length(sorted[0]) + Abs(sorted[1..]);
    }
  }

  /** Concatenation regroups freely (a step of the coalescing loop's proof). */
  lemma ConcatAssociates(a: seq<Segment>, b: seq<Segment>, c: seq<Segment>)
    ensures a + (b + c) == (a + b) + c
  {}

  // ---------------------------------------------------------------------------
  // The mutable list

  /** A SegmentList object whose `coalesce()` rewrites its own contents. */
  class SegmentList {
    var segments: seq<Segment>

    constructor (segments: seq<Segment>)
      ensures this.segments == segments
    {
      this.segments := segments;
    }

    /**
     * Sort, then sweep merging overlapping and touching segments and dropping
     * empty ones; the list is changed in place and the same object is returned.
     */
    method Coalesce() returns (r: SegmentList)
      modifies this
      ensures r == this
      ensures segments == Coalesced(old(segments))
    {
      ghost var start := segments;
      var sorted := Sort(segments);
      assert Coalesced(start) == Sweep(sorted);
      if sorted == [] {
        segments := [];
        return this;
      }
      var out: seq<Segment> := [];
      var lo, hi := sorted[0].start, sorted[0].end;
      var j := 1;
      while j < |sorted|
        invariant 1 <= j <= |sorted|
        invariant lo <= hi
        invariant out + SweepFrom(lo, hi, sorted[j..]) == Sweep(sorted)
      {
        assert sorted[j..][1..] == sorted[j + 1..];
        var x := sorted[j];
        if x.start <= hi {
          assert SweepFrom(lo, hi, sorted[j..]) == SweepFrom(lo, Max(hi, x.end), sorted[j + 1..]);
          hi := Max(hi, x.end);
        } else {
          var rest := SweepFrom(x.start, x.end, sorted[j + 1..]);
          assert SweepFrom(lo, hi, sorted[j..]) == Emit(lo, hi) + rest;
          ConcatAssociates(out, Emit(lo, hi), rest);
          out := out + Emit(lo, hi);
          lo, hi := x.start, x.end;
        }
        j := j + 1;
      }
      assert sorted[j..] == [];
      out := out + Emit(lo, hi);
      segments := out;
      r := this;
    }
  }
}
