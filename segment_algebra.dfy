/**
 * Set algebra on segment lists (`&`, `|`, `-`, `+`), the extent of a list,
 * and the per-segment transforms used by flags: contract, protract, pad and
 * round.  Every combinator returns a coalesced list; its meaning is stated
 * pointwise, through the times it covers.
 */
module SegmentAlgebra {
  import opened Wrappers
  import opened Segments

  // ---------------------------------------------------------------------------
  // Intersection

  /** The overlap [max(starts), min(ends)) of two segments, when it has positive length. */
  function Overlap(x: Segment, y: Segment): (r: seq<Segment>)
    ensures forall t :: Covers(r, t) <==> Contains(x, t) && Contains(y, t)
  {
    var lo := Max(x.start, y.start);
    var hi := Min(x.end, y.end);
    if lo < hi then
      assert forall t :: Contains(x, t) && Contains(y, t) ==> Contains(Interval(lo, hi), t);
      assert Interval(lo, hi) in [Interval(lo, hi)];
      [Interval(lo, hi)]
    else []
  }

  /** The overlaps of x with every segment of b. */
  function OverlapsWith(x: Segment, b: seq<Segment>): seq<Segment> {
    if b == [] then [] else Overlap(x, b[0]) + OverlapsWith(x, b[1..])
  }

  /** The overlaps of every segment of a with every segment of b. */
  function Overlaps(a: seq<Segment>, b: seq<Segment>): seq<Segment> {
    if a == [] then [] else OverlapsWith(a[0], b) + Overlaps(a[1..], b)
  }

  lemma {:induction false} OverlapsWithCovers(x: Segment, b: seq<Segment>, t: real)
    ensures Covers(OverlapsWith(x, b), t) <==> Contains(x, t) && Covers(b, t)
  {
    if b != [] {
      OverlapsWithCovers(x, b[1..], t);
      CoversConcat(Overlap(x, b[0]), OverlapsWith(x, b[1..]), t);
      CoversCons(b, t);
    }
  }

  lemma {:induction false} OverlapsCovers(a: seq<Segment>, b: seq<Segment>, t: real)
    ensures Covers(Overlaps(a, b), t) <==> Covers(a, t) && Covers(b, t)
  {
    if a != [] {
      OverlapsCovers(a[1..], b, t);
      OverlapsWithCovers(a[0], b, t);
      CoversConcat(OverlapsWith(a[0], b), Overlaps(a[1..], b), t);
      CoversCons(a, t);
    }
  }

  /** `a & b`: the coalesced list of times covered by both operands. */
  function Intersection(a: seq<Segment>, b: seq<Segment>): (r: seq<Segment>)
    ensures Canonical(r)
    ensures forall t :: Covers(r, t) <==> Covers(a, t) && Covers(b, t)
  {
    assert forall t :: Covers(Overlaps(a, b), t) <==> Covers(a, t) && Covers(b, t) by {
      forall t ensures Covers(Overlaps(a, b), t) <==> Covers(a, t) && Covers(b, t) {
        OverlapsCovers(a, b, t);
      }
    }
    Coalesced(Overlaps(a, b))
  }

  // ---------------------------------------------------------------------------
  // Union and concatenation

  /** `a + b`: plain concatenation, not coalesced. */
  function Concat(a: seq<Segment>, b: seq<Segment>): (r: seq<Segment>)
    ensures |r| == |a| + |b| && r[..|a|] == a && r[|a|..] == b
    ensures Abs(r) == Abs(a) + Abs(b)
    ensures forall t :: Covers(r, t) <==> Covers(a, t) || Covers(b, t)
  {
    AbsConcat(a, b);
    assert forall t :: Covers(a + b, t) <==> Covers(a, t) || Covers(b, t) by {
      forall t ensures Covers(a + b, t) <==> Covers(a, t) || Covers(b, t) {
        CoversConcat(a, b, t);
      }
    }
    a + b
  }

  /** `a | b`: the coalesced list of times covered by either operand. */
  function Union(a: seq<Segment>, b: seq<Segment>): (r: seq<Segment>)
    ensures Canonical(r)
    ensures forall t :: Covers(r, t) <==> Covers(a, t) || Covers(b, t)
  {
    Coalesced(Concat(a, b))
  }

  // ---------------------------------------------------------------------------
  // Difference

  /** What is left of p outside y: up to two pieces, before y and after y. */
  function Cut(p: Segment, y: Segment): (r: seq<Segment>)
    ensures forall t :: Covers(r, t) <==> Contains(p, t) && !Contains(y, t)
  {
    var leftEnd := Min(p.end, y.start);
    var rightStart := Max(p.start, y.end);
    var left: seq<Segment> := if p.start < leftEnd then [Interval(p.start, leftEnd)] else [];
    var right: seq<Segment> := if rightStart < p.end then [Interval(rightStart, p.end)] else [];
    assert forall t :: Covers(left + right, t) <==> Contains(p, t) && !Contains(y, t) by {
      forall t ensures Covers(left + right, t) <==> Contains(p, t) && !Contains(y, t) {
        CoversConcat(left, right, t);
        if p.start < leftEnd && p.start <= t < leftEnd { assert left[0] in left; }
        if rightStart < p.end && rightStart <= t < p.end { assert right[0] in right; }
      }
    }
    left + right
  }

  /** Cut y out of every piece. */
  function CutEach(ps: seq<Segment>, y: Segment): seq<Segment> {
    if ps == [] then [] else Cut(ps[0], y) + CutEach(ps[1..], y)
  }

  /** Cut every segment of b, in turn, out of the pieces. */
  function CutAll(ps: seq<Segment>, b: seq<Segment>): seq<Segment>
    decreases |b|
  {
    if b == [] then ps else CutAll(CutEach(ps, b[0]), b[1..])
  }

  lemma {:induction false} CutEachCovers(ps: seq<Segment>, y: Segment, t: real)
    ensures Covers(CutEach(ps, y), t) <==> Covers(ps, t) && !Contains(y, t)
  {
    if ps != [] {
      CutEachCovers(ps[1..], y, t);
      CoversConcat(Cut(ps[0], y), CutEach(ps[1..], y), t);
      CoversCons(ps, t);
    }
  }

  lemma {:induction false} CutAllCovers(ps: seq<Segment>, b: seq<Segment>, t: real)
    ensures Covers(CutAll(ps, b), t) <==> Covers(ps, t) && !Covers(b, t)
    decreases |b|
  {
    if b != [] {
      CutAllCovers(CutEach(ps, b[0]), b[1..], t);
      CutEachCovers(ps, b[0], t);
      CoversCons(b, t);
    }
  }

  /** `a - b`: the coalesced list of times covered by a and not by b. */
  function Difference(a: seq<Segment>, b: seq<Segment>): (r: seq<Segment>)
    ensures Canonical(r)
    ensures forall t :: Covers(r, t) <==> Covers(a, t) && !Covers(b, t)
  {
    assert forall t :: Covers(CutAll(a, b), t) <==> Covers(a, t) && !Covers(b, t) by {
      forall t ensures Covers(CutAll(a, b), t) <==> Covers(a, t) && !Covers(b, t) {
        CutAllCovers(a, b, t);
      }
    }
    Coalesced(CutAll(a, b))
  }

  // ---------------------------------------------------------------------------
  // Algebraic laws

  lemma IntersectionCommutes(a: seq<Segment>, b: seq<Segment>)
    ensures Intersection(a, b) == Intersection(b, a)
  {
    CanonicalUnique(Intersection(a, b), Intersection(b, a));
  }

  lemma IntersectionAssociates(a: seq<Segment>, b: seq<Segment>, c: seq<Segment>)
    ensures Intersection(Intersection(a, b), c) == Intersection(a, Intersection(b, c))
  {
    CanonicalUnique(Intersection(Intersection(a, b), c), Intersection(a, Intersection(b, c)));
  }

  lemma UnionCommutes(a: seq<Segment>, b: seq<Segment>)
    ensures Union(a, b) == Union(b, a)
  {
    CanonicalUnique(Union(a, b), Union(b, a));
  }

  lemma UnionAssociates(a: seq<Segment>, b: seq<Segment>, c: seq<Segment>)
    ensures Union(Union(a, b), c) == Union(a, Union(b, c))
  {
    CanonicalUnique(Union(Union(a, b), c), Union(a, Union(b, c)));
  }

  /** `&` and `|` of a list with itself give the list coalesced. */
  lemma SelfOperand(a: seq<Segment>)
    ensures Intersection(a, a) == Coalesced(a)
    ensures Union(a, a) == Coalesced(a)
  {
    CanonicalUnique(Intersection(a, a), Coalesced(a));
    CanonicalUnique(Union(a, a), Coalesced(a));
  }

  /** Intersecting with a canonical list that lies inside the other operand gives that list. */
  lemma IntersectionWithin(a: seq<Segment>, b: seq<Segment>)
    requires Canonical(b)
    requires forall t :: Covers(b, t) ==> Covers(a, t)
    ensures Intersection(a, b) == b
  {
    CanonicalUnique(Intersection(a, b), b);
  }

  /** `-` is not commutative: [0, 2) - [0, 1) is [1, 2) while [0, 1) - [0, 2) is empty. */
  lemma DifferenceDoesNotCommute()
    ensures Difference([Interval(0.0, 2.0)], [Interval(0.0, 1.0)])
         != Difference([Interval(0.0, 1.0)], [Interval(0.0, 2.0)])
  {
    var x: seq<Segment> := [Interval(0.0, 2.0)];
    var y: seq<Segment> := [Interval(0.0, 1.0)];
    assert x[0] in x && Contains(x[0], 1.5);
    assert Covers(Difference(x, y), 1.5);
    if Difference(y, x) != [] {
      CanonicalCoversFirst(Difference(y, x));
    }
  }

  /** `abs(A | B) <= abs(A) + abs(B)`. */
  lemma UnionSubadditive(a: seq<Segment>, b: seq<Segment>)
    ensures Abs(Union(a, b)) <= Abs(a) + Abs(b)
  {
    CoalescedAbs(Concat(a, b));
  }

  /** Operations with an empty operand: `&` gives nothing, `|` and `-` give the other list coalesced. */
  lemma EmptyOperand(a: seq<Segment>)
    ensures Intersection(a, []) == []
    ensures Union(a, []) == Coalesced(a)
    ensures Difference(a, []) == Coalesced(a)
  {
    if Intersection(a, []) != [] {
      CanonicalCoversFirst(Intersection(a, []));
    }
    CanonicalUnique(Union(a, []), Coalesced(a));
    CanonicalUnique(Difference(a, []), Coalesced(a));
  }

  // ---------------------------------------------------------------------------
  // Extent

  datatype ListError = EmptyList

  function MinStart(s: seq<Segment>): (r: real)
    requires s != []
    ensures exists i :: 0 <= i < |s| && s[i].start == r
    ensures forall i :: 0 <= i < |s| ==> r <= s[i].start
  {
    if |s| == 1 then s[0].start
    else
      var m := MinStart(s[1..]);
      assert forall i :: 1 <= i < |s| ==> s[1..][i - 1] == s[i];
      Min(s[0].start, m)
  }

  function MaxEnd(s: seq<Segment>): (r: real)
    requires s != []
    ensures exists i :: 0 <= i < |s| && s[i].end == r
    ensures forall i :: 0 <= i < |s| ==> s[i].end <= r
  {
    if |s| == 1 then s[0].end
    else
      var m := MaxEnd(s[1..]);
      assert forall i :: 1 <= i < |s| ==> s[1..][i - 1] == s[i];
      Max(s[0].end, m)
  }

  /**
   * `extent()`: the smallest segment spanning the whole list, from the least
   * start to the greatest end; an empty list has no extent (a ValueError).
   */
  function Extent(s: seq<Segment>): (r: Result<Segment, ListError>)
    ensures r.Err? <==> s == []
    ensures r.Ok? ==> forall i :: 0 <= i < |s| ==> r.value.start <= s[i].start && s[i].end <= r.value.end
    ensures r.Ok? ==> exists i :: 0 <= i < |s| && s[i].start == r.value.start
    ensures r.Ok? ==> exists j :: 0 <= j < |s| && s[j].end == r.value.end
  {
    if s == [] then Err(EmptyList)
    else
      var lo := MinStart(s);
      var hi := MaxEnd(s);
      assert lo <= s[0].start <= s[0].end <= hi;
      Ok(Interval(lo, hi))
  }

  /** The extent of a canonical list runs from its first start to its last end. */
  lemma ExtentOfCanonical(s: seq<Segment>)
    requires Canonical(s) && s != []
    ensures Extent(s) == Ok(Interval(s[0].start, s[|s| - 1].end))
  {
    forall i | 0 < i < |s| ensures s[0].start <= s[i].start && s[i].end <= s[|s| - 1].end {
      CanonicalSeparated(s, 0, i);
      if i < |s| - 1 { CanonicalSeparated(s, i, |s| - 1); }
    }
    if |s| > 1 { CanonicalSeparated(s, 0, |s| - 1); }
    var e := Extent(s).value;
    var i :| 0 <= i < |s| && s[i].start == e.start;
    var j :| 0 <= j < |s| && s[j].end == e.end;
    assert e.start == s[0].start;
    assert e.end == s[|s| - 1].end;
  }

  // ---------------------------------------------------------------------------
  // Contract and protract

  /** [s + x, e - x) for every segment that does not turn over; the others are dropped. */
  function Shrink(s: seq<Segment>, x: real): (r: seq<Segment>)
    ensures forall t :: Covers(r, t) <==> exists y :: y in s && y.start + x <= t < y.end - x
  {
    if s == [] then []
    else
      var rest := Shrink(s[1..], x);
      var head: seq<Segment> := if s[0].start + x <= s[0].end - x then [Interval(s[0].start + x, s[0].end - x)] else [];
      assert forall t :: Covers(head + rest, t) <==> exists y :: y in s && y.start + x <= t < y.end - x by {
        forall t ensures Covers(head + rest, t) <==> exists y :: y in s && y.start + x <= t < y.end - x {
          CoversConcat(head, rest, t);
          if head != [] && Contains(head[0], t) { assert head[0] in head; assert s[0] in s; }
          if exists y :: y in s && y.start + x <= t < y.end - x {
            var y :| y in s && y.start + x <= t < y.end - x;
            if y != s[0] { assert y in s[1..]; }
          }
        }
      }
      head + rest
  }

  /**
   * `contract(x)`: every segment [s, e) becomes [s + x, e - x) (segments that
   * would turn over are dropped), and the result is coalesced.
   */
  function Contract(s: seq<Segment>, x: real): (r: seq<Segment>)
    ensures Canonical(r)
    ensures forall t :: Covers(r, t) <==> exists y :: y in s && y.start + x <= t < y.end - x
  {
    Coalesced(Shrink(s, x))
  }

  /** `protract(x)`: every segment [s, e) becomes [s - x, e + x), then the list is coalesced. */
  function Protract(s: seq<Segment>, x: real): (r: seq<Segment>)
    ensures Canonical(r)
    ensures forall t :: Covers(r, t) <==> exists y :: y in s && y.start - x <= t < y.end + x
  {
    Contract(s, -x)
  }

  /** Shrinking a canonical list whose segments are all longer than 2x (x >= 0) keeps every segment. */
  lemma {:induction false} ShrinkCanonical(s: seq<Segment>, x: real)
    requires Canonical(s) && x >= 0.0
    requires forall i :: 0 <= i < |s| ==> s[i].end - s[i].start > 2.0 * x
    ensures |Shrink(s, x)| == |s|
    ensures forall i :: 0 <= i < |s| ==> Shrink(s, x)[i] == Interval(s[i].start + x, s[i].end - x)
    ensures Canonical(Shrink(s, x))
  {
    if s != [] {
      var tail := s[1..];
      assert Canonical(tail) by {
        forall i | 0 < i < |tail| ensures tail[i - 1].end < tail[i].start {
          assert tail[i - 1] == s[i] && tail[i] == s[i + 1];
        }
      }
      ShrinkCanonical(tail, x);
      var rest := Shrink(tail, x);
      var r := Shrink(s, x);
      assert r == [Interval(s[0].start + x, s[0].end - x)] + rest;
      forall i | 0 <= i < |s| ensures r[i] == Interval(s[i].start + x, s[i].end - x) {
        if i > 0 { assert r[i] == rest[i - 1] && tail[i - 1] == s[i]; }
      }
    }
  }

  /** Growing by x >= 0 and then shrinking by x gives the list back. */
  lemma {:induction false} ShrinkGrow(s: seq<Segment>, x: real)
    requires x >= 0.0
    ensures Shrink(Shrink(s, -x), x) == s
  {
    if s != [] {
      ShrinkGrow(s[1..], x);
      assert s == [s[0]] + s[1..];
    }
  }

  /**
   * Protracting undoes contracting: for a coalesced list whose segments all
   * last longer than 2x (x >= 0), `protract(x)` after `contract(x)` restores it.
   */
  lemma ProtractContract(s: seq<Segment>, x: real)
    requires Canonical(s) && x >= 0.0
    requires forall i :: 0 <= i < |s| ==> s[i].end - s[i].start > 2.0 * x
    ensures Protract(Contract(s, x), x) == s
  {
    ShrinkCanonical(s, x);
    var c := Shrink(s, x);
    CoalescedOfCanonical(c);
    assert Contract(s, x) == c;
    assert Shrink(c, -x) == s by {
      ShrinkAfterShrink(s, x);
    }
    CoalescedOfCanonical(s);
  }

  lemma {:induction false} ShrinkAfterShrink(s: seq<Segment>, x: real)
    requires x >= 0.0
    requires forall i :: 0 <= i < |s| ==> s[i].end - s[i].start >= 2.0 * x
    ensures Shrink(Shrink(s, x), -x) == s
  {
    if s != [] {
      ShrinkAfterShrink(s[1..], x);
      assert s == [s[0]] + s[1..];
    }
  }

  // ---------------------------------------------------------------------------
  // Pad

  /**
   * `pad(pre, post)` on one list: `pre` is added to every start and `post` to
   * every end; each new pair becomes a Segment (ordered) and nothing is coalesced.
   */
  function PadList(s: seq<Segment>, pre: real, post: real): (r: seq<Segment>)
    ensures |r| == |s|
    ensures forall i :: 0 <= i < |s| ==> r[i] == MakeSegment(s[i].start + pre, s[i].end + post)
  {
    seq(|s|, i requires 0 <= i < |s| => MakeSegment(s[i].start + pre, s[i].end + post))
  }

  /** Padding by (0, 0) changes nothing. */
  lemma PadZero(s: seq<Segment>)
    ensures PadList(s, 0.0, 0.0) == s
  {
  }

  /** When pre <= post no segment turns over: every start moves by pre and every end by post. */
  lemma PadShifts(s: seq<Segment>, pre: real, post: real)
    requires pre <= post
    ensures forall i :: 0 <= i < |s| ==>
      PadList(s, pre, post)[i].start == s[i].start + pre && PadList(s, pre, post)[i].end == s[i].end + post
  {
  }

  /** Padding twice (each time not shrinking) is padding once by the sums: pad is cumulative. */
  lemma PadTwice(s: seq<Segment>, pre1: real, post1: real, pre2: real, post2: real)
    requires pre1 <= post1 && pre2 <= post2
    ensures PadList(PadList(s, pre1, post1), pre2, post2) == PadList(s, pre1 + pre2, post1 + post2)
  {
  }

  /** Padding by (pre, post) with pre <= post is undone by padding by (-pre, -post). */
  lemma PadInverse(s: seq<Segment>, pre: real, post: real)
    requires pre <= post
    ensures PadList(PadList(s, pre, post), -pre, -post) == s
  {
  }

  /** n copies of d added up: the product n * d, built from additions only. */
  function Scaled(n: nat, d: real): real {
    if n == 0 then 0.0 else Scaled(n - 1, d) + d
  }

  lemma {:induction false} ScaledIsProduct(n: nat, d: real)
    ensures Scaled(n, d) == (n as real) * d
  {
    if n > 0 {
      ScaledIsProduct(n - 1, d);
      assert (n as real) * d == ((n - 1) as real) * d + d;
    }
  }

  /** Lengthening every segment by d lengthens the list by d per segment. */
  lemma {:induction false} AbsGrown(s: seq<Segment>, p: seq<Segment>, d: real)
    requires |p| == |s|
    requires forall i :: 0 <= i < |s| ==> Length(p[i]) == Length(s[i]) + d
    ensures Abs(p) == Abs(s) + Scaled(|s|, d)
  {
    if s != [] {
      assert forall i :: 0 <= i < |s[1..]| ==> Length(p[1..][i]) == Length(s[1..][i]) + d by {
        forall i | 0 <= i < |s[1..]| ensures Length(p[1..][i]) == Length(s[1..][i]) + d {
          assert p[1..][i] == p[i + 1] && s[1..][i] == s[i + 1];
        }
      }
      AbsGrown(s[1..], p[1..], d);
    }
  }

  lemma PadLength(x: Segment, pre: real, post: real)
    requires pre <= post
    ensures Length(MakeSegment(x.start + pre, x.end + post)) == Length(x) + (post - pre)
  {}

  /** Padding with pre <= post lengthens each segment by post - pre. */
  lemma PadAbs(s: seq<Segment>, pre: real, post: real)
    requires pre <= post
    ensures Abs(PadList(s, pre, post)) == Abs(s) + Scaled(|s|, post - pre)
  {
    var p := PadList(s, pre, post);
    forall i | 0 <= i < |s| ensures Length(p[i]) == Length(s[i]) + (post - pre) {
      PadLength(s[i], pre, post);
    }
    AbsGrown(s, p, post - pre);
  }

  // ---------------------------------------------------------------------------
  // Round

  function Ceil(x: real): (r: int)
    ensures x <= r as real < x + 1.0
  {
    -((-x).Floor)
  }

  /** A segment widened outward to whole numbers: floor of the start, ceiling of the end. */
  function RoundSegment(x: Segment): (r: Segment)
    ensures r.start <= x.start < r.start + 1.0 && r.end - 1.0 < x.end <= r.end
    ensures r.start == r.start.Floor as real && r.end == r.end.Floor as real
  {
    Interval(x.start.Floor as real, Ceil(x.end) as real)
  }

  function RoundList(s: seq<Segment>): (r: seq<Segment>)
    ensures |r| == |s|
    ensures forall i :: 0 <= i < |s| ==> r[i] == RoundSegment(s[i])
  {
    seq(|s|, i requires 0 <= i < |s| => RoundSegment(s[i]))
  }

  predicate IntegerEndpoints(s: seq<Segment>) {
    forall i :: 0 <= i < |s| ==> s[i].start == s[i].start.Floor as real && s[i].end == s[i].end.Floor as real
  }

  /** Rounding leaves a list whose end points are whole numbers as it is. */
  lemma RoundIntegral(s: seq<Segment>)
    requires IntegerEndpoints(s)
    ensures RoundList(s) == s
  {
    forall i | 0 <= i < |s| ensures RoundSegment(s[i]) == s[i] {
      var n := s[i].end.Floor;
      assert -s[i].end == (-n) as real;
      assert (-s[i].end).Floor == -n;
    }
  }

  /** Rounding widens: every time a segment covers is still covered after rounding. */
  lemma RoundWidens(s: seq<Segment>, t: real)
    requires Covers(s, t)
    ensures Covers(RoundList(s), t)
  {
    var x :| x in s && Contains(x, t);
    var i :| 0 <= i < |s| && s[i] == x;
    assert RoundList(s)[i] in RoundList(s);
  }
}
