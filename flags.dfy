/**
 * Data-quality flags: a `known` segment list (when the condition was
 * evaluated), an `active` list (when it held), a name and a (pre, post)
 * padding.  `Flag` is the value a flag holds; `DataQualityFlag` is the
 * object whose fields the operations update in place.
 */
module Flags {
  import opened Wrappers
  import opened Segments
  import opened SegmentAlgebra
  import opened FlagNames

  datatype Flag = Flag(name: Option<string>, known: seq<Segment>, active: seq<Segment>, padding: (real, real))

  /** The flag a bare `DataQualityFlag()` starts as: no name, nothing known or active, no padding. */
  const EmptyFlag: Flag := Flag(None, [], [], (0.0, 0.0))

  /** Raw (start, end) pairs wrapped as Segments, as the `known` and `active` setters do. */
  function FromPairs(pairs: seq<(real, real)>): (r: seq<Segment>)
    ensures |r| == |pairs|
    ensures forall i :: 0 <= i < |pairs| ==> r[i] == MakeSegment(pairs[i].0, pairs[i].1)
  {
    seq(|pairs|, i requires 0 <= i < |pairs| => MakeSegment(pairs[i].0, pairs[i].1))
  }

  /** The `padding` setter: no padding means (0, 0). */
  function PaddingValue(pad: Option<(real, real)>): (r: (real, real))
    ensures pad.Some? ==> r == pad.value
    ensures pad.None? ==> r == (0.0, 0.0)
  {
    if pad.None? then (0.0, 0.0) else pad.value
  }

  // ---------------------------------------------------------------------------
  // Derived values

  /**
   * `regular`: nothing active lies outside known (the measure of
   * `active - known` is zero).
   */
  predicate Regular(known: seq<Segment>, active: seq<Segment>) {
    Abs(Difference(active, known)) == 0.0
  }

  /** A flag is regular exactly when every active time is a known time. */
  lemma RegularMeansCovered(known: seq<Segment>, active: seq<Segment>)
    ensures Regular(known, active) <==> forall t :: Covers(active, t) ==> Covers(known, t)
  {
    var d := Difference(active, known);
    CanonicalAbsZero(d);
    if d != [] {
      CanonicalCoversFirst(d);
    }
  }

  /** The flag's time span (`extent`): the extent of its known list; a ValueError when nothing is known. */
  function FlagExtent(f: Flag): (r: Result<Segment, ListError>)
    ensures r.Err? <==> f.known == []
    ensures r.Ok? ==> forall t :: Covers(f.known, t) ==> Contains(r.value, t)
    ensures r.Ok? ==> forall i :: 0 <= i < |f.known| ==> r.value.start <= f.known[i].start && f.known[i].end <= r.value.end
    ensures r.Ok? ==> exists i :: 0 <= i < |f.known| && f.known[i].start == r.value.start
    ensures r.Ok? ==> exists j :: 0 <= j < |f.known| && f.known[j].end == r.value.end
  {
    var e := Extent(f.known);
    assert e.Ok? ==> forall t :: Covers(f.known, t) ==> Contains(e.value, t) by {
      if e.Ok? {
        forall t | Covers(f.known, t) ensures Contains(e.value, t) {
          var x :| x in f.known && Contains(x, t);
          var i :| 0 <= i < |f.known| && f.known[i] == x;
        }
      }
    }
    e
  }

  /** `livetime`: the total active duration. */
  function FlagLivetime(f: Flag): (r: real)
    ensures r == Abs(f.active)
    ensures r >= 0.0
    ensures f.active == [] ==> r == 0.0
  {
    Abs(f.active)
  }

  // ---------------------------------------------------------------------------
  // Transforms, as values

  /**
   * `coalesce()`: known is coalesced, and active is coalesced and clipped to
   * known; name and padding are kept.  The result is regular.
   */
  function CoalescedFlag(f: Flag): (r: Flag)
    ensures r.name == f.name && r.padding == f.padding
    ensures Canonical(r.known) && Canonical(r.active)
    ensures forall t :: Covers(r.known, t) <==> Covers(f.known, t)
    ensures forall t :: Covers(r.active, t) <==> Covers(f.active, t) && Covers(f.known, t)
    ensures Regular(r.known, r.active)
  {
    var known := Coalesced(f.known);
    var active := Intersection(known, Coalesced(f.active));
    RegularMeansCovered(known, active);
    f.(known := known, active := active)
  }

  /** Coalescing a flag twice is coalescing it once. */
  lemma CoalescedFlagIdempotent(f: Flag)
    ensures CoalescedFlag(CoalescedFlag(f)) == CoalescedFlag(f)
  {
    var g := CoalescedFlag(f);
    var h := CoalescedFlag(g);
    CanonicalUnique(h.known, g.known);
    CanonicalUnique(h.active, g.active);
  }

  /** A flag that is already coalesced and regular is its own coalesced form. */
  lemma CoalescedFlagOfRegular(f: Flag)
    requires Canonical(f.known) && Canonical(f.active) && Regular(f.known, f.active)
    ensures CoalescedFlag(f) == f
  {
    RegularMeansCovered(f.known, f.active);
    var g := CoalescedFlag(f);
    CanonicalUnique(g.known, f.known);
    CanonicalUnique(g.active, f.active);
  }

  /**
   * `round()`: every known and active segment widened outward to whole
   * numbers (floor of the start, ceiling of the end), then the flag coalesced.
   */
  function RoundedFlag(f: Flag): (r: Flag)
    ensures r.name == f.name && r.padding == f.padding
    ensures Canonical(r.known) && Canonical(r.active) && Regular(r.known, r.active)
    ensures forall t :: Covers(r.known, t) <==> Covers(RoundList(f.known), t)
    ensures forall t :: Covers(r.active, t) <==> Covers(RoundList(f.active), t) && Covers(RoundList(f.known), t)
    ensures IntegerEndpoints(f.known) ==> forall t :: Covers(r.known, t) <==> Covers(f.known, t)
    ensures forall t :: Covers(f.active, t) && Covers(f.known, t) ==> Covers(r.active, t)
  {
    var widened := f.(known := RoundList(f.known), active := RoundList(f.active));
    assert IntegerEndpoints(f.known) ==> widened.known == f.known by {
      if IntegerEndpoints(f.known) { RoundIntegral(f.known); }
    }
    assert forall t :: Covers(f.active, t) && Covers(f.known, t) ==> Covers(widened.active, t) && Covers(widened.known, t) by {
      forall t | Covers(f.active, t) && Covers(f.known, t)
        ensures Covers(widened.active, t) && Covers(widened.known, t)
      {
        RoundWidens(f.active, t);
        RoundWidens(f.known, t);
      }
    }
    CoalescedFlag(widened)
  }

  /** `pad(pre, post)`: pre added to every start and post to every end of both lists, not coalesced. */
  function PaddedFlag(f: Flag, pre: real, post: real): (r: Flag)
    ensures r.name == f.name && r.padding == f.padding
    ensures |r.known| == |f.known| && |r.active| == |f.active|
    ensures forall i :: 0 <= i < |f.known| ==> r.known[i] == MakeSegment(f.known[i].start + pre, f.known[i].end + post)
    ensures forall i :: 0 <= i < |f.active| ==> r.active[i] == MakeSegment(f.active[i].start + pre, f.active[i].end + post)
    ensures pre <= post ==> forall i :: 0 <= i < |f.known| ==>
      r.known[i].start == f.known[i].start + pre && r.known[i].end == f.known[i].end + post
    ensures pre <= post ==> forall i :: 0 <= i < |f.active| ==>
      r.active[i].start == f.active[i].start + pre && r.active[i].end == f.active[i].end + post
  {
    f.(known := PadList(f.known, pre, post), active := PadList(f.active, pre, post))
  }

  /** Padding by (0, 0), as `pad()` does with no padding set, gives an equal flag. */
  lemma PadByNothing(f: Flag)
    ensures PaddedFlag(f, 0.0, 0.0) == f
  {
    PadZero(f.known);
    PadZero(f.active);
  }

  /** Padding twice in place adds up: pad is cumulative, not idempotent. */
  lemma PaddedFlagTwice(f: Flag, pre1: real, post1: real, pre2: real, post2: real)
    requires pre1 <= post1 && pre2 <= post2
    ensures PaddedFlag(PaddedFlag(f, pre1, post1), pre2, post2) == PaddedFlag(f, pre1 + pre2, post1 + post2)
  {
    PadTwice(f.known, pre1, post1, pre2, post2);
    PadTwice(f.active, pre1, post1, pre2, post2);
  }

  /** Padding by (pre, post) with pre <= post is undone by padding by (-pre, -post). */
  lemma PaddedFlagInverse(f: Flag, pre: real, post: real)
    requires pre <= post
    ensures PaddedFlag(PaddedFlag(f, pre, post), -pre, -post) == f
  {
    PadInverse(f.known, pre, post);
    PadInverse(f.active, pre, post);
  }

  /** Padding by (pre, post) with pre <= post is undone by (-pre, -post), and padding by (0, 0) does nothing. */
  lemma PadUndone(f: Flag, pre: real, post: real)
    ensures pre <= post ==> PaddedFlag(PaddedFlag(f, pre, post), -pre, -post) == f
    ensures pre == 0.0 && post == 0.0 ==> PaddedFlag(f, pre, post) == f
  {
    if pre <= post { PaddedFlagInverse(f, pre, post); }
    PadByNothing(f);
  }

  // ---------------------------------------------------------------------------
  // Combinators, as values (the result keeps the left operand's name and padding)

  /** `a & b`: known and active are each intersected. */
  function FlagAnd(a: Flag, b: Flag): (r: Flag)
    ensures r.name == a.name && r.padding == a.padding
    ensures forall t :: Covers(r.known, t) <==> Covers(a.known, t) && Covers(b.known, t)
    ensures forall t :: Covers(r.active, t) <==> Covers(a.active, t) && Covers(b.active, t)
  {
    a.(known := Intersection(a.known, b.known), active := Intersection(a.active, b.active))
  }

  /** `a | b`: known and active are each united. */
  function FlagOr(a: Flag, b: Flag): (r: Flag)
    ensures r.name == a.name && r.padding == a.padding
    ensures forall t :: Covers(r.known, t) <==> Covers(a.known, t) || Covers(b.known, t)
    ensures forall t :: Covers(r.active, t) <==> Covers(a.active, t) || Covers(b.active, t)
  {
    a.(known := Union(a.known, b.known), active := Union(a.active, b.active))
  }

  /**
   * `a - b`: known is where both were evaluated (known is intersected, not
   * subtracted) and active is a's active time that is not b's.
   */
  function FlagSub(a: Flag, b: Flag): (r: Flag)
    ensures r.name == a.name && r.padding == a.padding
    ensures forall t :: Covers(r.known, t) <==> Covers(a.known, t) && Covers(b.known, t)
    ensures forall t :: Covers(r.active, t) <==> Covers(a.active, t) && !Covers(b.active, t)
  {
    a.(known := Intersection(a.known, b.known), active := Difference(a.active, b.active))
  }

  /** The three combinators: a flag with itself gives its own coalesced lists back for `&` and `|`, nothing active for `-`. */
  lemma CombineWithItself(f: Flag)
    ensures FlagAnd(f, f).known == Coalesced(f.known) && FlagAnd(f, f).active == Coalesced(f.active)
    ensures FlagOr(f, f).known == Coalesced(f.known) && FlagOr(f, f).active == Coalesced(f.active)
    ensures FlagSub(f, f).active == []
  {
    CanonicalUnique(FlagAnd(f, f).known, Coalesced(f.known));
    CanonicalUnique(FlagAnd(f, f).active, Coalesced(f.active));
    CanonicalUnique(FlagOr(f, f).known, Coalesced(f.known));
    CanonicalUnique(FlagOr(f, f).active, Coalesced(f.active));
    if FlagSub(f, f).active != [] {
      CanonicalCoversFirst(FlagSub(f, f).active);
    }
  }

  // ---------------------------------------------------------------------------
  // The mutable flag

  datatype PadError = UnexpectedKeyword(keyword: string)

  /** The (pre, post) amounts `pad` uses: its arguments if given, else the flag's padding. */
  function PadAmounts(args: Option<(real, real)>, padding: (real, real)): (real, real) {
    if args.Some? then args.value else padding
  }

  class DataQualityFlag {
    var name: Option<string>
    var known: seq<Segment>
    var active: seq<Segment>
    var padding: (real, real)

    /** The value this object currently holds. */
    function State(): Flag
      reads this
    {
      Flag(name, known, active, padding)
    }

    /** `DataQualityFlag(name, known=..., active=..., padding=...)`: raw pairs are wrapped as Segments. */
    constructor (name: Option<string>, known: seq<(real, real)>, active: seq<(real, real)>, padding: Option<(real, real)>)
      ensures State() == Flag(name, FromPairs(known), FromPairs(active), PaddingValue(padding))
    {
      this.name := name;
      this.known := FromPairs(known);
      this.active := FromPairs(active);
      this.padding := PaddingValue(padding);
    }

    /** `flag.known = pairs` */
    method SetKnown(pairs: seq<(real, real)>)
      modifies this
      ensures State() == old(State()).(known := FromPairs(pairs))
    {
      known := FromPairs(pairs);
    }

    /** `flag.active = pairs` */
    method SetActive(pairs: seq<(real, real)>)
      modifies this
      ensures State() == old(State()).(active := FromPairs(pairs))
    {
      active := FromPairs(pairs);
    }

    /** `flag.padding = pad` */
    method SetPadding(pad: Option<(real, real)>)
      modifies this
      ensures State() == old(State()).(padding := PaddingValue(pad))
    {
      padding := PaddingValue(pad);
    }

    /** `ifo`, `tag` and `version`, parsed from the name. */
    function Parts(): (r: NameParts)
      reads this
      ensures r == ParseName(name)
      ensures name.None? ==> r == NameParts(None, None, None)
    {
      ParseName(name)
    }

    /** `texname` */
    function TexName(): (r: Option<string>)
      reads this
      ensures r.None? <==> name.None?
      ensures r.Some? ==> r.value == Escape(name.value)
      ensures r.Some? ==> forall i :: 0 <= i < |r.value| && r.value[i] == '_' ==> i > 0 && r.value[i - 1] == '\\'
      ensures r.Some? ==> Unescape(r.value) == name.value
    {
      FlagNames.TexName(name)
    }

    /** `extent`: a ValueError exactly when nothing is known. */
    function Extent(): (r: Result<Segment, ListError>)
      reads this
      ensures r.Err? <==> known == []
      ensures r.Ok? ==> forall t :: Covers(known, t) ==> Contains(r.value, t)
      ensures r.Ok? ==> forall i :: 0 <= i < |known| ==> r.value.start <= known[i].start && known[i].end <= r.value.end
      ensures r.Ok? ==> exists i :: 0 <= i < |known| && known[i].start == r.value.start
      ensures r.Ok? ==> exists j :: 0 <= j < |known| && known[j].end == r.value.end
    {
      FlagExtent(State())
    }

    /** `livetime` */
    function Livetime(): (r: real)
      reads this
      ensures r == Abs(active)
      ensures r >= 0.0
      ensures active == [] ==> r == 0.0
    {
      FlagLivetime(State())
    }

    /** `regular` */
    function IsRegular(): (r: bool)
      reads this
      ensures r <==> forall t :: Covers(active, t) ==> Covers(known, t)
    {
      RegularMeansCovered(known, active);
      Regular(known, active)
    }

    /** `copy()`: a new flag holding the same value. */
    method Copy() returns (r: DataQualityFlag)
      ensures fresh(r) && r.State() == State()
    {
      r := new DataQualityFlag(name, [], [], Some(padding));
      r.known := known;
      r.active := active;
    }

    /** `coalesce()`: in place; returns this same flag. */
    method Coalesce() returns (r: DataQualityFlag)
      modifies this
      ensures r == this
      ensures State() == CoalescedFlag(old(State()))
    {
      known := Coalesced(known);
      active := Coalesced(active);
      active := Intersection(known, active);
      r := this;
    }

    /** `contract(x)`: in place, active only. */
    method Contract(x: real)
      modifies this
      ensures State() == old(State()).(active := SegmentAlgebra.Contract(old(active), x))
    {
      active := SegmentAlgebra.Contract(active, x);
    }

    /** `protract(x)`: in place, active only. */
    method Protract(x: real)
      modifies this
      ensures State() == old(State()).(active := SegmentAlgebra.Protract(old(active), x))
    {
      active := SegmentAlgebra.Protract(active, x);
    }

    /** `round()`: a new flag; this one is left as it is. */
    method Round() returns (r: DataQualityFlag)
      ensures fresh(r) && r.State() == RoundedFlag(State())
    {
      ghost var widened := State().(known := RoundList(known), active := RoundList(active));
      assert RoundedFlag(State()) == CoalescedFlag(widened);
      r := Copy();
      r.known := RoundList(known);
      r.active := RoundList(active);
      assert r.State() == widened;
      var same := r.Coalesce();
    }

    /**
     * `pad(*args, inplace=..., **others)`: with no arguments the flag's own
     * padding is used; any other keyword is a TypeError and changes nothing.
     * In place it pads and returns this flag; otherwise it returns a padded
     * copy and leaves this flag as it is.
     */
    method Pad(args: Option<(real, real)>, inplace: bool, otherKeywords: seq<string>)
      returns (r: Result<DataQualityFlag, PadError>)
      modifies this
      ensures otherKeywords != [] ==> r == Err(UnexpectedKeyword(otherKeywords[0])) && State() == old(State())
      ensures otherKeywords == [] ==> r.Ok?
      ensures r.Ok? && inplace ==> r.value == this
      ensures r.Ok? && inplace ==>
        State() == PaddedFlag(old(State()), PadAmounts(args, old(padding)).0, PadAmounts(args, old(padding)).1)
      ensures r.Ok? && !inplace ==> fresh(r.value) && State() == old(State())
      ensures r.Ok? && !inplace ==>
        r.value.State() == PaddedFlag(State(), PadAmounts(args, padding).0, PadAmounts(args, padding).1)
    {
      var amounts := PadAmounts(args, padding);
      if otherKeywords != [] {
        return Err(UnexpectedKeyword(otherKeywords[0]));
      }
      var target: DataQualityFlag;
      if inplace {
        target := this;
      } else {
        target := Copy();
      }
      var newKnown := PadList(known, amounts.0, amounts.1);
      var newActive := PadList(active, amounts.0, amounts.1);
      target.known := newKnown;
      target.active := newActive;
      r := Ok(target);
    }

    /** `a & b`: a new flag. */
    method And(other: DataQualityFlag) returns (r: DataQualityFlag)
      ensures fresh(r) && r.State() == FlagAnd(State(), other.State())
    {
      var k, a := Intersection(known, other.known), Intersection(active, other.active);
      ghost var want := FlagAnd(State(), other.State());
      assert want == Flag(name, k, a, padding);
      r := Copy();
      r.known, r.active := k, a;
      assert r.State() == want;
      assert State() == old(State()) && other.State() == old(other.State());
    }

    /** `a | b`: a new flag. */
    method Or(other: DataQualityFlag) returns (r: DataQualityFlag)
      ensures fresh(r) && r.State() == FlagOr(State(), other.State())
    {
      var k, a := Union(known, other.known), Union(active, other.active);
      ghost var want := FlagOr(State(), other.State());
      assert want == Flag(name, k, a, padding);
      r := Copy();
      r.known, r.active := k, a;
      assert r.State() == want;
      assert State() == old(State()) && other.State() == old(other.State());
    }

    /** `a - b`: a new flag. */
    method Sub(other: DataQualityFlag) returns (r: DataQualityFlag)
      ensures fresh(r) && r.State() == FlagSub(State(), other.State())
    {
      var k, a := Intersection(known, other.known), Difference(active, other.active);
      ghost var want := FlagSub(State(), other.State());
      assert want == Flag(name, k, a, padding);
      r := Copy();
      r.known, r.active := k, a;
      assert r.State() == want;
      assert State() == old(State()) && other.State() == old(other.State());
    }
  }
}
