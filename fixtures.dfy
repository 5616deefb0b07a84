/**
 * The concrete scenarios of the segment and flag test suite, stated on the
 * model: its fixture lists (NAME, KNOWN, ACTIVE, ...), and what each
 * operation gives on them.
 */
module Fixtures {
  import opened Wrappers
  import opened Segments
  import opened SegmentAlgebra
  import opened FlagNames
  import opened Flags
  import opened DataQualityDicts

  /** NAME */
  function Name(): string { "X1:TEST-FLAG_NAME:0" }
  /** KNOWN */
  function Known(): seq<Segment> { [Interval(0.0, 3.0), Interval(6.0, 7.0)] }
  /** ACTIVE */
  function Active(): seq<Segment> { [Interval(1.0, 2.0), Interval(3.0, 4.0), Interval(5.0, 7.0)] }
  /** KNOWNACTIVE, the intersection of KNOWN and ACTIVE */
  function KnownActive(): seq<Segment> { [Interval(1.0, 2.0), Interval(6.0, 7.0)] }
  /** ACTIVE_CONTRACTED */
  function ActiveContracted(): seq<Segment> { [Interval(1.1, 1.9), Interval(3.1, 3.9)] }
  /** ACTIVE_PROTRACTED */
  function ActiveProtracted(): seq<Segment> { [Interval(0.9, 2.1), Interval(2.9, 4.1), Interval(4.9, 7.1)] }
  /** KNOWN2 */
  function Known2(): seq<Segment> { [Interval(100.0, 150.0)] }
  /** ACTIVE2 */
  function Active2(): seq<Segment> { [Interval(100.0, 101.0), Interval(110.0, 120.0)] }
  /** PADDING */
  function Padding(): (real, real) { (-0.5, 1.0) }
  /** KNOWNPAD */
  function KnownPad(): seq<Segment> { [Interval(-0.5, 4.0), Interval(5.5, 8.0)] }
  /** ACTIVEPAD */
  function ActivePad(): seq<Segment> { [Interval(0.5, 3.0), Interval(2.5, 5.0), Interval(4.5, 8.0)] }
  /** ACTIVEPADC, declared by the suite as the coalesced ACTIVEPAD and used by no test */
  function ActivePadC(): seq<Segment> { [Interval(0.5, 4.0), Interval(5.5, 8.0)] }

  /** The test flag: NAME over KNOWN and ACTIVE, no padding. */
  function TestFlag(): Flag { Flag(Some(Name()), Known(), Active(), (0.0, 0.0)) }

  /** The two halves of ACTIVE the combinator test uses, ACTIVE[:2] and ACTIVE[2:]. */
  function ActiveHead(): seq<Segment> { [Interval(1.0, 2.0), Interval(3.0, 4.0)] }
  function ActiveTail(): seq<Segment> { [Interval(5.0, 7.0)] }

  /** The database response the populate test gives X1:TEST-FLAG:1. */
  function QueryX1(): Response {
    Response([Interval(0.0, 10.0)], [Interval(0.0, 1.0), Interval(1.0, 2.0), Interval(3.0, 4.0), Interval(6.0, 9.0)])
  }

  // ---------------------------------------------------------------------------
  // Single computations on the fixture lists, each evaluated on its literals

  lemma TouchingCoalesced()
    ensures Coalesced([Interval(1.0, 2.0), Interval(3.0, 4.0), Interval(4.0, 5.0)]) == [Interval(1.0, 2.0), Interval(3.0, 5.0)]
  {
    var s := [Interval(1.0, 2.0), Interval(3.0, 4.0), Interval(4.0, 5.0)];
    var c := [Interval(1.0, 2.0), Interval(3.0, 5.0)];
    assert Canonical(c);
    forall t ensures Covers(c, t) <==> Covers(s, t) {
      CoversThree(s[0], s[1], s[2], t);
      CoversTwo(c[0], c[1], t);
    }
    CoalescedUnique(s, c);
  }

  lemma KnownCoalesced()
    ensures Coalesced(Known()) == Known()
  {
    CoalescedOfCanonical(Known());
  }

  lemma ActiveCoalesced()
    ensures Coalesced(Active()) == Active()
  {
    CoalescedOfCanonical(Active());
  }

  lemma ActiveHeadCoalesced()
    ensures Coalesced(ActiveHead()) == ActiveHead()
  {
    CoalescedOfCanonical(ActiveHead());
  }

  lemma ActiveHalves()
    ensures ActiveHead() == Active()[..2] && ActiveTail() == Active()[2..]
  {}

  lemma KnownAndKnown()
    ensures Intersection(Known(), Known()) == Known()
  {
    SelfOperand(Known());
    KnownCoalesced();
  }

  lemma KnownOrKnown()
    ensures Union(Known(), Known()) == Known()
  {
    SelfOperand(Known());
    KnownCoalesced();
  }

  lemma HalvesIntersection()
    ensures Intersection(ActiveHead(), ActiveTail()) == []
  {}

  lemma HalvesDifference()
    ensures Difference(ActiveHead(), ActiveTail()) == ActiveHead()
  {}

  lemma HalvesUnion()
    ensures Union(ActiveHead(), ActiveTail()) == Active()
  {}

  lemma KnownActiveIntersection()
    ensures Intersection(Known(), Active()) == KnownActive()
  {
    var k, a, c := Known(), Active(), KnownActive();
    assert Canonical(c);
    forall t ensures Covers(Intersection(k, a), t) <==> Covers(c, t) {
      CoversTwo(k[0], k[1], t);
      CoversThree(a[0], a[1], a[2], t);
      CoversTwo(c[0], c[1], t);
    }
    CanonicalUnique(Intersection(k, a), c);
  }

  lemma ShrunkActive()
    ensures Shrink(Active(), 0.1) == ActiveContracted() + [Interval(5.1, 6.9)]
  {}

  lemma ContractedActive()
    ensures Contract(Active(), 0.1) == ActiveContracted() + [Interval(5.1, 6.9)]
  {
    ShrunkActive();
    assert Canonical(ActiveContracted() + [Interval(5.1, 6.9)]);
    CoalescedOfCanonical(ActiveContracted() + [Interval(5.1, 6.9)]);
  }

  lemma ProtractedContracted()
    ensures Protract(ActiveContracted(), 0.1) == ActiveHead()
  {}

  lemma GrownActive()
    ensures Shrink(Active(), -0.1) == ActiveProtracted()
  {}

  lemma ProtractedActive()
    ensures Protract(Active(), 0.1) == ActiveProtracted()
  {
    GrownActive();
    assert Canonical(ActiveProtracted());
    CoalescedOfCanonical(ActiveProtracted());
  }

  lemma RoundedLists()
    ensures RoundList(Known()) == Known()
    ensures RoundList(ActiveContracted()) == ActiveHead()
  {}

  lemma KnownRoundedIntersection()
    ensures Intersection(Known(), ActiveHead()) == KnownActive()[..1]
  {}

  lemma PaddedLists()
    ensures PadList(Known(), Padding().0, Padding().1) == KnownPad()
    ensures PadList(Active(), Padding().0, Padding().1) == ActivePad()
  {}

  lemma ActivePadCoalesced()
    ensures Coalesced(ActivePad()) == [Interval(0.5, 8.0)]
  {}

  lemma DictUnionLists()
    ensures Union(Known(), Known2()) == Known() + Known2()
    ensures Union(Active(), Active2()) == Active() + Active2()
  {
    KnownUnion2();
    ActiveUnion2();
  }

  lemma KnownUnion2()
    ensures Union(Known(), Known2()) == Known() + Known2()
  {
    CoalescedOfCanonical(Known() + Known2());
  }

  lemma ActiveUnion2()
    ensures Union(Active(), Active2()) == Active() + Active2()
  {
    CoalescedOfCanonical(Active() + Active2());
  }

  lemma KnownIntersection2()
    ensures Intersection(Known(), Known2()) == []
  {}

  lemma ActiveIntersection2()
    ensures Intersection(Active(), Active2()) == []
  {}

  lemma QueryKnownCoalesced()
    ensures Coalesced(QueryX1().known) == QueryX1().known
  {
    CoalescedOfCanonical(QueryX1().known);
  }

  /** Coverage of a two-segment list, segment by segment. */
  lemma CoversTwo(a: Segment, b: Segment, t: real)
    ensures Covers([a, b], t) <==> Contains(a, t) || Contains(b, t)
  {
    assert [a, b][1..] == [b];
    CoversCons([a, b], t);
    CoversCons([b], t);
    assert !Covers([b][1..], t);
  }

  /** Coverage of a three-segment list, segment by segment. */
  lemma CoversThree(a: Segment, b: Segment, c: Segment, t: real)
    ensures Covers([a, b, c], t) <==> Contains(a, t) || Contains(b, t) || Contains(c, t)
  {
    assert [a, b, c][1..] == [b, c];
    assert [b, c][1..] == [c];
    CoversCons([a, b, c], t);
    CoversTwo(b, c, t);
  }

  /** Coverage of a four-segment list, segment by segment. */
  lemma CoversFour(a: Segment, b: Segment, c: Segment, d: Segment, t: real)
    ensures Covers([a, b, c, d], t) <==> Contains(a, t) || Contains(b, t) || Contains(c, t) || Contains(d, t)
  {
    assert [a, b, c, d][1..] == [b, c, d];
    CoversCons([a, b, c, d], t);
    CoversThree(b, c, d, t);
  }

  /** The response's active segments, coalesced. */
  function QueryActiveC(): seq<Segment> { [Interval(0.0, 2.0), Interval(3.0, 4.0), Interval(6.0, 9.0)] }

  lemma QueryActiveCoalesced()
    ensures Coalesced(QueryX1().active) == QueryActiveC()
  {
    var c := QueryActiveC();
    assert Canonical(c);
    forall t ensures Covers(c, t) <==> Covers(QueryX1().active, t) {
      CoversThree(c[0], c[1], c[2], t);
      var a := QueryX1().active;
      CoversFour(a[0], a[1], a[2], a[3], t);
    }
    CoalescedUnique(QueryX1().active, c);
  }

  lemma QueryActiveWithinKnown()
    ensures Intersection(QueryX1().known, QueryActiveC()) == QueryActiveC()
  {
    var c := QueryActiveC();
    assert Canonical(c);
    forall t | Covers(c, t) ensures Covers(QueryX1().known, t) {
      CoversThree(c[0], c[1], c[2], t);
      assert Contains(QueryX1().known[0], t);
    }
    IntersectionWithin(QueryX1().known, c);
  }

  lemma QueryKnownRestricted()
    ensures Intersection(QueryX1().known, [Interval(0.0, 2.0)]) == [Interval(0.0, 2.0)]
  {}

  lemma QueryActiveRestricted()
    ensures Intersection(QueryActiveC(), [Interval(0.0, 2.0)]) == [Interval(0.0, 2.0)]
  {}

  lemma QueryKnownPadded()
    ensures PadList(QueryX1().known, -1.0, 1.0) == [Interval(-1.0, 11.0)]
  {}

  lemma QueryActivePaddedList()
    ensures PadList(QueryActiveC(), -1.0, 1.0) == QueryActivePadded()
  {}

  // ---------------------------------------------------------------------------
  // SegmentList

  /** `coalesce()` on (1,2),(3,4),(4,5) merges the touching pair and returns the same list. */
  method CoalesceScenario() returns (same: bool, segments: seq<Segment>)
    ensures same
    ensures segments == [Interval(1.0, 2.0), Interval(3.0, 5.0)]
  {
    var list := new SegmentList([Interval(1.0, 2.0), Interval(3.0, 4.0), Interval(4.0, 5.0)]);
    var c := list.Coalesce();
    TouchingCoalesced();
    same := c == list;
    segments := c.segments;
  }

  /**
   * ACTIVEPAD coalesces to a single segment, so ACTIVEPADC is not its
   * coalesced form.
   */
  lemma ActivePadCFixture()
    ensures Coalesced(ActivePad()) != ActivePadC()
  {
    ActivePadCoalesced();
  }

  // ---------------------------------------------------------------------------
  // DataQualityFlag attributes

  lemma JoinTwo(a: string, b: string)
    ensures Join([a, b]) == a + ":" + b
  {
    assert [a, b][1..] == [b];
  }

  lemma JoinThree(a: string, b: string, c: string)
    ensures Join([a, b, c]) == a + ":" + (b + ":" + c)
  {
    assert [a, b, c][1..] == [b, c];
    JoinTwo(b, c);
  }

  function NameP(): NameParts { NameParts(Some("X1"), Some("TEST-FLAG_NAME"), Some(0)) }

  lemma NameFormatted()
    ensures FormatName(NameP()) == Name()
  {
    assert ["X1", "TEST-FLAG_NAME"] + [NatToDigits(0)] == ["X1", "TEST-FLAG_NAME", NatToDigits(0)];
    JoinThree("X1", "TEST-FLAG_NAME", NatToDigits(0));
    assert NatToDigits(0) == "0";
    NameJoined();
  }

  lemma NameJoined()
    ensures "X1" + ":" + ("TEST-FLAG_NAME" + ":" + "0") == Name()
  {}

  lemma NameParseable()
    ensures ParseableParts(NameP())
  {}

  /** NAME's parts: detector X1, tag TEST-FLAG_NAME, version 0. */
  lemma NameFixture()
    ensures ParseName(Some(Name())) == NameParts(Some("X1"), Some("TEST-FLAG_NAME"), Some(0))
  {
    NameFormatted();
    NameParseable();
    ParseFormat(NameP());
  }

  lemma NameAroundUnderscore()
    ensures Name() == "X1:TEST-FLAG" + "_" + "NAME:0"
  {}

  lemma TexNameAroundUnderscore()
    ensures "X1:TEST-FLAG" + "\\_" + "NAME:0" == "X1:TEST-FLAG\\_NAME:0"
  {}

  lemma PiecesWithoutUnderscore()
    ensures '_' !in "X1:TEST-FLAG" && '_' !in "NAME:0"
  {}

  /** NAME's TeX form has its underscore escaped; no name has no TeX form. */
  lemma TexNameFixture()
    ensures FlagNames.TexName(Some(Name())) == Some("X1:TEST-FLAG\\_NAME:0")
    ensures FlagNames.TexName(None) == None
  {
    NameAroundUnderscore();
    PiecesWithoutUnderscore();
    EscapeOneUnderscore("X1:TEST-FLAG", "NAME:0");
    TexNameAroundUnderscore();
  }

  /** The parsing test's names: no name, and `test`, have no parts. */
  lemma ParseNameFixture()
    ensures ParseName(None) == NameParts(None, None, None)
    ensures ParseName(Some("test")) == NameParts(None, None, None)
  {
    NameWithoutColon("test");
  }

  lemma IfoTagFormatted()
    ensures FormatName(NameParts(Some("L1"), Some("test"), None)) == "L1:test"
  {
    JoinTwo("L1", "test");
    assert "L1" + ":" + "test" == "L1:test";
  }

  lemma IfoTagParseable()
    ensures ParseableParts(NameParts(Some("L1"), Some("test"), None))
  {
    assert !IsDigit("test"[0]);
  }

  /** `L1:test` has a detector and a tag but no version. */
  lemma ParseIfoTagFixture()
    ensures ParseName(Some("L1:test")) == NameParts(Some("L1"), Some("test"), None)
  {
    IfoTagFormatted();
    IfoTagParseable();
    ParseFormat(NameParts(Some("L1"), Some("test"), None));
  }

  lemma FullFormatted()
    ensures FormatName(NameParts(Some("L1"), Some("test"), Some(1))) == "L1:test:1"
  {
    assert ["L1", "test"] + [NatToDigits(1)] == ["L1", "test", NatToDigits(1)];
    JoinThree("L1", "test", NatToDigits(1));
    assert NatToDigits(1) == "1";
    assert "L1" + ":" + ("test" + ":" + "1") == "L1:test:1";
  }

  lemma FullParseable()
    ensures ParseableParts(NameParts(Some("L1"), Some("test"), Some(1)))
  {}

  /** `L1:test:1` has all three parts. */
  lemma ParseFullFixture()
    ensures ParseName(Some("L1:test:1")) == NameParts(Some("L1"), Some("test"), Some(1))
  {
    FullFormatted();
    FullParseable();
    ParseFormat(NameParts(Some("L1"), Some("test"), Some(1)));
  }

  lemma TagVersionFormatted()
    ensures FormatName(NameParts(None, Some("test"), Some(1))) == "test:1"
  {
    JoinTwo("test", NatToDigits(1));
    assert NatToDigits(1) == "1";
    assert "test" + ":" + "1" == "test:1";
  }

  lemma TagVersionParseable()
    ensures ParseableParts(NameParts(None, Some("test"), Some(1)))
  {}

  /** `test:1` has a tag and a version but no detector. */
  lemma ParseTagVersionFixture()
    ensures ParseName(Some("test:1")) == NameParts(None, Some("test"), Some(1))
  {
    TagVersionFormatted();
    TagVersionParseable();
    ParseFormat(NameParts(None, Some("test"), Some(1)));
  }

  /** The test flag's extent is (KNOWN[0][0], KNOWN[-1][1]); an empty flag's is a ValueError. */
  lemma ExtentFixture()
    ensures FlagExtent(TestFlag()) == Ok(Interval(Known()[0].start, Known()[|Known()| - 1].end))
    ensures FlagExtent(EmptyFlag) == Err(EmptyList)
  {
    ExtentOfCanonical(Known());
  }

  /** The test flag's livetime is `abs(ACTIVE)`, 4 seconds; an empty flag's is 0. */
  lemma LivetimeFixture()
    ensures FlagLivetime(TestFlag()) == Abs(Active()) == 4.0
    ensures FlagLivetime(EmptyFlag) == 0.0
  {
    assert Abs(Active()) == 4.0;
  }

  /** An empty flag is regular; the test flag is not (active (3,4) lies outside known). */
  lemma RegularFixture()
    ensures Regular(EmptyFlag.known, EmptyFlag.active)
    ensures !Regular(TestFlag().known, TestFlag().active)
  {
    RegularMeansCovered([], []);
    TestFlagIrregular();
  }

  lemma TestFlagIrregular()
    ensures !Regular(Known(), Active())
  {
    RegularMeansCovered(Known(), Active());
    assert Covers(Active(), 3.5) by { assert Contains(Active()[1], 3.5); }
    assert !Covers(Known(), 3.5) by { CoversTwo(Known()[0], Known()[1], 3.5); }
  }

  // ---------------------------------------------------------------------------
  // DataQualityFlag methods

  /** `&` of the flags with the two halves of ACTIVE: KNOWN with nothing active. */
  lemma AndFixture()
    ensures FlagAnd(Flag(None, Known(), ActiveHead(), (0.0, 0.0)), Flag(None, Known(), ActiveTail(), (0.0, 0.0)))
      == Flag(None, Known(), [], (0.0, 0.0))
  {
    KnownAndKnown();
    HalvesIntersection();
  }

  /** `-` of the flags with the two halves of ACTIVE: the first half stays active. */
  lemma SubFixture()
    ensures FlagSub(Flag(None, Known(), ActiveHead(), (0.0, 0.0)), Flag(None, Known(), ActiveTail(), (0.0, 0.0)))
      == Flag(None, Known(), ActiveHead(), (0.0, 0.0))
  {
    KnownAndKnown();
    HalvesDifference();
  }

  /** `|` of the flags with the two halves of ACTIVE: all of ACTIVE. */
  lemma OrFixture()
    ensures FlagOr(Flag(None, Known(), ActiveHead(), (0.0, 0.0)), Flag(None, Known(), ActiveTail(), (0.0, 0.0)))
      == Flag(None, Known(), Active(), (0.0, 0.0))
  {
    KnownOrKnown();
    HalvesUnion();
  }

  /** `coalesce()` on the test flag keeps KNOWN, clips active to KNOWNACTIVE and makes the flag regular. */
  lemma CoalesceFixture()
    ensures CoalescedFlag(TestFlag()) == TestFlag().(active := KnownActive())
    ensures Regular(Known(), KnownActive())
  {
    KnownCoalesced();
    ActiveCoalesced();
    ActiveHeadCoalesced();
    KnownActiveIntersection();
  }

  /**
   * `contract(0.1)` on ACTIVE is ACTIVE_CONTRACTED followed by (5.1, 6.9)
   * (the suite's fixture lists the first two segments); `protract(0.1)` on
   * ACTIVE_CONTRACTED gives the first two of ACTIVE back, and on ACTIVE gives
   * ACTIVE_PROTRACTED.
   */
  lemma ContractProtractFixture()
    ensures Contract(Active(), 0.1) == ActiveContracted() + [Interval(5.1, 6.9)]
    ensures Protract(ActiveContracted(), 0.1) == Active()[..2]
    ensures Protract(Active(), 0.1) == ActiveProtracted()
  {
    ContractedActive();
    ProtractedContracted();
    ActiveHalves();
    ProtractedActive();
  }

  /**
   * `round()` on a flag with active ACTIVE_CONTRACTED: known stays KNOWN, and
   * active widens to (1,2),(3,4) and is clipped to known, leaving (1,2), the
   * first segment of KNOWNACTIVE.
   */
  lemma RoundFixture()
    ensures RoundedFlag(TestFlag().(active := ActiveContracted())) == TestFlag().(active := KnownActive()[..1])
  {
    RoundedLists();
    KnownCoalesced();
    ActiveCoalesced();
    ActiveHeadCoalesced();
    KnownRoundedIntersection();
  }

  /** `pad(-0.5, 1)` gives KNOWNPAD and ACTIVEPAD (not coalesced); with no padding set, `pad()` changes nothing. */
  lemma PadFixture()
    ensures PaddedFlag(TestFlag(), Padding().0, Padding().1) == TestFlag().(known := KnownPad(), active := ActivePad())
    ensures PaddedFlag(TestFlag(), TestFlag().padding.0, TestFlag().padding.1) == TestFlag()
  {
    PaddedLists();
    PadByNothing(TestFlag());
  }

  /**
   * The pad test's sequence of calls: with padding set, `pad()` pads by it; a
   * plain `pad(*PADDING)` is another object; `inplace=True` returns the flag
   * itself, padded once; another keyword is a TypeError.
   */
  method PadScenario() returns (copyIsOther: bool, inplaceIsSelf: bool, known: seq<Segment>, active: seq<Segment>, rejected: Result<DataQualityFlag, PadError>)
    ensures copyIsOther && inplaceIsSelf
    ensures known == KnownPad() && active == ActivePad()
    ensures rejected == Err(UnexpectedKeyword("kwarg"))
  {
    PaddedLists();
    var flag := new DataQualityFlag(Some(Name()), [(0.0, 3.0), (6.0, 7.0)], [(1.0, 2.0), (3.0, 4.0), (5.0, 7.0)], None);
    assert flag.known == Known() && flag.active == Active();
    flag.SetPadding(Some(Padding()));
    var padded := flag.Pad(None, false, []);
    assert padded.value.known == KnownPad() && padded.value.active == ActivePad();
    flag.SetPadding(None);
    padded := flag.Pad(Some(Padding()), false, []);
    copyIsOther := padded.value != flag;
    padded := flag.Pad(Some(Padding()), true, []);
    inplaceIsSelf := padded.value == flag;
    known, active := flag.known, flag.active;
    rejected := flag.Pad(Some(Padding()), false, ["kwarg"]);
  }

  // ---------------------------------------------------------------------------
  // DataQualityDict

  /** The two-flag dictionary: its union is KNOWN + KNOWN2 and ACTIVE + ACTIVE2, its intersection is empty. */
  method DictScenario() returns (union: Result<Flag, DictError>, intersection: Result<Flag, DictError>)
    ensures union.Ok? && union.value.known == Known() + Known2() && union.value.active == Active() + Active2()
    ensures intersection.Ok? && intersection.value.known == [] && intersection.value.active == []
  {
    var d := new DataQualityDict();
    var x := Flag(Some("X1:TEST-FLAG:1"), Known(), Active(), (0.0, 0.0));
    var y := Flag(Some("Y1:TEST-FLAG:2"), Known2(), Active2(), (0.0, 0.0));
    d.SetItem("X1:TEST-FLAG:1", x);
    d.SetItem("Y1:TEST-FLAG:2", y);
    assert d.Values() == [x, y];
    FoldOfPair(x, y);
    DictUnionLists();
    KnownIntersection2();
    ActiveIntersection2();
    union := d.Union();
    intersection := d.Intersection();
  }

  /** The response's active segments, coalesced and padded by (-1, 1). */
  function QueryActivePadded(): seq<Segment> { [Interval(-1.0, 3.0), Interval(2.0, 5.0), Interval(5.0, 10.0)] }

  /** The populate test's flag names, QUERY_FLAGS. */
  function X1Name(): string { "X1:TEST-FLAG:1" }
  function Y1Name(): string { "Y1:TEST-FLAG2:4" }

  /**
   * The flag X1:TEST-FLAG:1 before populating, as the test's starting
   * dictionary holds it: the response's known segments, nothing active.
   */
  function Unpopulated(padding: (real, real)): Flag { Flag(Some(X1Name()), QueryX1().known, [], padding) }

  /** The database response the populate test gives Y1:TEST-FLAG2:4: known (0,5),(9,10), nothing active. */
  function QueryY1(): Response { Response([Interval(0.0, 5.0), Interval(9.0, 10.0)], []) }

  /** The two names are different keys. */
  lemma NamesDiffer()
    ensures X1Name() != Y1Name()
  {
    assert X1Name()[0] != Y1Name()[0];
  }

  /** The flag Y1:TEST-FLAG2:4 before populating. */
  function UnpopulatedY1(): Flag { Flag(Some(Y1Name()), QueryY1().known, [], (0.0, 0.0)) }

  /** The response to X1:TEST-FLAG:1 coalesced, over all time. */
  lemma QueryRestricted(padding: (real, real))
    ensures Restricted(Unpopulated(padding), QueryX1(), None)
      == Flag(Some(X1Name()), [Interval(0.0, 10.0)], QueryActiveC(), padding)
  {
    QueryKnownCoalesced();
    QueryActiveCoalesced();
    QueryActiveWithinKnown();
  }

  /** Populating X1:TEST-FLAG:1 gives the coalesced response. */
  lemma PopulateFixture()
    ensures PopulatedFlag(Unpopulated((0.0, 0.0)), QueryX1(), None)
      == Flag(Some(X1Name()), [Interval(0.0, 10.0)], QueryActiveC(), (0.0, 0.0))
  {
    QueryRestricted((0.0, 0.0));
  }

  /** The same fact about a flag and response known only to equal the fixture's. */
  lemma PopulateFixtureAt(x1: Flag, f: Flag, q: Response)
    requires f == Unpopulated((0.0, 0.0)) && q == QueryX1()
    requires x1 == PopulatedFlag(f, q, None)
    ensures x1 == Flag(Some(X1Name()), [Interval(0.0, 10.0)], QueryActiveC(), (0.0, 0.0))
  {
    PopulateFixture();
  }

  /** With padding (-1, 1), populating gives the coalesced response padded. */
  lemma PopulatePaddedFixture()
    ensures PopulatedFlag(Unpopulated((-1.0, 1.0)), QueryX1(), None)
      == Flag(Some(X1Name()), [Interval(-1.0, 11.0)], QueryActivePadded(), (-1.0, 1.0))
  {
    QueryRestricted((-1.0, 1.0));
    QueryKnownPadded();
    QueryActivePaddedList();
  }

  /** The padded fact about a flag and response known only to equal the fixture's. */
  lemma PopulatePaddedFixtureAt(x1: Flag, f: Flag, q: Response)
    requires f == Unpopulated((-1.0, 1.0)) && q == QueryX1()
    requires x1 == PopulatedFlag(f, q, None)
    ensures x1 == Flag(Some(X1Name()), [Interval(-1.0, 11.0)], QueryActivePadded(), (-1.0, 1.0))
  {
    PopulatePaddedFixture();
  }

  /** Restricted to (0, 2), populating gives the coalesced response within that span. */
  lemma PopulateSpanFixture()
    ensures PopulatedFlag(Unpopulated((0.0, 0.0)), QueryX1(), Some(Span()))
      == Flag(Some(X1Name()), [Interval(0.0, 2.0)], [Interval(0.0, 2.0)], (0.0, 0.0))
  {
    QueryKnownCoalesced();
    QueryActiveCoalesced();
    QueryActiveWithinKnown();
    QueryKnownRestricted();
    QueryActiveRestricted();
  }

  /** Populating Y1:TEST-FLAG2:4 gives its response back: already coalesced, nothing active. */
  lemma PopulateY1Fixture()
    ensures PopulatedFlag(UnpopulatedY1(), QueryY1(), None) == UnpopulatedY1()
  {
    CoalescedOfCanonical(QueryY1().known);
    CoalescedOfCanonical([]);
    EmptyOperand(QueryY1().known);
  }

  /** The span (0, 2) of the restricted populate. */
  function Span(): seq<Segment> { [Interval(0.0, 2.0)] }

  /** Y1's known segments cut to (0, 2) are (0, 2) itself. */
  lemma Y1KnownRestricted()
    ensures Intersection(QueryY1().known, Span()) == Span()
  {
    forall t | Covers(Span(), t) ensures Covers(QueryY1().known, t) {
      assert Contains(QueryY1().known[0], t);
    }
    IntersectionWithin(QueryY1().known, Span());
  }

  /** Nothing active stays nothing within the span. */
  lemma NothingRestricted()
    ensures Intersection([], Span()) == []
  {
    IntersectionCommutes([], Span());
    EmptyOperand(Span());
  }

  /** Y1's response coalesced and cut to (0, 2). */
  lemma Y1Restricted()
    ensures Restricted(UnpopulatedY1(), QueryY1(), Some(Span())) == Flag(Some(Y1Name()), Span(), [], (0.0, 0.0))
  {
    PopulateY1Fixture();
    assert CoalescedFlag(UnpopulatedY1()) == UnpopulatedY1();
    Y1KnownRestricted();
    NothingRestricted();
  }

  /** Restricted to (0, 2), Y1:TEST-FLAG2:4 is known over (0, 2) and still has nothing active. */
  lemma PopulateSpanY1Fixture()
    ensures PopulatedFlag(UnpopulatedY1(), QueryY1(), Some(Span())) == Flag(Some(Y1Name()), Span(), [], (0.0, 0.0))
  {
    Y1Restricted();
  }

  /** The populate test's starting dictionary: both flags, X1 with the given padding. */
  method FakeDict(padding: (real, real)) returns (d: DataQualityDict)
    ensures fresh(d) && d.Valid()
    ensures d.keys == [X1Name(), Y1Name()]
    ensures d.flags == map[X1Name() := Unpopulated(padding), Y1Name() := UnpopulatedY1()]
  {
    d := new DataQualityDict();
    d.SetItem(X1Name(), Unpopulated(padding));
    d.SetItem(Y1Name(), UnpopulatedY1());
  }

  /** The responses the populate test's mocked query gives. */
  function Responses(): map<string, Response> { map[X1Name() := QueryX1(), Y1Name() := QueryY1()] }

  /** `vdf.populate()`: X1:TEST-FLAG:1 becomes its coalesced response. */
  method PopulatePlainScenario() returns (r: Result<(), DictError>, x1: Flag)
    ensures r.Ok?
    ensures x1 == Flag(Some(X1Name()), [Interval(0.0, 10.0)], QueryActiveC(), (0.0, 0.0))
  {
    NamesDiffer();
    var vdf := FakeDict((0.0, 0.0));
    assert forall k :: k in vdf.keys ==> k in Responses();
    ghost var before := vdf.flags;
    var resp := Responses();
    r := vdf.Populate(resp, None);
    assert X1Name() in vdf.flags;
    x1 := vdf.flags[X1Name()];
    PopulateFixtureAt(x1, before[X1Name()], resp[X1Name()]);
  }

  /** `vdf2.populate()` with X1 padded by (-1, 1): X1 is its coalesced response padded. */
  method PopulatePaddedScenario() returns (r: Result<(), DictError>, x1: Flag)
    ensures r.Ok?
    ensures x1 == Flag(Some(X1Name()), [Interval(-1.0, 11.0)], QueryActivePadded(), (-1.0, 1.0))
  {
    NamesDiffer();
    var vdf2 := FakeDict((-1.0, 1.0));
    assert forall k :: k in vdf2.keys ==> k in Responses();
    ghost var before := vdf2.flags;
    var resp := Responses();
    r := vdf2.Populate(resp, None);
    assert X1Name() in vdf2.flags;
    x1 := vdf2.flags[X1Name()];
    PopulatePaddedFixtureAt(x1, before[X1Name()], resp[X1Name()]);
  }

  /** `vdf.populate()`: Y1:TEST-FLAG2:4, whose response is already coalesced, comes back as it was. */
  method PopulateY1Scenario() returns (r: Result<(), DictError>, y1: Flag)
    ensures r.Ok?
    ensures y1 == UnpopulatedY1()
  {
    NamesDiffer();
    var vdf := FakeDict((0.0, 0.0));
    assert forall k :: k in vdf.keys ==> k in Responses();
    ghost var before := vdf.flags;
    var resp := Responses();
    r := vdf.Populate(resp, None);
    assert Y1Name() in vdf.flags;
    assert vdf.flags[Y1Name()] == PopulatedFlag(before[Y1Name()], resp[Y1Name()], None);
    y1 := vdf.flags[Y1Name()];
    PopulateY1Fixture();
  }

  /** `vdf3.populate(segments=span)`: X1's coalesced response within (0, 2). */
  method PopulateSpanScenario() returns (r: Result<(), DictError>, x1: Flag)
    ensures r.Ok?
    ensures x1 == Flag(Some(X1Name()), Span(), Span(), (0.0, 0.0))
  {
    NamesDiffer();
    var vdf3 := FakeDict((0.0, 0.0));
    assert forall k :: k in vdf3.keys ==> k in Responses();
    ghost var before := vdf3.flags;
    var resp := Responses();
    r := vdf3.Populate(resp, Some(Span()));
    assert X1Name() in vdf3.flags;
    assert vdf3.flags[X1Name()] == PopulatedFlag(before[X1Name()], resp[X1Name()], Some(Span()));
    x1 := vdf3.flags[X1Name()];
    PopulateSpanFixture();
  }

  /** `vdf3.populate(segments=span)`: Y1's known segments cut to (0, 2), with nothing active. */
  method PopulateSpanY1Scenario() returns (r: Result<(), DictError>, y1: Flag)
    ensures r.Ok?
    ensures y1 == Flag(Some(Y1Name()), Span(), [], (0.0, 0.0))
  {
    NamesDiffer();
    var vdf3 := FakeDict((0.0, 0.0));
    assert forall k :: k in vdf3.keys ==> k in Responses();
    ghost var before := vdf3.flags;
    var resp := Responses();
    r := vdf3.Populate(resp, Some(Span()));
    assert Y1Name() in vdf3.flags;
    assert vdf3.flags[Y1Name()] == PopulatedFlag(before[Y1Name()], resp[Y1Name()], Some(Span()));
    y1 := vdf3.flags[Y1Name()];
    PopulateSpanY1Fixture();
  }

  /** A response missing for Y1:TEST-FLAG2:4 is an error naming it, and the dictionary keeps its flags. */
  method PopulateMissingScenario() returns (r: Result<(), DictError>, kept: bool)
    ensures r == Err(MissingResponse(Y1Name()))
    ensures kept
  {
    NamesDiffer();
    var vdf := FakeDict((0.0, 0.0));
    assert Y1Name() in vdf.keys && Y1Name() !in map[X1Name() := QueryX1()];
    r := vdf.Populate(map[X1Name() := QueryX1()], None);
    kept := vdf.flags == map[X1Name() := Unpopulated((0.0, 0.0)), Y1Name() := UnpopulatedY1()];
  }
}
