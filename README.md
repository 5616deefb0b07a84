# gwpy segments: a verified model

This project models the segment core of gwpy, the gravitational-wave data library.

- A `Segment` is a half-open time interval `[start, end)`.
- A `SegmentList` is a list of segments. It supports `coalesce()` and the set operators `&`, `|` and `-`, plus `+` (concatenation) and `abs()` (total duration).
- A `DataQualityFlag` pairs two segment lists:
  - `known` is when a data-quality condition was evaluated;
  - `active` is when the condition held.
  
  It also carries a name of the form `IFO:TAG:VERSION` and a `(pre, post)` padding. Its operations are `coalesce`, `contract`, `protract`, `round`, `pad`, `extent`, `livetime`, `regular`, `texname` and the `&`, `|`, `-` combinators.
- A `DataQualityDict` maps flag names to flags, in insertion order. It has `union()`, `intersection()` and `populate()`, which fills every flag from a segment-database response.

Modules:

- `Segments` (`segments.dfy`) covers segments and coalescing.
  - `Covers(s, t)` says the list `s` contains the time `t`.
  - `Canonical(s)` means the list is sorted, its segments are non-empty, and no two of them touch.
  - `CanonicalUnique` shows that two canonical lists covering the same times are equal. Most results are proved through this lemma.
  - `SegmentList` is a class with a `segments` field. `Coalesce` rewrites that field in place with a sort-and-sweep loop, and returns the same object.
- `SegmentAlgebra` (`segment_algebra.dfy`) covers the rest of the list operations:
  - the operators `&` (`Intersection`), `|` (`Union`), `-` (`Difference`) and `+` (`Concat`);
  - `extent`, `contract`/`protract`, padding and rounding.
- `FlagNames` (`flag_names.dfy`) covers name handling:
  - splitting on `:` and joining back;
  - decimal versions;
  - name parsing;
  - the TeX-escaped name.
- `Flags` (`flags.dfy`) covers the flag. `Flag` is the value a flag holds, and the specification functions work on it. The class `DataQualityFlag` has the fields `name`, `known`, `active` and `padding`, and its methods update them. Each method is specified by the function that computes its new state.
- `DataQualityDicts` (`dq_dict.dfy`) covers the dictionary:
  - the folds behind `union()` and `intersection()`;
  - `populate`, as a pure post-processing of given database responses;
  - the class `DataQualityDict`, whose fields are the key order and a map from names to flags.
- `Fixtures` (`fixtures.dfy`) restates the suite's constants and what its tests expect of them as lemmas and small methods.
- `Wrappers` (`wrappers.dfy`) holds `Option` and `Result`.

Endpoints are exact `real` numbers.

The suite's list comparison helper is not part of this model. The expected lists suggest it compares only the leading segments of the two lists, the way `zip` pairs them. Where a fixture is shorter than the true result, the fixture lemma states the full result and shows that the fixture is its prefix:

- `contract(0.1)` on ACTIVE also keeps `(5.1, 6.9)`;
- `round()` leaves only the first segment of KNOWNACTIVE.

## Model

| member | source | states |
|---|---|---|
| Segments.MakeSegment | gwpy/tests/test_segments.py:50-51 | a segment built from a (start, end) pair keeps both endpoints in order; a reversed pair is stored with its endpoints swapped |
| Segments.Length | gwpy/tests/test_segments.py:158-160 | a segment's duration is never negative, and it is zero exactly when the segment contains no time |
| Segments.Abs | gwpy/tests/test_segments.py:308-310 | `abs()` of a list is never negative |
| Segments.CoversConcat | gwpy/tests/test_segments.py:552-556 | `a + b` covers a time exactly when `a` or `b` does |
| Segments.AbsConcat | gwpy/tests/test_segments.py:308-310 | the duration of `a + b` is the sum of the two durations |
| Segments.CoversPermutation | gwpy/tests/test_segments.py:186-191 | reordering a list leaves the times it covers unchanged |
| Segments.CanonicalSeparated | gwpy/tests/test_segments.py:186-191 | in a coalesced list, every segment ends strictly before any later one starts |
| Segments.CanonicalUnique | gwpy/tests/test_segments.py:186-191 | two coalesced lists that cover the same times are equal, so a coalesced list is determined by its coverage |
| Segments.CanonicalAbsZero | gwpy/tests/test_segments.py:312-314 | a coalesced list has zero duration exactly when it is empty |
| Segments.Insert | gwpy/tests/test_segments.py:186-191 | inserting into a sorted list gives a sorted list with the same elements plus the new one |
| Segments.Sort | gwpy/tests/test_segments.py:186-191 | the result is sorted (by start, then end) and is a permutation of the input |
| Segments.AbsSort | gwpy/tests/test_segments.py:186-191 | sorting keeps the total duration |
| Segments.SortSorted | gwpy/tests/test_segments.py:186-191 | sorting a sorted list changes nothing |
| Segments.SweepCovers | gwpy/tests/test_segments.py:186-191 | the merging sweep covers exactly the open run plus the rest of the list |
| Segments.SweepCanonical | gwpy/tests/test_segments.py:186-191 | the merging sweep's output is sorted, non-empty per segment and free of touching neighbours |
| Segments.SweepAbs | gwpy/tests/test_segments.py:186-191 | merging never increases the total duration |
| Segments.SweepOfCanonical | gwpy/tests/test_segments.py:186-191 | the sweep passes an already separated list through unchanged |
| Segments.Coalesced | gwpy/tests/test_segments.py:186-191 | coalescing gives a canonical list covering exactly the same times |
| Segments.CoalescedOfCanonical | gwpy/tests/test_segments.py:186-191 | coalescing a coalesced list changes nothing |
| Segments.CoalesceIdempotent | gwpy/tests/test_segments.py:186-191 | coalescing twice is coalescing once |
| Segments.CoalescedUnique | gwpy/tests/test_segments.py:186-191 | any canonical list covering the same times as `s` is `s` coalesced |
| Segments.CoalescedAbs | gwpy/tests/test_segments.py:186-191 | coalescing never increases the total duration |
| Segments.SegmentList.constructor | gwpy/tests/test_segments.py:175-177 | a new list holds exactly the given segments |
| Segments.SegmentList.Coalesce | gwpy/tests/test_segments.py:186-191 | in place: the loop leaves the list coalesced and returns the same object (`c is segmentlist`) |
| SegmentAlgebra.Overlap | gwpy/tests/test_segments.py:378-380 | the overlap of two segments covers exactly the times both contain |
| SegmentAlgebra.OverlapsCovers | gwpy/tests/test_segments.py:378-380 | the pairwise overlaps of two lists cover exactly the times both lists cover |
| SegmentAlgebra.Intersection | gwpy/tests/test_segments.py:378-380 | `a & b` is coalesced and covers a time exactly when both operands do |
| SegmentAlgebra.Concat | gwpy/tests/test_segments.py:552-556 | `a + b` is `a` followed by `b`, uncoalesced; its duration is the sum and it covers what either operand covers |
| SegmentAlgebra.Union | gwpy/tests/test_segments.py:388-390 | the union of `a` and `b` is coalesced and covers a time exactly when either operand does |
| SegmentAlgebra.Cut | gwpy/tests/test_segments.py:383-385 | one segment minus another covers the times of the first that the second does not contain |
| SegmentAlgebra.CutAllCovers | gwpy/tests/test_segments.py:383-385 | cutting every segment of `b` out of `a` leaves exactly the times of `a` that `b` does not cover |
| SegmentAlgebra.Difference | gwpy/tests/test_segments.py:383-385 | `a - b` is coalesced and covers a time exactly when `a` does and `b` does not |
| SegmentAlgebra.IntersectionCommutes | gwpy/tests/test_segments.py:378-380 | `a & b == b & a` |
| SegmentAlgebra.IntersectionAssociates | gwpy/tests/test_segments.py:558-562 | `(a & b) & c == a & (b & c)`, so the fold over a dictionary does not depend on grouping |
| SegmentAlgebra.UnionCommutes | gwpy/tests/test_segments.py:388-390 | union commutes: `Union(a, b) == Union(b, a)` |
| SegmentAlgebra.UnionAssociates | gwpy/tests/test_segments.py:552-556 | union associates: `Union(Union(a, b), c) == Union(a, Union(b, c))` |
| SegmentAlgebra.SelfOperand | gwpy/tests/test_segments.py:378-390 | `a & a` and the union of `a` with itself are both `a` coalesced, so flags that share KNOWN keep KNOWN |
| SegmentAlgebra.IntersectionWithin | gwpy/tests/test_segments.py:677-681 | intersecting with a coalesced list whose times all lie inside `a` gives that list back |
| SegmentAlgebra.DifferenceDoesNotCommute | gwpy/tests/test_segments.py:383-385 | `-` is not symmetric: `[(0,2)] - [(0,1)]` differs from `[(0,1)] - [(0,2)]` |
| SegmentAlgebra.UnionSubadditive | gwpy/tests/test_segments.py:388-390 | the union's duration is at most `abs(a) + abs(b)` |
| SegmentAlgebra.EmptyOperand | gwpy/tests/test_segments.py:378-385 | with an empty operand: `&` is empty, and union and `-` give the other operand coalesced |
| SegmentAlgebra.MinStart | gwpy/tests/test_segments.py:303-306 | the earliest start in a non-empty list: it is some segment's start and no later than any |
| SegmentAlgebra.MaxEnd | gwpy/tests/test_segments.py:303-306 | the latest end in a non-empty list: it is some segment's end and no earlier than any |
| SegmentAlgebra.Extent | gwpy/tests/test_segments.py:303-306 | `extent()` is an error exactly for an empty list; otherwise it is the tightest segment enclosing every segment |
| SegmentAlgebra.ExtentOfCanonical | gwpy/tests/test_segments.py:303-306 | for a coalesced list, the extent runs from the first start to the last end (`KNOWN[0][0], KNOWN[-1][1]`) |
| SegmentAlgebra.Shrink | gwpy/tests/test_segments.py:399-409 | moving every start by `+x` and every end by `-x` covers exactly those shrunk spans; segments that would reverse are dropped |
| SegmentAlgebra.Contract | gwpy/tests/test_segments.py:399-403 | `contract(x)` is coalesced and covers exactly the times at least `x` inside some original segment |
| SegmentAlgebra.Protract | gwpy/tests/test_segments.py:405-409 | `protract(x)` is coalesced and covers exactly the times within `x` of some original segment |
| SegmentAlgebra.ShrinkCanonical | gwpy/tests/test_segments.py:399-403 | a coalesced list whose segments are all longer than `2x` shrinks segment by segment and stays coalesced |
| SegmentAlgebra.ShrinkGrow | gwpy/tests/test_segments.py:405-409 | growing by `x` and then shrinking by `x` gives the list back |
| SegmentAlgebra.ProtractContract | gwpy/tests/test_segments.py:399-409 | on a coalesced list whose segments are longer than `2x`, `protract(x)` undoes `contract(x)` |
| SegmentAlgebra.ShrinkAfterShrink | gwpy/tests/test_segments.py:399-409 | shrinking by `x` and growing back by `x` restores every segment of length at least `2x` |
| SegmentAlgebra.PadList | gwpy/tests/test_segments.py:84-92 | padding adds `pre` to every start and `post` to every end, segment by segment, and does not coalesce |
| SegmentAlgebra.PadZero | gwpy/tests/test_segments.py:419-420 | padding by (0, 0) changes nothing |
| SegmentAlgebra.PadShifts | gwpy/tests/test_segments.py:423-426 | with `pre <= post`, each padded segment is exactly `(start + pre, end + post)` |
| SegmentAlgebra.PadTwice | gwpy/tests/test_segments.py:435-440 | when `pre <= post` for both paddings, padding twice adds the paddings, so padding is cumulative and not idempotent |
| SegmentAlgebra.PadInverse | gwpy/tests/test_segments.py:429-432 | when `pre <= post`, padding by `(pre, post)` is undone by padding by `(-pre, -post)` |
| SegmentAlgebra.ScaledIsProduct | gwpy/tests/test_segments.py:84-92 | adding `d` up `n` times equals `n * d` |
| SegmentAlgebra.PadAbs | gwpy/tests/test_segments.py:84-92 | when `pre <= post`, padding grows the total duration by `post - pre` for every segment |
| SegmentAlgebra.Ceil | gwpy/tests/test_segments.py:411-415 | the ceiling is the least integer not below `x` |
| SegmentAlgebra.RoundSegment | gwpy/tests/test_segments.py:411-415 | rounding widens a segment outward to whole numbers: the floor of the start and the ceiling of the end |
| SegmentAlgebra.RoundList | gwpy/tests/test_segments.py:411-415 | every segment of the list is rounded, in place in the list |
| SegmentAlgebra.RoundIntegral | gwpy/tests/test_segments.py:411-415 | segments with whole-number endpoints are left as they are (KNOWN stays KNOWN) |
| SegmentAlgebra.RoundWidens | gwpy/tests/test_segments.py:411-415 | rounding never loses a covered time |
| FlagNames.Split | gwpy/tests/test_segments.py:271-277 | `name.split(':')` gives at least one part, and no part contains ':' |
| FlagNames.JoinSplit | gwpy/tests/test_segments.py:271-277 | joining the split parts with ':' rebuilds the name |
| FlagNames.SplitJoin | gwpy/tests/test_segments.py:271-277 | splitting parts joined with ':' gives the parts back when none contains ':' |
| FlagNames.SplitNoColon | gwpy/tests/test_segments.py:335-339 | a name without ':' splits into itself alone |
| FlagNames.DigitChar | gwpy/tests/test_segments.py:347-352 | each digit value has a digit character with that value |
| FlagNames.NatToDigits | gwpy/tests/test_segments.py:347-352 | `str(n)` is a non-empty string of decimal digits |
| FlagNames.DigitsRoundTrip | gwpy/tests/test_segments.py:347-352 | `int(str(n)) == n` |
| FlagNames.ParseName | gwpy/tests/test_segments.py:328-358 | no name gives no parts; a version is only present with a tag, and so is an ifo |
| FlagNames.ParseFormat | gwpy/tests/test_segments.py:328-358 | parsing a name formatted from parseable parts (`IFO:TAG:VERSION`, `TAG:VERSION`, `IFO:TAG`) recovers those parts |
| FlagNames.NameWithoutColon | gwpy/tests/test_segments.py:335-339 | a name without ':' (such as `test`) has no ifo, tag or version |
| FlagNames.Escape | gwpy/tests/test_segments.py:299-301 | in the escaped name, every underscore is preceded by a backslash |
| FlagNames.EscapeConcat | gwpy/tests/test_segments.py:299-301 | escaping works piece by piece over concatenation |
| FlagNames.EscapeWithoutUnderscore | gwpy/tests/test_segments.py:299-301 | a string without underscores is its own escape |
| FlagNames.EscapeOneUnderscore | gwpy/tests/test_segments.py:299-301 | `a_b` escapes to `a\_b` when `a` and `b` have no underscores |
| FlagNames.UnescapeEscape | gwpy/tests/test_segments.py:299-301 | unescaping the escaped name gives the name back, so escaping loses nothing |
| FlagNames.TexName | gwpy/tests/test_segments.py:299-301 | `texname` is absent exactly when the name is; otherwise it is the name escaped, so every underscore has a backslash before it, and it unescapes back to the name |
| Flags.FromPairs | gwpy/tests/test_segments.py:279-297 | the `known`/`active` setters turn each raw pair into the segment at the same position |
| Flags.PaddingValue | gwpy/tests/test_segments.py:429-430 | setting `padding = None` means (0, 0); any other value is kept |
| Flags.RegularMeansCovered | gwpy/tests/test_segments.py:312-314 | `regular` holds exactly when every active time is a known time |
| Flags.FlagExtent | gwpy/tests/test_segments.py:303-306 | the flag's extent is a ValueError exactly when nothing is known; otherwise it starts no later and ends no earlier than every known segment, zero-length ones included, and its start and end are a known segment's start and end: the earliest start and the latest end |
| Flags.FlagLivetime | gwpy/tests/test_segments.py:308-310 | `livetime` is `abs(active)`, the summed duration of the active segments (which AbsConcat, AbsSort and CoalescedAbs characterise); it is never negative and is 0 with nothing active |
| Flags.CoalescedFlag | gwpy/tests/test_segments.py:392-397 | after `coalesce()`, known and active are coalesced, known covers what it did, active covers what was both active and known, and the flag is regular |
| Flags.CoalescedFlagIdempotent | gwpy/tests/test_segments.py:392-397 | coalescing a flag twice is coalescing it once |
| Flags.CoalescedFlagOfRegular | gwpy/tests/test_segments.py:392-397 | a flag that is coalesced and regular is unchanged by `coalesce()` |
| Flags.RoundedFlag | gwpy/tests/test_segments.py:411-415 | `round()` gives a coalesced flag that covers exactly the rounded-outward known list, and is active exactly where the rounded active and rounded known lists both are; whole-number known lists keep their coverage; every time that was active and known stays active |
| Flags.PaddedFlag | gwpy/tests/test_segments.py:417-440 | `pad` keeps the name, padding and list lengths; for every `pre` and `post`, segment i becomes `(start + pre, end + post)`, with the endpoints put in order when that pair is reversed; when `pre <= post` no reordering happens, so every start moves by `pre` and every end by `post` |
| Flags.PadByNothing | gwpy/tests/test_segments.py:419-420 | `pad()` with no padding gives an equal flag |
| Flags.PaddedFlagTwice | gwpy/tests/test_segments.py:435-440 | when `pre <= post` for both paddings, padding a flag twice adds the paddings |
| Flags.PaddedFlagInverse | gwpy/tests/test_segments.py:674 | when `pre <= post`, padding a flag by `(pre, post)` is undone by `(-pre, -post)` |
| Flags.PadUndone | gwpy/tests/test_segments.py:658-674 | the inverse and zero cases of padding together, as `populate` relies on |
| Flags.FlagAnd | gwpy/tests/test_segments.py:378-380 | `a & b` keeps `a`'s name and padding; known and active each cover a time exactly when both flags' lists do |
| Flags.FlagOr | gwpy/tests/test_segments.py:388-390 | the union of flags keeps `a`'s name and padding; known and active each cover a time exactly when either flag's list does |
| Flags.FlagSub | gwpy/tests/test_segments.py:383-385 | `a - b` keeps `a`'s name and padding; known is where both flags are known, and active is `a`'s active time outside `b`'s |
| Flags.CombineWithItself | gwpy/tests/test_segments.py:373-390 | a flag combined with itself: `&` and union give its coalesced lists back, and `-` leaves nothing active |
| Flags.DataQualityFlag.constructor | gwpy/tests/test_segments.py:256-267 | the new flag holds the name, the pairs as segments, and the padding (0, 0 when absent) |
| Flags.DataQualityFlag.SetKnown | gwpy/tests/test_segments.py:279-287 | the setter replaces known with the wrapped pairs and changes nothing else |
| Flags.DataQualityFlag.SetActive | gwpy/tests/test_segments.py:289-297 | the setter replaces active with the wrapped pairs and changes nothing else |
| Flags.DataQualityFlag.SetPadding | gwpy/tests/test_segments.py:423-430 | the setter replaces padding (None means (0, 0)) and changes nothing else |
| Flags.DataQualityFlag.Parts | gwpy/tests/test_segments.py:271-277 | `ifo`/`tag`/`version` are the name parsed by `ParseName` (which ParseFormat inverts), and are all absent without a name |
| Flags.DataQualityFlag.TexName | gwpy/tests/test_segments.py:299-301 | `texname` is absent exactly when the name is; otherwise it is the name escaped, so every underscore has a backslash before it, and it unescapes back to the name |
| Flags.DataQualityFlag.Extent | gwpy/tests/test_segments.py:303-306 | a ValueError exactly when nothing is known; otherwise it starts no later and ends no earlier than every known segment, and its start and end are a known segment's start and end: the earliest start and the latest end |
| Flags.DataQualityFlag.Livetime | gwpy/tests/test_segments.py:308-310 | `abs(active)` of the flag's state; never negative, and 0 when nothing is active |
| Flags.DataQualityFlag.IsRegular | gwpy/tests/test_segments.py:312-314 | true exactly when every active time is known |
| Flags.DataQualityFlag.Copy | gwpy/tests/test_segments.py:435-436 | a new object holding the same flag |
| Flags.DataQualityFlag.Coalesce | gwpy/tests/test_segments.py:392-397 | in place: the new state is the coalesced flag, and the same object is returned |
| Flags.DataQualityFlag.Contract | gwpy/tests/test_segments.py:399-403 | in place: active is contracted, and known, name and padding stay |
| Flags.DataQualityFlag.Protract | gwpy/tests/test_segments.py:405-409 | in place: active is protracted, and known, name and padding stay |
| Flags.DataQualityFlag.Round | gwpy/tests/test_segments.py:411-415 | a new flag holding the rounded flag; the original is left as it is |
| Flags.DataQualityFlag.Pad | gwpy/tests/test_segments.py:417-444 | another keyword is a TypeError and changes nothing; with no arguments the padding attribute is used; in place the flag is padded and returned itself; otherwise a fresh padded copy is returned and the flag stays |
| Flags.DataQualityFlag.And | gwpy/tests/test_segments.py:378-380 | a new flag holding `FlagAnd` of the two states |
| Flags.DataQualityFlag.Or | gwpy/tests/test_segments.py:388-390 | a new flag holding `FlagOr` of the two states |
| Flags.DataQualityFlag.Sub | gwpy/tests/test_segments.py:383-385 | a new flag holding `FlagSub` of the two states |
| DataQualityDicts.OrAll | gwpy/tests/test_segments.py:552-556 | the union fold over flags covers a time exactly when some flag covers it; a single flag comes back unchanged |
| DataQualityDicts.AndAll | gwpy/tests/test_segments.py:558-562 | the `&` fold over flags covers a time exactly when every flag covers it; a single flag comes back unchanged |
| DataQualityDicts.AndAllWithinOrAll | gwpy/tests/test_segments.py:552-562 | every time in the intersection is in the union |
| DataQualityDicts.FoldOfPair | gwpy/tests/test_segments.py:552-562 | for two flags, the folds are exactly `FlagOr(a, b)` and `FlagAnd(a, b)` |
| DataQualityDicts.Restricted | gwpy/tests/test_segments.py:660-681 | the response coalesced and clipped to the span: known covers the response's known time inside the span, active the response's active and known time inside the span; the result is regular |
| DataQualityDicts.PopulatedFlag | gwpy/tests/test_segments.py:658-681 | populating one flag gives the restricted response padded by the flag's own padding; when `pre <= post` undoing the padding gives the restricted response back, and with no padding it is the restricted response |
| DataQualityDicts.Lookup | gwpy/tests/test_segments.py:537-543 | the flags stored under the keys, in key order |
| DataQualityDicts.DataQualityDict.constructor | gwpy/tests/test_segments.py:537-538 | a new dict is empty |
| DataQualityDicts.DataQualityDict.SetItem | gwpy/tests/test_segments.py:539-542 | `d[name] = flag` stores the flag; a new name goes last and an existing one keeps its place |
| DataQualityDicts.DataQualityDict.Values | gwpy/tests/test_segments.py:537-543 | `values()` lists the flags in insertion order |
| DataQualityDicts.DataQualityDict.Union | gwpy/tests/test_segments.py:552-556 | `union()` is an error exactly on an empty dict; otherwise it covers what some flag covers |
| DataQualityDicts.DataQualityDict.Intersection | gwpy/tests/test_segments.py:558-562 | `intersection()` is an error exactly on an empty dict; otherwise it covers what every flag covers |
| DataQualityDicts.DataQualityDict.Populate | gwpy/tests/test_segments.py:646-681 | a flag without a response is an error that changes nothing; otherwise every flag becomes its populated form, and the keys stay |
| DataQualityDicts.DataQualityDict.UpdateEach | gwpy/tests/test_segments.py:664-671 | the loop over the keys replaces every flag by the step applied to it and its response, and keeps the keys |
| Fixtures.TouchingCoalesced | gwpy/tests/test_segments.py:186-191 | `[(1,2),(3,4),(4,5)]` coalesces to `[(1,2),(3,5)]` |
| Fixtures.CoalesceScenario | gwpy/tests/test_segments.py:186-191 | `coalesce()` on that list returns the list itself, now `[(1,2),(3,5)]` |
| Fixtures.KnownActiveIntersection | gwpy/tests/test_segments.py:57-67 | KNOWN & ACTIVE == KNOWNACTIVE |
| Fixtures.NameFixture | gwpy/tests/test_segments.py:271-277 | NAME parses to ifo `X1`, tag `TEST-FLAG_NAME`, version 0 |
| Fixtures.TexNameFixture | gwpy/tests/test_segments.py:299-301 | the texname of NAME is `X1:TEST-FLAG\_NAME:0`; no name gives no texname |
| Fixtures.ParseNameFixture | gwpy/tests/test_segments.py:329-339 | no name, and the name `test`, give no ifo, tag or version |
| Fixtures.ParseIfoTagFixture | gwpy/tests/test_segments.py:341-345 | `L1:test` gives ifo `L1`, tag `test` and no version |
| Fixtures.ParseFullFixture | gwpy/tests/test_segments.py:347-352 | `L1:test:1` gives ifo `L1`, tag `test`, version 1 |
| Fixtures.ParseTagVersionFixture | gwpy/tests/test_segments.py:354-358 | `test:1` gives no ifo, tag `test`, version 1 |
| Fixtures.ExtentFixture | gwpy/tests/test_segments.py:303-306 | the test flag's extent is `(KNOWN[0][0], KNOWN[-1][1])`; the empty flag's is an error |
| Fixtures.LivetimeFixture | gwpy/tests/test_segments.py:308-310 | the test flag's livetime is `abs(ACTIVE)` (4); the empty flag's is 0 |
| Fixtures.RegularFixture | gwpy/tests/test_segments.py:312-314 | the empty flag is regular and the test flag is not |
| Fixtures.AndFixture | gwpy/tests/test_segments.py:373-380 | `a & b` of the two halves of ACTIVE is KNOWN with nothing active |
| Fixtures.SubFixture | gwpy/tests/test_segments.py:373-385 | `a - b` keeps `a`'s active and KNOWN |
| Fixtures.OrFixture | gwpy/tests/test_segments.py:373-390 | the union of the two flags is ACTIVE over KNOWN |
| Fixtures.CoalesceFixture | gwpy/tests/test_segments.py:392-397 | the coalesced test flag has KNOWN, active KNOWNACTIVE, and is regular |
| Fixtures.ContractProtractFixture | gwpy/tests/test_segments.py:399-409 | `contract(0.1)` of ACTIVE is ACTIVE_CONTRACTED + `[(5.1, 6.9)]`; `protract(0.1)` of ACTIVE_CONTRACTED is the first two of ACTIVE; protracting ACTIVE gives ACTIVE_PROTRACTED |
| Fixtures.RoundFixture | gwpy/tests/test_segments.py:411-415 | rounding the flag with active ACTIVE_CONTRACTED gives KNOWN and `[(1,2)]`, the first of KNOWNACTIVE |
| Fixtures.PadFixture | gwpy/tests/test_segments.py:417-426 | padding by PADDING gives KNOWNPAD and ACTIVEPAD; `pad()` with no padding leaves the flag equal |
| Fixtures.PadScenario | gwpy/tests/test_segments.py:417-444 | the pad test's calls: the padding attribute is used, the copy is another object, in place returns the flag padded, and `kwarg` is a TypeError |
| Fixtures.ActivePadCFixture | gwpy/tests/test_segments.py:94-96 | ACTIVEPADC is not ACTIVEPAD coalesced, which is `[(0.5, 8)]` |
| Fixtures.DictScenario | gwpy/tests/test_segments.py:537-562 | the two-flag dict's union is KNOWN + KNOWN2 and ACTIVE + ACTIVE2; its intersection is empty |
| Fixtures.QueryRestricted | gwpy/tests/test_segments.py:103-116 | the X1 response coalesced is known `[(0,10)]` and active `[(0,2),(3,4),(6,9)]` |
| Fixtures.PopulateFixture | gwpy/tests/test_segments.py:666-671 | populating X1:TEST-FLAG:1 gives the coalesced response |
| Fixtures.PopulatePaddedFixture | gwpy/tests/test_segments.py:658-674 | with padding (-1, 1), populating gives the coalesced response padded by (-1, 1) |
| Fixtures.PopulateSpanFixture | gwpy/tests/test_segments.py:660-681 | restricted to `[(0, 2)]`, populating gives known and active `[(0, 2)]` |
| Fixtures.PopulateFixtureAt | gwpy/tests/test_segments.py:666-671 | any flag and response equal to the X1 fixture's populate to the coalesced response |
| Fixtures.PopulatePaddedFixtureAt | gwpy/tests/test_segments.py:658-674 | any flag and response equal to the padded X1 fixture's populate to the coalesced response padded by (-1, 1) |
| Fixtures.NamesDiffer | gwpy/tests/test_segments.py:101 | the two QUERY_FLAGS names are different keys |
| Fixtures.PopulateY1Fixture | gwpy/tests/test_segments.py:110-113 | populating Y1:TEST-FLAG2:4 gives its response back, since `[(0,5),(9,10)]` is already coalesced and nothing is active |
| Fixtures.Y1KnownRestricted | gwpy/tests/test_segments.py:677-681 | Y1's known list cut to the span `[(0, 2)]` is the span |
| Fixtures.NothingRestricted | gwpy/tests/test_segments.py:677-681 | an empty active list cut to the span stays empty |
| Fixtures.Y1Restricted | gwpy/tests/test_segments.py:677-681 | Y1's response coalesced and cut to the span is known `[(0, 2)]` with nothing active |
| Fixtures.PopulateSpanY1Fixture | gwpy/tests/test_segments.py:677-681 | restricted to `[(0, 2)]`, populating Y1 gives known `[(0, 2)]` and nothing active |
| Fixtures.FakeDict | gwpy/tests/test_segments.py:646-660 | the test's starting dictionary holds X1 (with the given padding) and Y1, unpopulated, under their names and in that order |
| Fixtures.PopulatePlainScenario | gwpy/tests/test_segments.py:666-671 | `populate()` on the starting dictionary succeeds, and X1 holds known `[(0,10)]` and active `[(0,2),(3,4),(6,9)]` |
| Fixtures.PopulateY1Scenario | gwpy/tests/test_segments.py:666-671 | `populate()` on the starting dictionary succeeds, and Y1 holds its response unchanged |
| Fixtures.PopulatePaddedScenario | gwpy/tests/test_segments.py:658-674 | `populate()` with X1 padded by (-1, 1) succeeds, and X1 holds known `[(-1,11)]` and the active list padded |
| Fixtures.PopulateSpanScenario | gwpy/tests/test_segments.py:660-681 | `populate(segments=span)` succeeds, and X1 holds known and active `[(0, 2)]` |
| Fixtures.PopulateSpanY1Scenario | gwpy/tests/test_segments.py:677-681 | `populate(segments=span)` succeeds, and Y1 holds known `[(0, 2)]` and nothing active |
| Fixtures.PopulateMissingScenario | gwpy/tests/test_segments.py:646-660 | the model's own error path; the suite never answers only part of a query, and these lines give only the starting dictionary. There, a query that answers only X1:TEST-FLAG:1 makes `populate()` an error naming Y1:TEST-FLAG2:4, and the dictionary keeps its flags |

## Left out

- The production sources (`gwpy/segments/*.py`) are not part of this model. The model follows what the test suite expects of them. Two choices follow the suite's expected values rather than the library's documented behaviour:
  - `pad` does not coalesce (ACTIVEPAD overlaps itself);
  - `round` widens outward (floor of the start, ceiling of the end).
- Reversed pairs: what the library does with a reversed `(start, end)` pair is not visible. `MakeSegment` swaps the endpoints.
- The name grammar is this model's own rule, since the parser is not shown. The rule is: split on ':'. Three parts give ifo, tag and version when ifo and tag are non-empty and the version is a non-empty run of digits. Two parts give tag and version when the first is non-empty and the second is a non-empty run of digits. Two parts give ifo and tag when both are non-empty and the second is not all digits. Anything else gives nothing, so `L1:`, `:test` and `:1` give no parts.
- The combinators keep the left operand's name and padding. The result name is not visible in the suite.
- Flags.FlagSub: known is the intersection of the two known lists. The suite cannot tell this apart from other choices, because its comparison looks only at leading segments.
- Reading and writing segment files (segwizard, HDF5, LIGO_LW) is left out as I/O.
- Database queries (`query`, `query_segdb`, `query_dqsegdb`) are left out: they need the network. `populate` takes the responses as a parameter.
- The veto-definer file reader depends on a remote file and is left out.
- Plotting is left out.
- `repr`/`str` formatting is left out.
- The deprecated `valid` alias of `known` is left out, along with its DeprecationWarning.
- `test_signal.py` is outside the segment core.
- DataQualityDicts.DataQualityDict.Populate: dictionary values are held as `Flag` values, so aliasing between the dict and flag objects held elsewhere is not modelled. The missing-response check is made before any flag changes; in the library a query error could come part-way through.
- `LIGOTimeGPS` and floating point are left out. Endpoints are exact reals, so `0.1` and rounding behave exactly.
- `isinstance` checks (`SegmentList`, `Segment`, `DataQualityFlag` result types) are left out. They are carried by the Dafny types.
- SegmentAlgebra.PadAbs: the growth is stated as `Scaled(|s|, post - pre)`, which is repeated addition. `ScaledIsProduct` relates it to the product `|s| * (post - pre)`.
- SegmentAlgebra.UnionSubadditive: proves only the bound, not that equality holds exactly for disjoint operands.
- Fixtures.PadFixture: ACTIVEPADC is defined by the suite but used by no test. `ActivePadCFixture` records that it is not ACTIVEPAD coalesced.
