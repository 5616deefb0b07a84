/**
 * Flag names of the form `IFO:TAG:VERSION`: splitting on ':', parsing the
 * detector prefix, tag and integer version, and the TeX-escaped name.
 */
module FlagNames {
  import opened Wrappers

  // ---------------------------------------------------------------------------
  // Splitting on ':'

  /** The ':'-separated parts of s (Python's `s.split(':')`). */
  function Split(s: string): (r: seq<string>)
    ensures |r| >= 1
    ensures forall i :: 0 <= i < |r| ==> ':' !in r[i]
  {
    if s == [] then [""]
    else
      var rest := Split(s[1..]);
      if s[0] == ':' then [""] + rest
      else [[s[0]] + rest[0]] + rest[1..]
  }

  /** The parts joined back with ':' (Python's `':'.join(parts)`). */
  function Join(parts: seq<string>): string
    requires |parts| >= 1
  {
    if |parts| == 1 then parts[0] else parts[0] + ":" + Join(parts[1..])
  }

  lemma {:induction false} JoinSplit(s: string)
    ensures Join(Split(s)) == s
  {
    if s != [] {
      JoinSplit(s[1..]);
      var rest := Split(s[1..]);
      if s[0] == ':' {
        assert ([""] + rest)[1..] == rest;
        assert s == [s[0]] + s[1..];
      } else {
        var r := [[s[0]] + rest[0]] + rest[1..];
        if |rest| == 1 {
          assert s == [s[0]] + s[1..];
        } else {
          assert r[1..] == rest[1..];
          assert Join(rest) == rest[0] + ":" + Join(rest[1..]);
          assert s == [s[0]] + s[1..];
        }
      }
    }
  }

  lemma {:induction false} SplitJoin(parts: seq<string>)
    requires |parts| >= 1
    requires forall i :: 0 <= i < |parts| ==> ':' !in parts[i]
    ensures Split(Join(parts)) == parts
    decreases |parts|, |parts[0]|
  {
    var p := parts[0];
    if |parts| == 1 {
      SplitNoColon(p);
    } else if p == [] {
      assert Join(parts) == [':'] + Join(parts[1..]);
      SplitJoin(parts[1..]);
      assert [""] + parts[1..] == parts;
    } else {
      var shorter := [p[1..]] + parts[1..];
      assert shorter[1..] == parts[1..];
      assert p[1..] + ":" + Join(parts[1..]) == Join(shorter);
      assert Join(parts) == [p[0]] + Join(shorter);
      SplitJoin(shorter);
      assert p[0] != ':' by { assert p[0] in p; }
      assert ([p[0]] + Join(shorter))[1..] == Join(shorter);
      assert [p[0]] + p[1..] == p;
      assert [[p[0]] + p[1..]] + parts[1..] == parts;
    }
  }

  lemma {:induction false} SplitNoColon(s: string)
    requires ':' !in s
    ensures Split(s) == [s]
  {
    if s != [] {
      assert s[0] in s;
      assert ':' !in s[1..];
      SplitNoColon(s[1..]);
      assert s == [s[0]] + s[1..];
    }
  }

  // ---------------------------------------------------------------------------
  // Decimal versions

  predicate IsDigit(c: char) { '0' <= c <= '9' }

  /** A nonempty string of decimal digits (what Python's `int()` accepts here). */
  predicate IsDigits(s: string) {
    |s| > 0 && forall i :: 0 <= i < |s| ==> IsDigit(s[i])
  }

  function DigitValue(c: char): (r: nat)
    requires IsDigit(c)
    ensures r < 10
  {
    (c as int - '0' as int)
  }

  function DigitChar(d: nat): (r: char)
    requires d < 10
    ensures IsDigit(r) && DigitValue(r) == d
  {
    ('0' as int + d) as char
  }

  /** The value of a string of decimal digits. */
  function DigitsValue(s: string): nat
    requires forall i :: 0 <= i < |s| ==> IsDigit(s[i])
  {
    if s == [] then 0 else 10 * DigitsValue(s[..|s| - 1]) + DigitValue(s[|s| - 1])
  }

  /** The decimal rendering of n (Python's `str(n)`). */
  function NatToDigits(n: nat): (r: string)
    ensures IsDigits(r)
  {
    if n < 10 then [DigitChar(n)] else NatToDigits(n / 10) + [DigitChar(n % 10)]
  }

  lemma {:induction false} DigitsRoundTrip(n: nat)
    ensures DigitsValue(NatToDigits(n)) == n
  {
    if n >= 10 {
      DigitsRoundTrip(n / 10);
      var r := NatToDigits(n);
      assert r[..|r| - 1] == NatToDigits(n / 10);
    }
  }

  // ---------------------------------------------------------------------------
  // Parsing

  /** The name's detector prefix (`ifo`), `tag` and integer `version`; each may be absent. */
  datatype NameParts = NameParts(ifo: Option<string>, tag: Option<string>, version: Option<nat>)

  /**
   * Parse a flag name: `IFO:TAG:VERSION` (version all digits), `TAG:VERSION`,
   * or `IFO:TAG`; no name, or any other shape, gives all three absent.
   */
  function ParseName(name: Option<string>): (r: NameParts)
    ensures name.None? ==> r == NameParts(None, None, None)
    ensures r.version.Some? ==> r.tag.Some?
    ensures r.ifo.Some? ==> r.tag.Some?
  {
    if name.None? then NameParts(None, None, None)
    else
      var parts := Split(name.value);
      if |parts| == 3 && parts[0] != "" && parts[1] != "" && IsDigits(parts[2]) then
        NameParts(Some(parts[0]), Some(parts[1]), Some(DigitsValue(parts[2])))
      else if |parts| == 2 && parts[0] != "" && IsDigits(parts[1]) then
        NameParts(None, Some(parts[0]), Some(DigitsValue(parts[1])))
      else if |parts| == 2 && parts[0] != "" && parts[1] != "" then
        NameParts(Some(parts[0]), Some(parts[1]), None)
      else
        NameParts(None, None, None)
  }

  /** The name built from its parts, joined with ':'. */
  function FormatName(p: NameParts): string
    requires p.tag.Some?
  {
    var head := if p.ifo.Some? then [p.ifo.value, p.tag.value] else [p.tag.value];
    Join(if p.version.Some? then head + [NatToDigits(p.version.value)] else head)
  }

  predicate NamePart(s: string) { s != "" && ':' !in s }

  /**
   * The parts a name can be parsed back into: a tag, with an ifo or a version
   * or both; an `IFO:TAG` tag must not look like a version.
   */
  predicate ParseableParts(p: NameParts) {
    && p.tag.Some? && NamePart(p.tag.value)
    && (p.ifo.Some? ==> NamePart(p.ifo.value))
    && (p.ifo.Some? || p.version.Some?)
    && (p.ifo.Some? && p.version.None? ==> !IsDigits(p.tag.value))
  }

  /** Formatting parseable parts and parsing the name gives the same parts back. */
  lemma ParseFormat(p: NameParts)
    requires ParseableParts(p)
    ensures ParseName(Some(FormatName(p))) == p
  {
    var head := if p.ifo.Some? then [p.ifo.value, p.tag.value] else [p.tag.value];
    var parts := if p.version.Some? then head + [NatToDigits(p.version.value)] else head;
    if p.version.Some? {
      var d := NatToDigits(p.version.value);
      assert forall i :: 0 <= i < |d| ==> d[i] != ':' by {
        forall i | 0 <= i < |d| ensures d[i] != ':' { assert IsDigit(d[i]); }
      }
      DigitsRoundTrip(p.version.value);
    }
    SplitJoin(parts);
  }

  /** A name without ':' (such as `test`) has no parts. */
  lemma NameWithoutColon(s: string)
    requires ':' !in s
    ensures ParseName(Some(s)) == NameParts(None, None, None)
  {
    SplitNoColon(s);
  }

  // ---------------------------------------------------------------------------
  // TeX name

  /** Every underscore escaped as `\_`. */
  function Escape(s: string): (r: string)
    ensures forall i :: 0 <= i < |r| && r[i] == '_' ==> i > 0 && r[i - 1] == '\\'
    ensures s != [] ==> r != [] && r[0] != '_'
  {
    if s == [] then []
    else
      var rest := Escape(s[1..]);
      var head := if s[0] == '_' then "\\_" else [s[0]];
      assert forall i :: 0 <= i < |head + rest| && (head + rest)[i] == '_' ==> i > 0 && (head + rest)[i - 1] == '\\' by {
        forall i | 0 <= i < |head + rest| && (head + rest)[i] == '_' ensures i > 0 && (head + rest)[i - 1] == '\\' {
          if i >= |head| { assert (head + rest)[i] == rest[i - |head|]; }
        }
      }
      head + rest
  }

  /** Escaping works piece by piece. */
  lemma {:induction false} EscapeConcat(a: string, b: string)
    ensures Escape(a + b) == Escape(a) + Escape(b)
  {
    if a != [] {
      assert (a + b)[1..] == a[1..] + b;
      EscapeConcat(a[1..], b);
    } else {
      assert a + b == b;
    }
  }

  /** A string without underscores is its own escape. */
  lemma {:induction false} EscapeWithoutUnderscore(s: string)
    requires '_' !in s
    ensures Escape(s) == s
  {
    if s != [] {
      assert s[0] in s;
      assert '_' !in s[1..];
      EscapeWithoutUnderscore(s[1..]);
      assert s == [s[0]] + s[1..];
    }
  }

  /** A name with one underscore between two underscore-free pieces. */
  lemma EscapeOneUnderscore(a: string, b: string)
    requires '_' !in a && '_' !in b
    ensures Escape(a + "_" + b) == a + "\\_" + b
  {
    EscapeConcat(a + "_", b);
    EscapeConcat(a, "_");
    EscapeWithoutUnderscore(a);
    EscapeWithoutUnderscore(b);
  }

  /** Turn every `\_` back into `_`. */
  function Unescape(s: string): string {
    if |s| >= 2 && s[0] == '\\' && s[1] == '_' then "_" + Unescape(s[2..])
    else if s == [] then []
    else [s[0]] + Unescape(s[1..])
  }

  lemma {:induction false} UnescapeEscape(s: string)
    ensures Unescape(Escape(s)) == s
  {
    if s != [] {
      UnescapeEscape(s[1..]);
      var rest := Escape(s[1..]);
      if s[0] == '_' {
        assert ("\\_" + rest)[2..] == rest;
      } else {
        assert ([s[0]] + rest)[1..] == rest;
        if s[0] == '\\' && |[s[0]] + rest| >= 2 {
          assert ([s[0]] + rest)[1] == rest[0];
        }
      }
      assert s == [s[0]] + s[1..];
    }
  }

  /** `texname`: the name with underscores escaped, or nothing when there is no name. */
  function TexName(name: Option<string>): (r: Option<string>)
    ensures r.None? <==> name.None?
    ensures r.Some? ==> r.value == Escape(name.value)
    ensures r.Some? ==> forall i :: 0 <= i < |r.value| && r.value[i] == '_' ==> i > 0 && r.value[i - 1] == '\\'
    ensures r.Some? ==> Unescape(r.value) == name.value
  {
    if name.None? then None
    else
      UnescapeEscape(name.value);
      Some(Escape(name.value))
  }
}
