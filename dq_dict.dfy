/**
 * `DataQualityDict`: flags keyed by name, in insertion order, with the
 * `union()` and `intersection()` folds and `populate`, which fills every
 * flag from a segment-database response.
 */
module DataQualityDicts {
  import opened Wrappers
  import opened Segments
  import opened SegmentAlgebra
  import opened Flags

  // ---------------------------------------------------------------------------
  // Folds over the flags

  /**
   * `reduce(operator.or_, flags)`: a left fold of `|`.  A single flag comes
   * back as it is; the fold covers a time exactly when some flag does.
   */
  function OrAll(fs: seq<Flag>): (r: Flag)
    requires |fs| >= 1
    ensures r.name == fs[0].name && r.padding == fs[0].padding
    ensures forall t :: Covers(r.known, t) <==> exists i :: 0 <= i < |fs| && Covers(fs[i].known, t)
    ensures forall t :: Covers(r.active, t) <==> exists i :: 0 <= i < |fs| && Covers(fs[i].active, t)
    ensures |fs| == 1 ==> r == fs[0]
    ensures |fs| > 1 ==> Canonical(r.known) && Canonical(r.active)
  {
    if |fs| == 1 then fs[0]
    else
      var init := fs[..|fs| - 1];
      var acc := OrAll(init);
      var r := FlagOr(acc, fs[|fs| - 1]);
      assert forall t :: (Covers(r.known, t) <==> exists i :: 0 <= i < |fs| && Covers(fs[i].known, t))
                      && (Covers(r.active, t) <==> exists i :: 0 <= i < |fs| && Covers(fs[i].active, t)) by {
        forall t
          ensures Covers(r.known, t) <==> exists i :: 0 <= i < |fs| && Covers(fs[i].known, t)
          ensures Covers(r.active, t) <==> exists i :: 0 <= i < |fs| && Covers(fs[i].active, t)
        {
          SomeCoversStep(fs, init, t);
        }
      }
      r
  }

  /** Some flag of fs covers t exactly when some flag of all but the last does, or the last does. */
  lemma SomeCoversStep(fs: seq<Flag>, init: seq<Flag>, t: real)
    requires |fs| > 1 && init == fs[..|fs| - 1]
    ensures (exists i :: 0 <= i < |fs| && Covers(fs[i].known, t)) <==>
      (exists i :: 0 <= i < |init| && Covers(init[i].known, t)) || Covers(fs[|fs| - 1].known, t)
    ensures (exists i :: 0 <= i < |fs| && Covers(fs[i].active, t)) <==>
      (exists i :: 0 <= i < |init| && Covers(init[i].active, t)) || Covers(fs[|fs| - 1].active, t)
  {
    assert forall i :: 0 <= i < |init| ==> init[i] == fs[i];
  }

  /** Every flag of fs covers t exactly when every flag of all but the last does, and the last does. */
  lemma AllCoverStep(fs: seq<Flag>, init: seq<Flag>, t: real)
    requires |fs| > 1 && init == fs[..|fs| - 1]
    ensures (forall i :: 0 <= i < |fs| ==> Covers(fs[i].known, t)) <==>
      (forall i :: 0 <= i < |init| ==> Covers(init[i].known, t)) && Covers(fs[|fs| - 1].known, t)
    ensures (forall i :: 0 <= i < |fs| ==> Covers(fs[i].active, t)) <==>
      (forall i :: 0 <= i < |init| ==> Covers(init[i].active, t)) && Covers(fs[|fs| - 1].active, t)
  {
    assert forall i :: 0 <= i < |init| ==> init[i] == fs[i];
  }

  /**
   * `reduce(operator.and_, flags)`: a left fold of `&`.  A single flag comes
   * back as it is; the fold covers a time exactly when every flag does.
   */
  function AndAll(fs: seq<Flag>): (r: Flag)
    requires |fs| >= 1
    ensures r.name == fs[0].name && r.padding == fs[0].padding
    ensures forall t :: Covers(r.known, t) <==> forall i :: 0 <= i < |fs| ==> Covers(fs[i].known, t)
    ensures forall t :: Covers(r.active, t) <==> forall i :: 0 <= i < |fs| ==> Covers(fs[i].active, t)
    ensures |fs| == 1 ==> r == fs[0]
    ensures |fs| > 1 ==> Canonical(r.known) && Canonical(r.active)
  {
    if |fs| == 1 then fs[0]
    else
      var init := fs[..|fs| - 1];
      var acc := AndAll(init);
      var r := FlagAnd(acc, fs[|fs| - 1]);
      assert forall t :: (Covers(r.known, t) <==> forall i :: 0 <= i < |fs| ==> Covers(fs[i].known, t))
                      && (Covers(r.active, t) <==> forall i :: 0 <= i < |fs| ==> Covers(fs[i].active, t)) by {
        forall t
          ensures Covers(r.known, t) <==> forall i :: 0 <= i < |fs| ==> Covers(fs[i].known, t)
          ensures Covers(r.active, t) <==> forall i :: 0 <= i < |fs| ==> Covers(fs[i].active, t)
        {
          AllCoverStep(fs, init, t);
        }
      }
      r
  }

  /** Every active time of the intersection is an active time of the union. */
  lemma AndAllWithinOrAll(fs: seq<Flag>)
    requires |fs| >= 1
    ensures forall t :: Covers(AndAll(fs).active, t) ==> Covers(OrAll(fs).active, t)
    ensures forall t :: Covers(AndAll(fs).known, t) ==> Covers(OrAll(fs).known, t)
  {
    forall t | Covers(AndAll(fs).active, t) ensures Covers(OrAll(fs).active, t) {
      assert Covers(fs[0].active, t);
    }
    forall t | Covers(AndAll(fs).known, t) ensures Covers(OrAll(fs).known, t) {
      assert Covers(fs[0].known, t);
    }
  }

  /** Two flags fold to their own `|` and `&`, as `union()` and `intersection()` are meant to. */
  lemma FoldOfPair(a: Flag, b: Flag)
    ensures OrAll([a, b]) == FlagOr(a, b)
    ensures AndAll([a, b]) == FlagAnd(a, b)
  {
    assert [a, b][..1] == [a];
  }

  // ---------------------------------------------------------------------------
  // Populating from database responses

  /** What the segment database returns for one flag. */
  datatype Response = Response(known: seq<Segment>, active: seq<Segment>)

  /** A time in the optional `segments` restriction of `populate` (no restriction: every time). */
  predicate InSpan(span: Option<seq<Segment>>, t: real) {
    span.None? || Covers(span.value, t)
  }

  /** The response coalesced and restricted to span, before padding. */
  function Restricted(f: Flag, resp: Response, span: Option<seq<Segment>>): (r: Flag)
    ensures r.name == f.name && r.padding == f.padding
    ensures Canonical(r.known) && Canonical(r.active) && Regular(r.known, r.active)
    ensures forall t :: Covers(r.known, t) <==> Covers(resp.known, t) && InSpan(span, t)
    ensures forall t :: Covers(r.active, t) <==> Covers(resp.active, t) && Covers(resp.known, t) && InSpan(span, t)
  {
    var g := CoalescedFlag(f.(known := resp.known, active := resp.active));
    if span.None? then g
    else
      var h := g.(known := Intersection(g.known, span.value), active := Intersection(g.active, span.value));
      RegularMeansCovered(h.known, h.active);
      h
  }

  /**
   * One flag after `populate`: the response coalesced, restricted to span and
   * padded by the flag's own padding.  Undoing the padding gives back the
   * restricted response, and with no padding nothing changes.
   */
  function PopulatedFlag(f: Flag, resp: Response, span: Option<seq<Segment>>): (r: Flag)
    ensures r == PaddedFlag(Restricted(f, resp, span), f.padding.0, f.padding.1)
    ensures r.name == f.name && r.padding == f.padding
    ensures f.padding.0 <= f.padding.1 ==>
      PaddedFlag(r, -f.padding.0, -f.padding.1) == Restricted(f, resp, span)
    ensures f.padding == (0.0, 0.0) ==> r == Restricted(f, resp, span)
  {
    var h := Restricted(f, resp, span);
    PadUndone(h, f.padding.0, f.padding.1);
    PaddedFlag(h, f.padding.0, f.padding.1)
  }

  datatype DictError = EmptyDict | MissingResponse(flag: string)

  /** The flags stored under keys, in that order. */
  function Lookup(keys: seq<string>, flags: map<string, Flag>): (r: seq<Flag>)
    requires forall k :: k in keys ==> k in flags
    ensures |r| == |keys|
    ensures forall i :: 0 <= i < |keys| ==> r[i] == flags[keys[i]]
  {
    seq(|keys|, i requires 0 <= i < |keys| => flags[keys[i]])
  }

  // ---------------------------------------------------------------------------
  // The mutable dictionary

  class DataQualityDict {
    /** The names in insertion order. */
    var keys: seq<string>
    var flags: map<string, Flag>

    /** Each name once, and exactly the names that have a flag. */
    ghost predicate Valid()
      reads this
    {
      && (forall i, j :: 0 <= i < j < |keys| ==> keys[i] != keys[j])
      && (forall k :: k in flags <==> k in keys)
    }

    /** `DataQualityDict()`: empty. */
    constructor ()
      ensures Valid() && keys == [] && flags == map[]
    {
      keys := [];
      flags := map[];
    }

    /** `d[name] = flag`: a new name goes last, an existing one keeps its place. */
    method SetItem(name: string, f: Flag)
      requires Valid()
      modifies this
      ensures Valid()
      ensures flags == old(flags)[name := f]
      ensures name in old(flags) ==> keys == old(keys)
      ensures name !in old(flags) ==> keys == old(keys) + [name]
    {
      if name !in flags {
        keys := keys + [name];
      }
      flags := flags[name := f];
    }

    /** `d.values()`, in insertion order. */
    function Values(): (r: seq<Flag>)
      reads this
      requires Valid()
      ensures |r| == |keys|
      ensures forall i :: 0 <= i < |keys| ==> r[i] == flags[keys[i]]
    {
      Lookup(keys, flags)
    }

    /** `union()`: a TypeError on an empty dict; otherwise the flags' union, time by time. */
    function Union(): (r: Result<Flag, DictError>)
      reads this
      requires Valid()
      ensures r.Err? <==> keys == []
      ensures r.Err? ==> r.error == EmptyDict
      ensures r.Ok? ==> forall t :: Covers(r.value.known, t) <==> exists i :: 0 <= i < |keys| && Covers(flags[keys[i]].known, t)
      ensures r.Ok? ==> forall t :: Covers(r.value.active, t) <==> exists i :: 0 <= i < |keys| && Covers(flags[keys[i]].active, t)
    {
      if keys == [] then Err(EmptyDict) else Ok(OrAll(Values()))
    }

    /** `intersection()`: a TypeError on an empty dict; otherwise the flags' intersection, time by time. */
    function Intersection(): (r: Result<Flag, DictError>)
      reads this
      requires Valid()
      ensures r.Err? <==> keys == []
      ensures r.Err? ==> r.error == EmptyDict
      ensures r.Ok? ==> forall t :: Covers(r.value.known, t) <==> forall i :: 0 <= i < |keys| ==> Covers(flags[keys[i]].known, t)
      ensures r.Ok? ==> forall t :: Covers(r.value.active, t) <==> forall i :: 0 <= i < |keys| ==> Covers(flags[keys[i]].active, t)
    {
      if keys == [] then Err(EmptyDict) else Ok(AndAll(Values()))
    }

    /**
     * `populate(segments=span)`: every flag's known and active replaced by
     * its response, coalesced, restricted to span and padded.  A flag with
     * no response is an error, raised before any flag changes.
     */
    method Populate(responses: map<string, Response>, span: Option<seq<Segment>>)
      returns (r: Result<(), DictError>)
      requires Valid()
      modifies this
      ensures Valid() && keys == old(keys)
      ensures r.Err? <==> exists k :: k in keys && k !in responses
      ensures r.Err? ==> r.error.MissingResponse? && r.error.flag in keys && r.error.flag !in responses
      ensures r.Err? ==> flags == old(flags)
      ensures r.Ok? ==> flags.Keys == old(flags).Keys
      ensures r.Ok? ==> forall k :: k in flags ==> k in responses && flags[k] == PopulatedFlag(old(flags)[k], responses[k], span)
    {
      if exists k :: k in keys && k !in responses {
        var k :| k in keys && k !in responses;
        return Err(MissingResponse(k));
      }
      UpdateEach((f, resp) => PopulatedFlag(f, resp, span), responses);
      r := Ok(());
    }

    /** Every flag replaced, name by name in order, by step applied to it and its response. */
    method UpdateEach(step: (Flag, Response) -> Flag, responses: map<string, Response>)
      requires Valid()
      requires forall k :: k in keys ==> k in responses
      modifies this
      ensures Valid() && keys == old(keys)
      ensures flags.Keys == old(flags).Keys
      ensures forall k :: k in flags ==> flags[k] == step(old(flags)[k], responses[k])
    {
      var i := 0;
      while i < |keys|
        invariant 0 <= i <= |keys|
        invariant Valid() && keys == old(keys)
        invariant flags.Keys == old(flags).Keys
        invariant forall j :: 0 <= j < i ==> flags[keys[j]] == step(old(flags)[keys[j]], responses[keys[j]])
        invariant forall j :: i <= j < |keys| ==> flags[keys[j]] == old(flags)[keys[j]]
      {
        var k := keys[i];
        flags := flags[k := step(flags[k], responses[k])];
        i := i + 1;
      }
      forall k | k in flags ensures flags[k] == step(old(flags)[k], responses[k]) {
        var j :| 0 <= j < |keys| && keys[j] == k;
      }
    }
  }
}
