/** Properties of the resolver and of the typed accessors of module `Nested`. */
module NestedProperties {
  import opened Wrappers
  import opened GoStrings
  import opened Nested

  // ---------------------------------------------------------------------------
  // The walk, segment by segment
  // ---------------------------------------------------------------------------

  /** A found value is never invented: it is stored, unmodified, in the input at
      the keys the walk followed, and those keys are taken from `segs` in order. */
  lemma {:induction false} FoundValueProvenance(segs: seq<string>, t: Dict)
    requires Walk(segs, t).Some?
    ensures Followed(segs, t) != []
    ensures IsSubsequence(Followed(segs, t), segs)
    ensures Get(t, Followed(segs, t)) == Walk(segs, t)
  {
    var k := segs[0];
    match t[k]
    case MapValue(n) =>
      if |segs| > 1 {
        FoundValueProvenance(segs[1..], n);
        var ks := Followed(segs[1..], n);
        assert Followed(segs, t) == [k] + ks;
        assert ([k] + ks)[1..] == ks;
      }
    case OtherValue =>
      FoundValueProvenance(segs[1..], t);
    case StringValue(_) =>
    case IntValue(_) =>
  }

  /** A string or an int reached through nested maps ends the walk successfully,
      whatever segments `rest` remain after it. */
  lemma {:induction false} ScalarShortCircuit(p: seq<string>, rest: seq<string>, t: Dict)
    requires Get(t, p).Some? && (Get(t, p).value.StringValue? || Get(t, p).value.IntValue?)
    ensures Walk(p + rest, t) == Get(t, p)
  {
    assert (p + rest)[0] == p[0];
    if |p| > 1 {
      assert (p + rest)[1..] == p[1..] + rest;
      ScalarShortCircuit(p[1..], rest, t[p[0]].entries);
    }
  }

  /** A nested map reached through nested maps is the answer when no segment
      remains, and otherwise becomes the container the remaining segments are
      looked up in. */
  lemma {:induction false} DescendIntoNested(p: seq<string>, rest: seq<string>, t: Dict)
    requires p != [] && Get(t, p).Some? && Get(t, p).value.MapValue?
    ensures Walk(p + rest, t) == if rest == [] then Get(t, p) else Walk(rest, Get(t, p).value.entries)
  {
    assert (p + rest)[0] == p[0];
    assert (p + rest)[1..] == p[1..] + rest;
    if |p| > 1 {
      DescendIntoNested(p[1..], rest, t[p[0]].entries);
    } else {
      assert p[1..] + rest == rest;
    }
  }

  /** A key missing from the container it is looked up in makes the whole walk
      fail, however many segments matched before it and whatever follows it. */
  lemma MissingKey(p: seq<string>, k: string, rest: seq<string>, t: Dict)
    requires Get(t, p).Some? && Get(t, p).value.MapValue?
    requires k !in Get(t, p).value.entries
    ensures Walk(p + [k] + rest, t) == None
  {
    if p == [] {
      assert p + [k] + rest == [k] + rest;
    } else {
      assert p + [k] + rest == p + ([k] + rest);
      DescendIntoNested(p, [k] + rest, t);
    }
  }

  /** A value of an unrecognised kind is passed over: the next segment is looked
      up in the same container, and at the last segment the walk fails. */
  lemma OtherIsSkipped(k: string, rest: seq<string>, t: Dict)
    requires k in t && t[k] == OtherValue
    ensures Walk([k] + rest, t) == Walk(rest, t)
    ensures Walk([k], t) == None
  {
    assert ([k] + rest)[1..] == rest;
  }

  /** Where a strict descent through every segment reaches a string, an int or a
      map, the lenient walk finds exactly that value; where it reaches a value of
      an unrecognised kind, the walk finds nothing. */
  lemma StrictPathAgrees(segs: seq<string>, t: Dict)
    requires segs != [] && Get(t, segs).Some?
    ensures Walk(segs, t) == if Get(t, segs).value.OtherValue? then None else Get(t, segs)
  {
    assert segs + [] == segs;
    var v := Get(t, segs).value;
    if v.StringValue? || v.IntValue? {
      ScalarShortCircuit(segs, [], t);
    } else if v.MapValue? {
      DescendIntoNested(segs, [], t);
    } else {
      var p := segs[..|segs| - 1];
      var k := segs[|segs| - 1];
      assert segs == p + [k];
      StrictLastStep(p, k, t);
      if p == [] {
        OtherIsSkipped(k, [], t);
      } else {
        DescendIntoNested(p, [k], t);
        OtherIsSkipped(k, [], Get(t, p).value.entries);
      }
    }
  }

  /** Strict descent to `p + [k]` is strict descent to `p`, a map, then one lookup of `k`. */
  lemma {:induction false} StrictLastStep(p: seq<string>, k: string, t: Dict)
    requires Get(t, p + [k]).Some?
    ensures Get(t, p).Some? && Get(t, p).value.MapValue?
    ensures k in Get(t, p).value.entries && Get(t, p + [k]) == Some(Get(t, p).value.entries[k])
  {
    if p != [] {
      assert (p + [k])[0] == p[0];
      assert (p + [k])[1..] == p[1..] + [k];
      StrictLastStep(p[1..], k, t[p[0]].entries);
    } else {
      assert p + [k] == [k];
    }
  }

  // ---------------------------------------------------------------------------
  // The resolver on positions
  // ---------------------------------------------------------------------------

  /** A dot-free key. */
  predicate IsSegment(k: string) { Separator !in k }

  /** Looking up a position written as dot-free segments joined by dots walks
      exactly those segments. */
  lemma LookupOfJoin(m: Map, segs: seq<string>)
    requires |segs| >= 1 && forall i :: 0 <= i < |segs| ==> IsSegment(segs[i])
    ensures m.Lookup(Join(segs, Separator)) == Flagged(Walk(segs, m.entries), Walk(segs, m.entries).Some?)
  {
    SplitJoin(segs, Separator);
  }

  /** The empty position is the single empty segment: without a "" key the result
      is `(nil, false)`, on a populated map and on an empty one alike. */
  lemma EmptyPosition(m: Map)
    ensures m.Lookup("") == Flagged(Walk([""], m.entries), Walk([""], m.entries).Some?)
    ensures "" !in m.entries ==> m.Lookup("") == Flagged(None, false)
  {
  }

  /** A string or an int stored at the dot-free segments `segs` is found at every
      position that extends them, e.g. "advert.title.id" gives the title; so the
      typed accessor of the other type fails there. */
  lemma ShortCircuitPosition(m: Map, segs: seq<string>, q: string)
    requires |segs| >= 1 && forall i :: 0 <= i < |segs| ==> IsSegment(segs[i])
    requires Get(m.entries, segs).Some?
    requires Get(m.entries, segs).value.StringValue? || Get(m.entries, segs).value.IntValue?
    ensures m.Lookup(Join(segs, Separator) + [Separator] + q) == Flagged(Get(m.entries, segs), true)
    ensures Get(m.entries, segs).value.StringValue? ==>
              m.Int(Join(segs, Separator) + [Separator] + q) == Flagged(0, false)
    ensures Get(m.entries, segs).value.IntValue? ==>
              m.String(Join(segs, Separator) + [Separator] + q) == Flagged("", false)
  {
    SplitJoinThen(segs, q, Separator);
    ScalarShortCircuit(segs, Split(q, Separator), m.entries);
  }

  /** A dot-free key holding a value of an unrecognised kind is passed over:
      "k.q" resolves like "q" in the same map, and "k" alone is not found. */
  lemma OtherSkippedAtPosition(m: Map, k: string, q: string)
    requires IsSegment(k) && k in m.entries && m.entries[k] == OtherValue
    ensures m.Lookup(k + [Separator] + q) == m.Lookup(q)
    ensures m.Lookup(k) == Flagged(None, false)
  {
    SplitJoinThen([k], q, Separator);
    assert Join([k], Separator) == k;
    OtherIsSkipped(k, Split(q, Separator), m.entries);
    SplitJoin([k], Separator);
  }

  // ---------------------------------------------------------------------------
  // The typed accessors
  // ---------------------------------------------------------------------------

  /** `String` and `Int` never both succeed at one position. */
  lemma StringIntExclusive(m: Map, position: string)
    ensures !(m.String(position).ok && m.Int(position).ok)
  {
  }

  /** Each `Get...` accessor is the first component of its flagged counterpart. */
  lemma GettersDropTheFlag(m: Map, position: string, layout: string,
                           parse: (string, string) -> Option<Timestamp>, parseJson: string -> Option<Map>)
    ensures m.GetInterface(position) == m.Lookup(position).value
    ensures m.GetString(position) == m.String(position).value
    ensures m.GetInt(position) == m.Int(position).value
    ensures m.GetTime(position, layout, parse) == m.Time(position, layout, parse).value
    ensures m.GetSubFromString(position, parseJson) == m.SubFromString(position, parseJson).value
  {
  }

  /** An empty layout means RFC 3339. */
  lemma TimeDefaultLayout(m: Map, position: string, parse: (string, string) -> Option<Timestamp>)
    ensures m.Time(position, "", parse) == m.Time(position, RFC3339, parse)
  {
  }

  /** `Time` fails whenever `String` fails or the parser rejects the string. */
  lemma TimeFailures(m: Map, position: string, layout: string, parse: (string, string) -> Option<Timestamp>)
    ensures !m.String(position).ok ==> m.Time(position, layout, parse) == Flagged(ZeroTime, false)
    ensures m.String(position).ok && parse(EffectiveLayout(layout), m.String(position).value).None? ==>
              m.Time(position, layout, parse) == Flagged(ZeroTime, false)
  {
  }

  /** Where the string found at `position` is a text the decoder turns into `d`
      (for instance the JSON encoding of `d`, if the decoder inverts the encoder),
      `SubFromString` gives `d`; a text the decoder rejects gives `(nil, false)`. */
  lemma SubdocumentRoundTrip(m: Map, position: string, text: string, d: Map, parseJson: string -> Option<Map>)
    requires m.Lookup(position).value == Some(StringValue(text))
    ensures parseJson(text) == Some(d) ==> m.SubFromString(position, parseJson) == Flagged(Some(d), true)
    ensures parseJson(text).None? ==> m.SubFromString(position, parseJson) == Flagged(None, false)
  {
  }

  // ---------------------------------------------------------------------------
  // Construction and the package-level helpers
  // ---------------------------------------------------------------------------

  /** A nil mapper behaves as an empty map: every helper reports not found. */
  lemma NilMapperFindsNothing(position: string, layout: string,
                              parse: (string, string) -> Option<Timestamp>, parseJson: string -> Option<Map>)
    ensures New(None).Lookup(position) == Flagged(None, false)
    ensures GetInterface(position, None) == None
    ensures String(position, None) == Flagged("", false) && GetString(position, None) == ""
    ensures Int(position, None) == Flagged(0, false) && GetInt(position, None) == 0
    ensures Time(position, None, layout, parse) == Flagged(ZeroTime, false)
    ensures GetTime(position, None, layout, parse) == ZeroTime
    ensures SubFromString(position, None, parseJson) == Flagged(None, false)
    ensures GetSubFromString(position, None, parseJson) == None
  {
  }

  /** Each package-level helper is the `Map` accessor of `New(mapper)`. */
  lemma HelpersUseNew(position: string, mapper: Option<Dict>, layout: string,
                      parse: (string, string) -> Option<Timestamp>, parseJson: string -> Option<Map>)
    ensures GetInterface(position, mapper) == New(mapper).Lookup(position).value
    ensures String(position, mapper) == New(mapper).String(position)
    ensures GetString(position, mapper) == New(mapper).String(position).value
    ensures Int(position, mapper) == New(mapper).Int(position)
    ensures GetInt(position, mapper) == New(mapper).Int(position).value
    ensures Time(position, mapper, layout, parse) == New(mapper).Time(position, layout, parse)
    ensures GetTime(position, mapper, layout, parse) == New(mapper).Time(position, layout, parse).value
    ensures SubFromString(position, mapper, parseJson) == New(mapper).SubFromString(position, parseJson)
    ensures GetSubFromString(position, mapper, parseJson) == New(mapper).SubFromString(position, parseJson).value
  {
  }
}
