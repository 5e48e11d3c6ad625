/** Typed, fault-tolerant access into nested string-keyed maps by dot-separated
    positions such as "advert.status.ttl" (package `nested`, file nest.go). */
module Nested {
  import opened Wrappers
  import GoStrings

  /** Go's `int` on a 64-bit platform; the core stores and returns it, never computes with it. */
  newtype int64 = x: int | -0x8000_0000_0000_0000 <= x < 0x8000_0000_0000_0000

  /** The dynamic type of a value stored in a map, as the resolver distinguishes it:
      a `string`, an `int`, a nested `map[string]interface{}`, or anything else
      (a slice, a JSON number, `nil`, a value of the named type `Map`, ...). */
  datatype Value =
    | StringValue(s: string)
    | IntValue(i: int64)
    | MapValue(entries: Dict)
    | OtherValue

  /** `map[string]interface{}`. */
  type Dict = map<string, Value>

  /** Go's `(value, ok)` result pair. */
  datatype Flagged<T> = Flagged(value: T, ok: bool)

  /** `ErrInvalidInputType`. */
  datatype Error = InvalidInputType

  /** `time.Time`, counted from January 1 of year 1, 00:00:00 UTC, with a zone offset in seconds. */
  datatype Timestamp = Timestamp(seconds: int, nanos: int, zoneOffset: int)

  /** `time.Time{}`. */
  const ZeroTime := Timestamp(0, 0, 0)

  /** Go's `time.RFC3339` layout (RFC 3339, section 5.6, date-time). */
  const RFC3339 := "2006-01-02T15:04:05Z07:00"

  /** The character that separates the segments of a position. */
  const Separator := '.'

  /** What the loop of `Map.Interface` yields from the segments `segs` still to
      walk while looking in the container `t`:
      a missing key stops the walk unfound; a nested map is the answer at the
      last segment and the new container otherwise; a string or an int is the
      answer at once; any other value is passed over and the next segment is
      looked up in the same container. No segments left means not found. */
  function Walk(segs: seq<string>, t: Dict): (r: Option<Value>)
    ensures r.Some? ==> !r.value.OtherValue?
    decreases |segs|
  {
    if segs == [] || segs[0] !in t then None
    else match t[segs[0]]
      case MapValue(n) => if |segs| == 1 then Some(MapValue(n)) else Walk(segs[1..], n)
      case StringValue(s) => Some(StringValue(s))
      case IntValue(i) => Some(IntValue(i))
      case OtherValue => Walk(segs[1..], t)
  }

  /** Strict lookup: descend through `keys` one nested map at a time. The empty
      sequence of keys denotes the container itself. */
  function Get(t: Dict, keys: seq<string>): Option<Value>
    decreases |keys|
  {
    if keys == [] then Some(MapValue(t))
    else if keys[0] !in t then None
    else if |keys| == 1 then Some(t[keys[0]])
    else match t[keys[0]]
      case MapValue(n) => Get(n, keys[1..])
      case _ => None
  }

  /** The keys that `Walk` actually looks up and uses, in order. */
  function Followed(segs: seq<string>, t: Dict): seq<string>
    decreases |segs|
  {
    if segs == [] || segs[0] !in t then []
    else match t[segs[0]]
      case MapValue(n) => if |segs| == 1 then [segs[0]] else [segs[0]] + Followed(segs[1..], n)
      case OtherValue => Followed(segs[1..], t)
      case _ => [segs[0]]
  }

  /** `a` is obtained from `b` by deleting some elements. */
  predicate IsSubsequence(a: seq<string>, b: seq<string>)
    decreases |b|
  {
    a == [] || (b != [] && ((a[0] == b[0] && IsSubsequence(a[1..], b[1..])) || IsSubsequence(a, b[1..])))
  }

  /** The layout `Map.Time` parses with: the given one, or RFC 3339 when it is empty. */
  function EffectiveLayout(layout: string): (r: string)
    ensures layout == "" ==> r == RFC3339
    ensures layout != "" ==> r == layout
  {
    if layout == "" then RFC3339 else layout
  }

  /** A string found by the resolver at `position` of `m`. */
  predicate FoundString(m: Map, position: string, s: string)
  {
    m.Lookup(position).value == Some(StringValue(s))
  }

  /** An int found by the resolver at `position` of `m`. */
  predicate FoundInt(m: Map, position: string, i: int64)
  {
    m.Lookup(position).value == Some(IntValue(i))
  }

  /** The named type `Map` with the methods bound to it. */
  datatype Map = Map(entries: Dict) {

    /** The result of `Interface`: the value the walk ends on, found or not. */
    function Lookup(position: string): (r: Flagged<Option<Value>>)
      ensures r.ok <==> r.value.Some?
      ensures r.ok ==> !r.value.value.OtherValue?
    {
      var w := Walk(GoStrings.Split(position, Separator), entries);
      Flagged(w, w.Some?)
    }

    /** `Interface`: split the position on dots and walk the segments, holding the
        current container `t`. Not found is `(nil, false)`. */
    method Interface(position: string) returns (r: Flagged<Option<Value>>)
      ensures r == Lookup(position)
    {
      var pos := GoStrings.Split(position, Separator);
      var t := entries;
      var key := 0;
      while key < |pos|
        invariant 0 <= key <= |pos|
        invariant Walk(pos[key..], t) == Walk(pos, entries)
      {
        var posKey := pos[key];
        assert pos[key..][1..] == pos[key + 1..];
        if posKey !in t {
          break;
        }
        match t[posKey] {
          case MapValue(newValue) =>
            if key + 1 == |pos| {
              return Flagged(Some(MapValue(newValue)), true);
            }
            t := newValue;
          case StringValue(newString) =>
            return Flagged(Some(StringValue(newString)), true);
          case IntValue(newInt) =>
            return Flagged(Some(IntValue(newInt)), true);
          case OtherValue =>
        }
        key := key + 1;
      }
      return Flagged(None, false);
    }

    /** `GetInterface`: the value `Interface` finds, or `nil`. */
    function GetInterface(position: string): (r: Option<Value>)
      ensures r.Some? <==> Lookup(position).ok
      ensures r.Some? ==> Lookup(position).value == r
    {
      Lookup(position).value
    }

    /** `String`: found exactly when the resolver found a string. */
    function String(position: string): (r: Flagged<string>)
      ensures r.ok <==> Lookup(position).value.Some? && Lookup(position).value.value.StringValue?
      ensures r.ok ==> FoundString(this, position, r.value)
      ensures !r.ok ==> r.value == ""
    {
      var v := Lookup(position).value;
      if v.Some? && v.value.StringValue? then Flagged(v.value.s, true) else Flagged("", false)
    }

    /** `GetString`: the string found, or "" when there is none. */
    function GetString(position: string): (r: string)
      ensures FoundString(this, position, r) || (r == "" && forall s :: !FoundString(this, position, s))
    {
      String(position).value
    }

    /** `Int`: found exactly when the resolver found an int; no conversion from strings. */
    function Int(position: string): (r: Flagged<int64>)
      ensures r.ok <==> Lookup(position).value.Some? && Lookup(position).value.value.IntValue?
      ensures r.ok ==> FoundInt(this, position, r.value)
      ensures !r.ok ==> r.value == 0
    {
      var v := Lookup(position).value;
      if v.Some? && v.value.IntValue? then Flagged(v.value.i, true) else Flagged(0, false)
    }

    /** `GetInt`: the int found, or 0 when there is none. */
    function GetInt(position: string): (r: int64)
      ensures FoundInt(this, position, r) || (r == 0 && forall i :: !FoundInt(this, position, i))
    {
      Int(position).value
    }

    /** `Time`: parse the string found at `position` with `layout` (RFC 3339 when
        empty). `parse` stands for `time.Parse`; `None` is a parse error. */
    function Time(position: string, layout: string, parse: (string, string) -> Option<Timestamp>): (r: Flagged<Timestamp>)
      ensures r.ok <==> String(position).ok && parse(EffectiveLayout(layout), String(position).value).Some?
      ensures r.ok ==> parse(EffectiveLayout(layout), String(position).value) == Some(r.value)
      ensures !r.ok ==> r.value == ZeroTime
    {
      var str := String(position);
      if !str.ok then Flagged(ZeroTime, false)
      else
        match parse(EffectiveLayout(layout), str.value)
        case Some(t) => Flagged(t, true)
        case None => Flagged(ZeroTime, false)
    }

    /** `GetTime`: the time parsed from the string found, or the zero time. */
    function GetTime(position: string, layout: string, parse: (string, string) -> Option<Timestamp>): (r: Timestamp)
      ensures String(position).ok && parse(EffectiveLayout(layout), String(position).value).Some? ==>
                parse(EffectiveLayout(layout), String(position).value) == Some(r)
      ensures !(String(position).ok && parse(EffectiveLayout(layout), String(position).value).Some?) ==>
                r == ZeroTime
    {
      Time(position, layout, parse).value
    }

    /** `SubFromString`: decode the string found at `position` as a JSON object.
        `parseJson` stands for `json.Unmarshal` into a `Map`; `None` is a decoding
        error. A failure gives a nil map. */
    function SubFromString(position: string, parseJson: string -> Option<Map>): (r: Flagged<Option<Map>>)
      ensures r.ok <==> String(position).ok && parseJson(String(position).value).Some?
      ensures r.ok ==> r.value == parseJson(String(position).value)
      ensures !r.ok ==> r.value == None
    {
      var str := String(position);
      if !str.ok then Flagged(None, false)
      else
        match parseJson(str.value)
        case Some(sub) => Flagged(Some(sub), true)
        case None => Flagged(None, false)
    }

    /** `GetSubFromString`: the decoded map, or nil. */
    function GetSubFromString(position: string, parseJson: string -> Option<Map>): (r: Option<Map>)
      ensures String(position).ok ==> r == parseJson(String(position).value)
      ensures !String(position).ok ==> r == None
    {
      SubFromString(position, parseJson).value
    }
  }

  /** `New`: a nil map becomes a fresh empty map; any other map is kept as it is. */
  function New(input: Option<Dict>): (m: Map)
    ensures input.None? ==> m.entries == map[]
    ensures input.Some? ==> m.entries == input.value
  {
    match input
    case None => Map(map[])
    case Some(d) => Map(d)
  }

  /** `NewFromInterface`: only a `map[string]interface{}` is accepted. */
  function NewFromInterface(input: Value): (r: Result<Map, Error>)
    ensures r.Success? <==> input.MapValue?
    ensures r.Success? ==> r.value.entries == input.entries
    ensures r.Failure? ==> r.error == InvalidInputType
  {
    match input
    case MapValue(d) => Success(New(Some(d)))
    case _ => Failure(InvalidInputType)
  }

  /** Package-level `Interface(position, mapper)`. */
  method Interface(position: string, mapper: Option<Dict>) returns (r: Flagged<Option<Value>>)
    ensures r == New(mapper).Lookup(position)
  {
    r := New(mapper).Interface(position);
  }

  /** Package-level `GetInterface(position, mapper)`. */
  function GetInterface(position: string, mapper: Option<Dict>): (r: Option<Value>)
    ensures r.Some? <==> New(mapper).Lookup(position).ok
    ensures r.Some? ==> New(mapper).Lookup(position).value == r
  {
    New(mapper).GetInterface(position)
  }

  /** Package-level `String(position, mapper)`. */
  function String(position: string, mapper: Option<Dict>): (r: Flagged<string>)
    ensures r.ok <==> New(mapper).Lookup(position).value.Some? && New(mapper).Lookup(position).value.value.StringValue?
    ensures r.ok ==> FoundString(New(mapper), position, r.value)
    ensures !r.ok ==> r.value == ""
  {
    New(mapper).String(position)
  }

  /** Package-level `GetString(position, mapper)`. */
  function GetString(position: string, mapper: Option<Dict>): (r: string)
    ensures FoundString(New(mapper), position, r) || (r == "" && forall s :: !FoundString(New(mapper), position, s))
  {
    New(mapper).GetString(position)
  }

  /** Package-level `Int(position, mapper)`. */
  function Int(position: string, mapper: Option<Dict>): (r: Flagged<int64>)
    ensures r.ok <==> New(mapper).Lookup(position).value.Some? && New(mapper).Lookup(position).value.value.IntValue?
    ensures r.ok ==> FoundInt(New(mapper), position, r.value)
    ensures !r.ok ==> r.value == 0
  {
    New(mapper).Int(position)
  }

  /** Package-level `GetInt(position, mapper)`. */
  function GetInt(position: string, mapper: Option<Dict>): (r: int64)
    ensures FoundInt(New(mapper), position, r) || (r == 0 && forall i :: !FoundInt(New(mapper), position, i))
  {
    New(mapper).GetInt(position)
  }

  /** Package-level `Time(position, mapper, layout)`. */
  function Time(position: string, mapper: Option<Dict>, layout: string, parse: (string, string) -> Option<Timestamp>): (r: Flagged<Timestamp>)
    ensures r.ok <==> New(mapper).String(position).ok &&
                      parse(EffectiveLayout(layout), New(mapper).String(position).value).Some?
    ensures r.ok ==> parse(EffectiveLayout(layout), New(mapper).String(position).value) == Some(r.value)
    ensures !r.ok ==> r.value == ZeroTime
  {
    New(mapper).Time(position, layout, parse)
  }

  /** Package-level `GetTime(position, mapper, layout)`. */
  function GetTime(position: string, mapper: Option<Dict>, layout: string, parse: (string, string) -> Option<Timestamp>): (r: Timestamp)
    ensures New(mapper).String(position).ok &&
            parse(EffectiveLayout(layout), New(mapper).String(position).value).Some? ==>
              parse(EffectiveLayout(layout), New(mapper).String(position).value) == Some(r)
    ensures !(New(mapper).String(position).ok &&
              parse(EffectiveLayout(layout), New(mapper).String(position).value).Some?) ==>
              r == ZeroTime
  {
    New(mapper).GetTime(position, layout, parse)
  }

  /** Package-level `SubFromString(position, mapper)`. */
  function SubFromString(position: string, mapper: Option<Dict>, parseJson: string -> Option<Map>): (r: Flagged<Option<Map>>)
    ensures r.ok <==> New(mapper).String(position).ok && parseJson(New(mapper).String(position).value).Some?
    ensures r.ok ==> r.value == parseJson(New(mapper).String(position).value)
    ensures !r.ok ==> r.value == None
  {
    New(mapper).SubFromString(position, parseJson)
  }

  /** Package-level `GetSubFromString(position, mapper)`. */
  function GetSubFromString(position: string, mapper: Option<Dict>, parseJson: string -> Option<Map>): (r: Option<Map>)
    ensures New(mapper).String(position).ok ==> r == parseJson(New(mapper).String(position).value)
    ensures !New(mapper).String(position).ok ==> r == None
  {
    New(mapper).GetSubFromString(position, parseJson)
  }
}
