# nested — a Dafny model of dot-path lookup into nested maps

Package `nested` (file `nest.go`) reads values out of nested
`map[string]interface{}` documents, such as decoded JSON, by a position
written as dot-separated keys (`"advert.status.ttl"`). `Map.Interface` splits
the position on `.` and walks the segments while holding a current container.
A missing key means not found. A nested map is the answer at the last segment
and the next container otherwise. A string or an int is the answer at once,
even when segments remain. Any other value is passed over, and the next
segment is looked up in the same container. The typed accessors narrow the
value found (`String`, `Int`), parse it (`Time`, `SubFromString`), or drop
the found flag (`Get...`). The package-level helpers apply these to
`New(mapper)`.

Files:

- `wrappers.dfy` — `Option` (Go's `nil`) and `Result` (Go's `(value, error)`).
- `gostrings.dfy` — `strings.Split` and `strings.Join` with a one-character
  separator, and their round-trip lemmas.
- `nested.dfy` — the model of `nest.go`. The named type `Map` is a datatype.
  Its methods are its members, and the package-level helpers sit at module level.
  The resolver loop is the method `Map.Interface`. It is proved equal to the
  recursive function `Walk`, which the pure accessors use through `Map.Lookup`.
- `properties.dfy` — what the resolver and the accessors guarantee.
- `examples.dfy` — cases from the table tests of `nest_test.go`, on part of
  their fixture document.

Modelling choices:

- `Value` has four cases: `StringValue`, `IntValue` (Go's 64-bit `int`, as
  `int64`), `MapValue` (a nested `map[string]interface{}`) and `OtherValue`.
  `OtherValue` covers everything the resolver does not recognise: slices, JSON
  numbers (`float64`), `nil`, and values of the named type `Map`.
- Go's `(value, ok)` results are `Flagged(value, ok)`. The `interface{}`
  result of `Interface` is an `Option<Value>`, where `None` is `nil`.
- A mapper that may be nil is an `Option<Dict>`, so `New(None)` is `New(nil)`.
- `time.Parse` and `json.Unmarshal` are foreign code. They are passed in as
  function parameters: `parse(layout, text)` and `parseJson(text)`, where
  `None` is an error. `time.Time` is the `Timestamp` datatype, and `ZeroTime`
  is `time.Time{}`.

An unrecognised value, such as a slice, does not stop the walk: nest.go:62-73
has no `else` branch for it, so the loop goes on to the next segment in the
same container. So `"advert.contact.phones.name"` finds the contact's
`"name"` (`NestedExamples.PhonesPassedOver`), and such a value at the last
segment gives `(nil, false)` (`NestedExamples.PhonesNotFound`).

## Model

| member | source | states |
|---|---|---|
| `GoStrings.Split` | nest.go:53 | the position splits into one more piece than it has dots, and no piece contains a dot (so `""` gives one empty segment) |
| `GoStrings.JoinSplit` | nest.go:53 | joining the pieces of a split with the separator gives back the original string |
| `GoStrings.SplitJoin` | nest.go:53 | splitting the join of dot-free pieces gives back exactly those pieces |
| `GoStrings.SplitJoinThen` | nest.go:53 | a position made of dot-free pieces, a dot and any suffix splits into the pieces followed by the suffix's pieces |
| `GoStrings.JoinAppend` | nest.go:53 | joining two lists of pieces is joining each and putting a separator between them |
| `Nested.Walk` | nest.go:56-75 | the walk never ends on a value of an unrecognised kind: anything it finds is a string, an int or a map |
| `Nested.Map.Lookup` | nest.go:52-76 | found is true exactly when a value comes back, and that value is never unrecognised; not found is `(nil, false)` |
| `Nested.Map.Interface` | nest.go:52-76 | the loop over the split segments, holding the current container and leaving by `break` or early return, returns exactly what the walk specifies for the whole position |
| `Nested.Map.GetInterface` | nest.go:44-47 | gives a value exactly when `Interface` finds one, and then that value; otherwise nil |
| `Nested.Map.String` | nest.go:86-95 | found exactly when the resolver found a string, whose text is returned; `""` otherwise |
| `Nested.Map.GetString` | nest.go:79-82 | the string the resolver found, or `""` when it found no string |
| `Nested.Map.Int` | nest.go:105-114 | found exactly when the resolver found an int, which is returned; `0` otherwise, and a string is never converted |
| `Nested.Map.GetInt` | nest.go:98-101 | the int the resolver found, or `0` when it found no int |
| `Nested.Map.Time` | nest.go:125-141 | found exactly when `String` succeeds and the parser accepts the text under the given layout, or RFC 3339 when the layout is empty; the zero time otherwise |
| `Nested.Map.GetTime` | nest.go:117-120 | the time the parser produces from the string found at the position, or the zero time when there is no string or the parser rejects it |
| `Nested.Map.SubFromString` | nest.go:144-156 | found exactly when `String` succeeds and the decoder accepts the text, whose map is returned; nil otherwise |
| `Nested.Map.GetSubFromString` | nest.go:159-162 | the decoder's result for the string found at the position, or nil when there is no string |
| `Nested.New` | nest.go:17-23 | a nil map becomes an empty map; any other map is returned unchanged |
| `Nested.NewFromInterface` | nest.go:35-41 | succeeds exactly on a `map[string]interface{}`, returning its entries; anything else gives `ErrInvalidInputType` |
| `Nested.Interface` | nest.go:165-167 | the package-level helper returns what `Interface` returns on `New(mapper)` |
| `Nested.GetInterface` | nest.go:170-172 | gives a value exactly when the resolver finds one in `New(mapper)`, and then that value; otherwise nil |
| `Nested.String` | nest.go:175-177 | found exactly when the resolver finds a string in `New(mapper)`, whose text is returned; `""` otherwise |
| `Nested.GetString` | nest.go:180-182 | the string the resolver finds in `New(mapper)`, or `""` when it finds no string |
| `Nested.Int` | nest.go:185-187 | found exactly when the resolver finds an int in `New(mapper)`, which is returned; `0` otherwise |
| `Nested.GetInt` | nest.go:190-192 | the int the resolver finds in `New(mapper)`, or `0` when it finds no int |
| `Nested.Time` | nest.go:195-197 | found exactly when `String` succeeds on `New(mapper)` and the parser accepts the text under the effective layout; the zero time otherwise |
| `Nested.GetTime` | nest.go:200-202 | the time the parser produces from the string found in `New(mapper)`, or the zero time when there is no string or the parser rejects it |
| `Nested.SubFromString` | nest.go:205-207 | found exactly when `String` succeeds on `New(mapper)` and the decoder accepts the text, whose map is returned; nil otherwise |
| `Nested.GetSubFromString` | nest.go:210-212 | the decoder's result for the string found in `New(mapper)`, or nil when there is no string |
| `Nested.EffectiveLayout` | nest.go:131-133 | an empty layout is replaced by `time.RFC3339`; any other layout is used as given |
| `NestedProperties.FoundValueProvenance` | nest.go:52-76 | a found value is stored, unmodified, in the input at the keys the walk followed; those keys are non-empty and taken in order from the segments |
| `NestedProperties.ScalarShortCircuit` | nest.go:68-71 | a string or an int reached through nested maps is the result, whatever segments remain after it |
| `NestedProperties.DescendIntoNested` | nest.go:62-67 | a nested map is the result only at the last segment; before that it becomes the container for the remaining segments |
| `NestedProperties.MissingKey` | nest.go:57-60 | a key missing at any depth gives not found, however many segments matched before it and whatever follows |
| `NestedProperties.OtherIsSkipped` | nest.go:62-73 | an unrecognised value is passed over: the next segment is looked up in the same container, and at the last segment nothing is found |
| `NestedProperties.StrictPathAgrees` | nest.go:52-76 | where a strict descent through every segment reaches a string, an int or a map, the walk finds exactly it; where it reaches an unrecognised value, the walk finds nothing |
| `NestedProperties.StrictLastStep` | nest.go:62-67 | a strict descent to one more key is a descent to a map and one lookup in it |
| `NestedProperties.LookupOfJoin` | nest.go:53-56 | a position written as dot-free segments joined by dots walks exactly those segments |
| `NestedProperties.EmptyPosition` | nest.go:53-60 | the empty position is the one segment `""`; without a `""` key the result is `(nil, false)` |
| `NestedProperties.ShortCircuitPosition` | nest.go:68-71 | a string or an int stored at some segments is found at every longer position; `Int` then fails on the string and `String` on the int |
| `NestedProperties.OtherSkippedAtPosition` | nest.go:62-75 | for a key `k` holding an unrecognised value, `"k.q"` resolves like `"q"` in the same map, and `"k"` alone is not found |
| `NestedProperties.StringIntExclusive` | nest.go:86-114 | `String` and `Int` never both succeed at one position |
| `NestedProperties.GettersDropTheFlag` | nest.go:43-162 | by definition: each `Get...` accessor returns the first component of its flagged counterpart |
| `NestedProperties.TimeDefaultLayout` | nest.go:131-133 | an empty layout is the same as `time.RFC3339` |
| `NestedProperties.TimeFailures` | nest.go:125-141 | `Time` gives the zero time and false when `String` fails or the parser rejects the text |
| `NestedProperties.SubdocumentRoundTrip` | nest.go:144-156 | `SubFromString` returns whatever the decoder yields for the string found, and `(nil, false)` when the decoder rejects it; that the decoder inverts a JSON encoder is an assumption about the foreign decoder, not proved here |
| `NestedProperties.NilMapperFindsNothing` | nest.go:164-212 | with a nil mapper every package-level helper reports not found with its zero value |
| `NestedProperties.HelpersUseNew` | nest.go:164-212 | by definition: each package-level helper is the `Map` accessor applied to `New(mapper)` |
| `NestedExamples.AdvertId` | nest_test.go:63-68 | `"advert.id"` finds the string `"12"`, and `Int` fails there |
| `NestedExamples.AdvertStatusTtl` | nest_test.go:75-80 | `"advert.status.ttl"` finds the int 123123; `Int` succeeds and `String` fails there |
| `NestedExamples.AdvertContact` | nest_test.go:81-92 | `"advert.contact"` finds the nested contact map itself |
| `NestedExamples.AdvertBananas` | nest_test.go:93-98 | `"advert.bananas"` finds nothing, for `Interface`, `String` and `Int` |
| `NestedExamples.AdvertTitleId` | nest_test.go:298-302 | `"advert.title.id"` stops at the string title, so `Int` gives `(0, false)` |
| `NestedExamples.EmptyPositionTable` | nest_test.go:57-62 | the empty position finds nothing, on the fixture and on an empty map |
| `NestedExamples.PhonesPassedOver` | nest.go:62-73 | the slice under `"phones"` is passed over, so `"advert.contact.phones.name"` finds the contact's name |
| `NestedExamples.PhonesNotFound` | nest.go:62-75 | the slice under `"phones"` at the last segment gives `(nil, false)` |

## Left out

- `NewFromJSON` (nest.go:26-32): JSON decoding of text is foreign code; `SubFromString` takes the decoder as a parameter instead.
- `time.Parse` layout semantics and `json.Unmarshal` decoding: foreign library code, passed in as function parameters; only the RFC 3339 default and the failure paths are modelled.
- The identity and message of `ErrInvalidInputType`: it is the single `InvalidInputType` error value.
- Go's dynamic types other than `string`, `int` and `map[string]interface{}` are one case, `OtherValue`; floats, slices, `nil` and named `Map` values are not told apart, as the resolver does not tell them apart either.
- Nil nested maps: a nil `map[string]interface{}` stored inside a document is modelled as an empty map. Lookups into the two behave the same. They differ under `== nil`, under `reflect.DeepEqual`, and in JSON encoding (`null` against `{}`), and the model does not tell them apart.
- `Nested.Map.SubFromString`: decoding the JSON text `null` gives a nil `Map` with no error in Go; the decoder parameter returns a map or an error, so a nil map with true is not modelled.
- `Nested.NewFromInterface`: a nil `map[string]interface{}` argument is accepted by Go and turned into an empty map; the model's `MapValue` always carries a map, so this case is the empty map.
- Benchmarks, random test data and the reflection-based type checks of nest_test.go: test tooling; the test tables appear only as the cases in `examples.dfy`.
- The HTTP example server (example/http.go): request decoding and JSON response encoding are I/O.
- Byte-level strings: Go strings are byte sequences; the model uses sequences of characters, which split on `.` the same way.
