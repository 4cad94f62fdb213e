# Provider map

A model of the provider map of llbuild2's build system
(`Sources/LLBBuildSystem/Rules/Provider.swift`). A rule's result is a set of
*providers*. A provider is a typed value, and its type has a stable string
identifier (its polymorphic identifier). `LLBProviderMap` bundles providers
into type-erased `LLBAnyCodable` records. Each record holds the type
identifier and the provider's encoded bytes. The map holds at most one record
per type, and the records are sorted by identifier. So two maps built from the
same providers hold the same identifiers in the same order, whatever order the
providers came in.

The model has three modules:

- `Identifiers` (`identifiers.dfy`): identifiers are strings. The Swift `<`
  on them is modelled as the lexicographic order on characters (`Less`), and
  this file proves it is a strict total order. It also defines sortedness,
  duplicates, and the scan for the first equal pair of neighbours.
- `Providers` (`providers.dfy`): a provider is a pair of identifier and
  payload bytes. `Wrap` is `LLBAnyCodable(from:)`. The library sort
  `sorted(by:)` is modelled as an insertion sort (`SortById`), proved to
  return an ascending permutation of its input.
- `ProviderMaps` (`provider_map.dfy`): the error type `LLBProviderMapError`,
  the map, `count`, `init(providers:)` and `get`.
  - `init(providers:)` is the method `Build`. Its loop appends to
    `validProviders` and throws on an adjacent duplicate, as the Swift code does.
    It is proved equal to `Construct`, a loop-free definition.
  - `get` is the method `Get`, a front-to-back search with an early return.
    It is proved equal to `Lookup`.
  - The lemmas about `Construct` and `Lookup` state what the map promises:
    order, uniqueness, when construction fails and with which identifier,
    completeness, order independence, and what lookup finds and does not find.

Assumptions about code outside the core:

- `LLBAnyCodable(from: p)` records `p`'s type identifier as `typeIdentifier`
  and `p.encode()` as `serializedCodable` (`Providers.Wrap`). Its body is not
  part of this model.
- A provider's `encode()` and its type's `init(from:)` are supplied by each
  provider type. For Codable providers they default to the JSON coders of
  lines 15-27. Whatever a provider's coders are, the model takes them to be
  the identity on the payload bytes (`Providers.Encode`, `Providers.Decode`).
  So decoding the encoding of a provider gives that provider back.

The map is a Swift struct, which is a value type. It is modelled as a
datatype. `Count`, `Lookup` and `Get` take it by value and have no `modifies`
clause, so in this model reading the map cannot change its records.

Notes on the code's behaviour that the model follows:

- The code has no type-mismatch error: `get` compares identifiers and decodes
  with the requested type.
- `get` searches linearly, and so does `Get`.
- `init` checks each provider against the last stored record before wrapping
  it. Wrapping cannot fail in this model, so this order does not change the
  outcome.

## Model

| member | source | states |
|---|---|---|
| Identifiers.Less | Sources/LLBBuildSystem/Rules/Provider.swift:42 | the `<` on identifiers that the sort uses, compared character by character. `LessIsLexicographic` and the four lemmas after it state what it is |
| Identifiers.LessIsLexicographic | Sources/LLBBuildSystem/Rules/Provider.swift:42 | `Less` holds exactly when the first identifier is a proper prefix of the second, or has the smaller character where they first differ |
| Identifiers.LessIrreflexive | Sources/LLBBuildSystem/Rules/Provider.swift:41-43 | no identifier sorts before itself under the `<` used to sort providers |
| Identifiers.LessAsymmetric | Sources/LLBBuildSystem/Rules/Provider.swift:41-43 | two identifiers are never each below the other |
| Identifiers.LessTransitive | Sources/LLBBuildSystem/Rules/Provider.swift:41-43 | the sort order is transitive |
| Identifiers.LessTotal | Sources/LLBBuildSystem/Rules/Provider.swift:41-43 | any two different identifiers are ordered one way or the other, so the sort order is total |
| Identifiers.FirstAdjacentDuplicate | Sources/LLBBuildSystem/Rules/Provider.swift:44-47 | returns nothing exactly when all neighbouring identifiers differ. Otherwise it returns the identifier of the first equal pair of neighbours, with no equal pair before it |
| Identifiers.SortedUnique | Sources/LLBBuildSystem/Rules/Provider.swift:39-43 | two ascending sequences with the same identifiers are equal, so the sorted order does not depend on the sort algorithm |
| Providers.Encode | Sources/LLBBuildSystem/Rules/Provider.swift:48 | a provider's own `encode()`, called when its record is made, taken to be the identity on the payload bytes. Decoding its result as the provider's type gives the provider back |
| Providers.Decode | Sources/LLBBuildSystem/Rules/Provider.swift:77 | the requested type's `init(from:)`, called by `get` on the found bytes, taken to be the identity. The result is a provider of the requested type |
| Providers.EncodeDecode | Sources/LLBBuildSystem/Rules/Provider.swift:48 | encoding a decoded provider gives the decoded bytes back, so the assumed coders are inverse both ways |
| Providers.Wrap | Sources/LLBBuildSystem/Rules/Provider.swift:48 | the record keeps the provider's type identifier, and decoding its bytes as that type gives the provider back |
| Providers.Insert | Sources/LLBBuildSystem/Rules/Provider.swift:41-43 | inserting into an ascending sequence keeps it ascending and adds exactly the one provider |
| Providers.SortById | Sources/LLBBuildSystem/Rules/Provider.swift:41-43 | the sorted providers are in ascending identifier order and are a permutation of the input |
| ProviderMaps.Count | Sources/LLBBuildSystem/Rules/Provider.swift:53-55 | `count`, the number of stored records, is zero exactly when `get` fails for every type. `ConstructKeepsEveryProvider` proves that after a successful construction it equals the number of given providers |
| ProviderMaps.Construct | Sources/LLBBuildSystem/Rules/Provider.swift:38-51 | construction can fail only with `multipleProviders` |
| ProviderMaps.Build | Sources/LLBBuildSystem/Rules/Provider.swift:38-51 | the loop gives exactly `Construct`'s outcome. It fails exactly when two inputs share an identifier. On success the records are strictly ascending and there is one per input |
| ProviderMaps.FirstIndexOf | Sources/LLBBuildSystem/Rules/Provider.swift:74-75 | returns the position of the first record with the identifier. No earlier record has it, and the result is the record count when none has it |
| ProviderMaps.Lookup | Sources/LLBBuildSystem/Rules/Provider.swift:73-82 | fails exactly when no record has the identifier, and then with `providerTypeNotFound` of that identifier. Otherwise it returns the decoding of the first record that has it |
| ProviderMaps.Get | Sources/LLBBuildSystem/Rules/Provider.swift:73-82 | the loop with early return gives exactly `Lookup`'s result |
| ProviderMaps.ConstructIsStrictlySorted | Sources/LLBBuildSystem/Rules/Provider.swift:39-47 | on success the stored identifiers are strictly ascending, so no two records share an identifier |
| ProviderMaps.ConstructFailsIffDuplicate | Sources/LLBBuildSystem/Rules/Provider.swift:41-47 | construction fails exactly when two input providers have the same identifier |
| ProviderMaps.ConstructReportsLeastDuplicate | Sources/LLBBuildSystem/Rules/Provider.swift:41-46 | the identifier in `multipleProviders` is shared by two inputs, and it is the least such identifier (the first duplicate in sorted order) |
| ProviderMaps.ConstructKeepsEveryProvider | Sources/LLBBuildSystem/Rules/Provider.swift:48-55 | on success `count` equals the number of inputs and the stored identifiers are exactly the input identifiers. Every input has its record, and every record comes from an input |
| ProviderMaps.ConstructIsOrderIndependent | Sources/LLBBuildSystem/Rules/Provider.swift:39-50 | two inputs that are permutations of each other give the same error or identical record sequences |
| ProviderMaps.GetFindsEveryProvider | Sources/LLBBuildSystem/Rules/Provider.swift:73-78 | after a successful construction, `get` with any input provider's type returns that provider |
| ProviderMaps.GetMissingTypeFails | Sources/LLBBuildSystem/Rules/Provider.swift:74-81 | after a successful construction, `get` with a type that no input has fails with `providerTypeNotFound` of that identifier |
| ProviderMaps.ExampleTwoTypesOrder | Sources/LLBBuildSystem/Rules/Provider.swift:39-50 | providers of types "A" and "B" give the same outcome in either order |
| ProviderMaps.ExampleTwoTypesCount | Sources/LLBBuildSystem/Rules/Provider.swift:38-55 | that construction succeeds with `count` 2 |
| ProviderMaps.ExampleTwoTypesLookup | Sources/LLBBuildSystem/Rules/Provider.swift:73-81 | in that map `get` returns the "A" provider and fails with `providerTypeNotFound("C")` for type "C" |
| ProviderMaps.ExampleSameTypeTwice | Sources/LLBBuildSystem/Rules/Provider.swift:44-47 | two providers of type "A" make construction fail with `multipleProviders("A")` |

## Left out

- The JSON convenience coders (Provider.swift lines 15-27) call Foundation's `JSONEncoder` and `JSONDecoder`, which are outside this model. They are the identity on payload bytes here. So a failing `encode()`, which `init` would pass on, and a failing decode in `get` are not modelled.
- The `Codable` conformance of the map (lines 59-69) delegates to protobuf code that is not part of this model. So are the serialized form and any serialize/deserialize round trip.
- `LLBByteBuffer` and the internals of `LLBAnyCodable` are not part of this model. Bytes are `seq<bv8>`, and `Wrap` is assumed to behave as described above.
- `LLBPolymorphicCodable` registration is not part of this model. Identifiers are given strings, and a provider's identifier stands for its type. That two different types never share an identifier is the registration mechanism's duty.
- Swift's `String` comparisons work by Unicode canonical equivalence. This holds for the `<` of the sort (line 42) and for the `==` of the duplicate test (line 45) and of `get`'s match (line 75). The model compares characters exactly in all three places, with no normalisation (`Less`, and the identifier equalities in `Build`, `Construct`, `FirstIndexOf`, `Lookup` and `Get`). For example, the identifiers "\u{E9}" and "e\u{301}" are equal to Swift, so `init` throws `multipleProviders`. In the model they differ, and `Construct` succeeds with two records.
- `Encode` is a function, so equal providers encode equally. The default JSON coder (line 17) does not sort keys, so `ConstructIsOrderIndependent` gives identical bytes only for providers whose `encode()` is deterministic.
- Swift's `sorted(by:)` is a library sort. The model uses an insertion sort. By `SortedUnique`, any correct sort gives the same sequence of identifiers, and so the same error. On success there are no ties, so the records are the same too, but this is proved only for the insertion sort.
- `count` is a Swift `Int`. `Count` is an unbounded `nat`, since no map comes near the bound.
