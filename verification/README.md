# AutoCodingKeys in Dafny

`@AutoCodingKeys` is a Swift member macro. Attached to a struct, it adds an
`enum CodingKeys: String, CodingKey` with one case per variable declaration
whose first binding is an identifier. Each case is named after that
property. Its raw value is the external (JSON) key: the property name
converted from camelCase to snake_case. The macro's declared arguments are
`customKeys` (property name to key overrides) and `keyCase` (the naming
convention, `.snakeCase` by default).

This project models that core:

- `Ascii`: the character classes the conversion uses.
- `SnakeCaseConversion`: `convertToSnakeCase`. It is modelled both as the
  recursive function `Snake` and as the character loop
  `ConvertToSnakeCase`. It has an inverse partner, `Unsnake`, and the
  round-trip lemmas between the two.
- `Syntax`: the part of a struct declaration the macro reads, and the
  member loop that picks property names.
- `CodingKeys`: the generated table.
  - `Derive` / `Expansion` honour `customKeys` and `keyCase`; this is the
    corrected behaviour.
  - `SnakeTable` / `ExpansionAsWritten` are what the macro's code computes
    (see Findings).
- `Scenarios`: the structs the package declares, with the tables they get:
  - the tests' `Person` and `Product`;
  - the client's `@AutoCodingKeys(keyCase: .camelCase)` structs `Person` and
    `PersonWithCamelCaseKeys`;
  - the client's `ProductWithSnakeCaseAttrTests`.

  The client's `PersonWithSnakeCaseAttributes` is covered by the general
  lemma `CodingKeys.DefaultKeepsSnakeCaseNames`, and its `Product` is the
  tests' `Product`.

Characters are ASCII: a capital is `'A'..'Z'`, and its lower-case form is
32 code points further on. Integers play no role.

## Model

| member | source | states |
|---|---|---|
| Ascii.ToLower | Sources/AutoCodingKeysMacros/AutoCodingKeysMacro.swift:35 | the lower-case form of a capital is a lower-case letter, and never a capital |
| SnakeCaseConversion.Snake | Sources/AutoCodingKeysMacros/AutoCodingKeysMacro.swift:29-41 | the key is one character longer than the name for each capital in the name, and contains no capital |
| SnakeCaseConversion.ConvertToSnakeCase | Sources/AutoCodingKeysMacros/AutoCodingKeysMacro.swift:31-40 | the left-to-right append loop computes exactly `Snake` of its input, so it has the same length and no-capital guarantees |
| SnakeCaseConversion.SnakeConcat | Sources/AutoCodingKeysMacros/AutoCodingKeysMacro.swift:32-39 | converting `a + b` is converting `a`, then `b`, and concatenating: each character is handled without regard to its neighbours |
| SnakeCaseConversion.SnakeAt | Sources/AutoCodingKeysMacros/AutoCodingKeysMacro.swift:32-38 | character `i` contributes `_` plus its lower-case form when it is a capital, and itself otherwise, between the keys of what precedes and what follows it |
| SnakeCaseConversion.SnakeOfNoUpper | Sources/AutoCodingKeysMacros/AutoCodingKeysMacro.swift:36-37 | a name with no capital is copied unchanged |
| SnakeCaseConversion.SnakeFixedPoint | Sources/AutoCodingKeysMacros/AutoCodingKeysMacro.swift:33-37 | a name is its own key if and only if it has no capital (both directions) |
| SnakeCaseConversion.SnakeIdempotent | Sources/AutoCodingKeysMacros/AutoCodingKeysMacro.swift:29-41 | converting a key again leaves it unchanged |
| SnakeCaseConversion.SnakeLeadingCapital | Sources/AutoCodingKeysMacros/AutoCodingKeysMacro.swift:33-35 | the first position gets no special case: a leading capital gives a leading `_` followed by its lower-case form |
| SnakeCaseConversion.UnsnakeSnake | Sources/AutoCodingKeysMacros/AutoCodingKeysMacro.swift:33-35 | round trip: an underscore-free name is recovered from its key by `Unsnake` |
| SnakeCaseConversion.SnakeUnsnake | Sources/AutoCodingKeysMacros/AutoCodingKeysMacro.swift:33-35 | the other round trip: a string with no capital, in which every `_` is followed by a lower-case letter, is the key of its `Unsnake` reading |
| SnakeCaseConversion.SnakeOneCapital | Sources/AutoCodingKeysMacros/AutoCodingKeysMacro.swift:33-37 | a name with a single capital at `k` converts to the name with that capital replaced by `_` and its lower-case form |
| Syntax.PropertyNames | Sources/AutoCodingKeysMacros/AutoCodingKeysMacro.swift:16-18 | no member contributes more than one property name |
| Syntax.PropertyNamesMembership | Sources/AutoCodingKeysMacros/AutoCodingKeysMacro.swift:16-18 | a name is listed if and only if some member is a variable declaration whose first binding is that identifier |
| Syntax.ExtractPropertyNames | Sources/AutoCodingKeysMacros/AutoCodingKeysMacro.swift:16-18 | the member loop yields the property names, each with the position of the member it came from. Positions rise strictly, which is declaration order, and every contributing member is listed |
| CodingKeys.Derive | Sources/AutoCodingKeysMacros/AutoCodingKeysMacro.swift:15-24 | one case per property, at the same position. Each case is named after its property. The raw value is the `customKeys` override when there is one, and otherwise the name under the `keyCase` convention |
| CodingKeys.Expansion | Sources/AutoCodingKeysMacros/AutoCodingKeysMacro.swift:8-27 | succeeds if and only if the declaration is a struct, and otherwise fails with the struct-only message. A struct gets exactly one case per property name, in declaration order (so at most one per member). Case `k` is named after property `k`, and its raw value is that property's key, the override or else the `keyCase` conversion |
| CodingKeys.ExpansionHasCaseFor | Sources/AutoCodingKeysMacros/AutoCodingKeysMacro.swift:15-24 | a struct's table holds the case `n = KeyFor(n)` if and only if one of its members declares property `n` |
| CodingKeys.SnakeTable | Sources/AutoCodingKeysMacros/AutoCodingKeysMacro.swift:16-23 | the table the code as written builds: one case per name, at the same position, with the snake_case name as its raw value |
| CodingKeys.ExpansionAsWritten | Sources/AutoCodingKeysMacros/AutoCodingKeysMacro.swift:8-27 | as written: succeeds if and only if the declaration is a struct, and the failure carries the struct-only message. A struct gets exactly one case per property name, at the same position, named after it, with the snake_case name as raw value, so no raw value holds a capital |
| CodingKeys.DeriveConcat | Sources/AutoCodingKeysMacros/AutoCodingKeysMacro.swift:16-23 | the table of `a + b` is the table of `a` followed by the table of `b` |
| CodingKeys.OverrideIgnoresKeyCase | Sources/AutoCodingKeys/AutoCodingKeys.swift:4 | an overridden property's key is the same under every `keyCase` |
| CodingKeys.UnusedOverridesHaveNoEffect | Sources/AutoCodingKeys/AutoCodingKeys.swift:4 | two configurations with the same key case, whose override tables agree on the property names, give the same table |
| CodingKeys.DefaultIsSnakeCase | Sources/AutoCodingKeys/AutoCodingKeys.swift:4 | with the default arguments, every raw value is the snake_case name; it has no capital and is left unchanged by converting it again |
| CodingKeys.DefaultKeepsSnakeCaseNames | Sources/AutoCodingKeysClient/main.swift:25-30 | under the default, a struct whose names have no capital gets a table in which every key equals its name |
| CodingKeys.LookupDerived | Sources/AutoCodingKeysMacros/AutoCodingKeysMacro.swift:21 | looking a property up by case name gives its key, even when a name is declared twice, and looking up any other name gives nothing |
| CodingKeys.RawValueOf | Sources/AutoCodingKeysMacros/AutoCodingKeysMacro.swift:21 | the raw value of a case name, as `CodingKeys.<caseName>.rawValue` gives it: nothing if and only if no case has that name, and otherwise the raw value of the first case with that name |
| CodingKeys.AsWrittenAgreesOnDefault | Sources/AutoCodingKeysMacros/AutoCodingKeysMacro.swift:8-27 | with no macro arguments, the code as written and the corrected expansion agree on every declaration |
| CodingKeys.AsWrittenIgnoresOverrides | Sources/AutoCodingKeysMacros/AutoCodingKeysMacro.swift:8-24 | on any struct with a property whose override differs from its snake_case name, the code as written differs from the corrected expansion |
| Scenarios.ExpansionOfLets | Sources/AutoCodingKeysMacros/AutoCodingKeysMacro.swift:16-21 | a struct of one `let` per name expands to the table of exactly those names, both as corrected and as written |
| Scenarios.FirstIdentifierBindingOnly | Sources/AutoCodingKeysMacros/AutoCodingKeysMacro.swift:17-18 | only a variable declaration whose first binding is an identifier contributes, and only through that first binding |
| Scenarios.PersonKeys | Tests/AutoCodingKeysTests/AutoCodingKeysTests.swift:12-38 | `firstName`, `lastName` and `age` get the keys `first_name`, `last_name` and `age` |
| Scenarios.ProductKeysWithOverride | Tests/AutoCodingKeysTests/AutoCodingKeysTests.swift:47-73 | with the `productDescription` override, the keys are `product_name`, `description` and `price` |
| Scenarios.ProductOverrideIgnoredAsWritten | Sources/AutoCodingKeysMacros/AutoCodingKeysMacro.swift:15-24 | the code as written gives `productDescription` the key `product_description`, despite the override |
| Scenarios.DuplicateKeysAllowed | Sources/AutoCodingKeysMacros/AutoCodingKeysMacro.swift:20-21 | the distinct properties `firstName` and `first_name` both get the key `first_name`; the macro does not reject the clash |
| Scenarios.CamelCaseKeysIgnoredAsWritten | Sources/AutoCodingKeysClient/main.swift:18-23 | as written, `PersonWithCamelCaseKeys` still gets `first_name`, `last_name` and `age` despite `keyCase: .camelCase` |
| Scenarios.CamelCaseKeysUseConversion | Sources/AutoCodingKeysClient/main.swift:11-23 | corrected, `keyCase: .camelCase` with no overrides gives every property the camelCase conversion of its name |
| Scenarios.SnakeNamedPersonAsWritten | Sources/AutoCodingKeysClient/main.swift:11-16 | as written, the client's `Person` with `first_name`, `last_name` and `age` under `keyCase: .camelCase` gets its names as keys |
| Scenarios.SnakeNamedProductKeys | Sources/AutoCodingKeysClient/main.swift:39-44 | corrected, `ProductWithSnakeCaseAttrTests`' override names none of its properties, so `product_name`, `product_description` and `price` are their own keys |
| Scenarios.SnakeNamedProductAsWritten | Sources/AutoCodingKeysClient/main.swift:39-44 | as written, `ProductWithSnakeCaseAttrTests` gets the same keys `product_name`, `product_description` and `price` |

## Left out

- Macro plumbing is not modelled: SwiftSyntax parsing and printing, `EnumDeclSyntax` / `EnumCaseDeclSyntax` construction and the `CompilerPlugin` registration. The enum is modelled as its list of (case name, raw value) pairs.
- The non-struct branch calls `fatalError`. It is modelled as a `Failure` carrying the same message, not as a process crash.
- The `keyCase: .camelCase` conversion is not modelled: its definition (`AutoCodingKeyCase`) is not part of this model. `KeyCase.CamelCase` carries the conversion as an arbitrary function value, and no property of it is assumed.
- Swift's Unicode `isUppercase` and `lowercased()` are not modelled. Only ASCII capitals are treated as upper case, and lowering always gives a single character.
- Variable declarations are not told apart as stored, computed or `static`. The code does not distinguish them either: any variable declaration whose first binding is an identifier gets a case.
- The Swift compiler's check that the raw values of a `String`-backed enum are unique is not modelled. A table with two equal keys, as in `DuplicateKeysAllowed`, would be rejected when the expanded code is compiled, not by the macro.
- Encoding with `JSONEncoder` (used by the tests) is not modelled. The scenario lemmas state the keys the tests look for in the JSON.

## Findings

| source | as written | input that shows it | evidently intended | confidence | as-written member | corrected member |
|---|---|---|---|---|---|---|
| Sources/AutoCodingKeysMacros/AutoCodingKeysMacro.swift:8-24 | `expansion` never reads the attribute node, so `customKeys` and `keyCase` have no effect and every key is the snake_case name (for `keyCase`, see also `CamelCaseKeysIgnoredAsWritten` on main.swift:18-23) | `@AutoCodingKeys(customKeys: ["productDescription": "description"])` on `Product` (Tests/AutoCodingKeysTests/AutoCodingKeysTests.swift:47-51) gives the key `product_description` | the override key `description`, as the test at Tests/AutoCodingKeysTests/AutoCodingKeysTests.swift:72 expects | not executed | Scenarios.ProductOverrideIgnoredAsWritten | Scenarios.ProductKeysWithOverride |
