# SwifterSwift Optional extensions, modelled in Dafny

SwifterSwift adds a handful of conveniences to Swift's `Optional`:

- `unwrapped(or: default)` returns the held value or a default;
- `unwrapped(or: error)` returns the held value or throws;
- `run(_:)` invokes a block with the held value, if there is one;
- `lhs ??= rhs` assigns an optional only when it holds a value;
- `lhs ?= rhs` assigns only while the target is `nil`;
- `isNilOrEmpty` is true for `nil` and for an empty collection or string;
- `<` on `Int?` puts `nil` below every present value.

Each operation is pinned down by the assertions of `OptionalExtensionsTests.swift`; the
implementation file is not modelled. Each operation
is a pure Dafny function over an immutable `Option` datatype. Lemmas relate the operations to one
another and to independent reference definitions. One lemma per test method replays the test's
concrete scenario.

Files and modules:

- `optionals.dfy`, module `Optionals`: the `Option` and `Result` datatypes, unwrapping, `run`,
  `?=` and `isNilOrEmpty`.
- `slots.dfy`, module `DictionarySlots`: a dictionary subscript seen as an optional slot. Storing
  `nil` removes the key. The module also holds `m[k] ??= v`.
- `ordering.dfy`, module `OptionalOrdering`: `<` on `Int?`, a reference ordering by rank, and the
  strict-total-order and sortedness lemmas.
- `tests.dfy`, module `OptionalExtensionsTests`: the test scenarios.

Swift's `throws` is modelled as `Result.Failure(e)`. The block given to `run` is modelled as the
sequence of arguments it receives. Swift implicitly promotes a bare `Int` operand of `<` to `Int?`,
so a bare `n` is written `Some(n)`. The one comparator `Less` therefore covers optional-vs-bare,
bare-vs-optional and optional-vs-optional comparisons. Strings are `seq<char>` and arrays are
`seq<T>`. Only their length matters here.

Modelling choices:

- `nil < nil` is never exercised by the tests. `Less(None, None)` is defined as false, and with
  that choice `Less` is proved to be a strict total order.
- `m[k] ??= v` on a key that already holds a value is never exercised by the tests either. The
  model stores `v` whenever it is present. Another reading is that `??=` never overwrites a held
  value; under that reading it coincides with `?=`. No contract or lemma depends on this choice:
  every `ensures` of `CoalesceSlot` and `CoalesceAssign` holds under both readings.

## Model

| member | source | states |
|---|---|---|
| `Optionals.UnwrappedOr` | Tests/SwiftStdlibTests/OptionalExtensionsTests.swift:18-24 | unwrapping `nil` yields the default; unwrapping a held value yields that value whatever the default |
| `Optionals.UnwrappedOrThrow` | Tests/SwiftStdlibTests/OptionalExtensionsTests.swift:26-32 | it throws exactly when the optional is `nil`, and the error thrown is the one supplied; otherwise it returns the held value without throwing |
| `Optionals.Run` | Tests/SwiftStdlibTests/OptionalExtensionsTests.swift:34-46 | the block is invoked at most once; it is never invoked on `nil`; every invocation receives the held value |
| `Optionals.ConditionalAssign` | Tests/SwiftStdlibTests/OptionalExtensionsTests.swift:66-81 | `?=` on a `nil` target stores the right-hand side, present or `nil`; a target holding a value keeps it, also against `nil`; the result is `nil` only when both sides are |
| `Optionals.IsNilOrEmpty` | Tests/SwiftStdlibTests/OptionalExtensionsTests.swift:84-105 | true exactly when unwrapping with the empty collection as default gives the empty collection; false only for a present, non-empty value |
| `Optionals.UnwrapAgreement` | Tests/SwiftStdlibTests/OptionalExtensionsTests.swift:18-32 | the throwing and the defaulting unwrap agree: a value returned without throwing is the one `unwrapped(or:)` returns for any default, and when it throws, `unwrapped(or:)` falls back to its default |
| `Optionals.UnwrapDefaultIrrelevant` | Tests/SwiftStdlibTests/OptionalExtensionsTests.swift:18-24 | the choice of default changes the result exactly when the optional is `nil` and the defaults differ |
| `Optionals.RunAgreesWithUnwrap` | Tests/SwiftStdlibTests/OptionalExtensionsTests.swift:34-46 | `run` hands its block exactly what `unwrapped(or:)` returns, and nothing when it would fall back to the default |
| `Optionals.ConditionalAssignSettles` | Tests/SwiftStdlibTests/OptionalExtensionsTests.swift:71-81 | once `?=` has stored a present value, a further `?=` with any right-hand side, `nil` included, changes nothing |
| `Optionals.ConditionalAssignIsCoalescing` | Tests/SwiftStdlibTests/OptionalExtensionsTests.swift:66-81 | unwrapping the result of `x ?= v` with default `d` equals unwrapping `x` with fallback "`v`, else `d`" |
| `Optionals.IsNilOrEmptyViaRun` | Tests/SwiftStdlibTests/OptionalExtensionsTests.swift:84-105 | an optional collection is not nil-or-empty exactly when `run` would hand its block a non-empty collection |
| `DictionarySlots.Lookup` | Tests/SwiftStdlibTests/OptionalExtensionsTests.swift:61-63 | reading `m[k]` gives a value exactly when `k` is bound, and that value is the bound one |
| `DictionarySlots.Store` | Tests/SwiftStdlibTests/OptionalExtensionsTests.swift:58-59 | writing `m[k]` makes a later read of `k` return what was written; writing `nil` unbinds `k`; every other key reads as before |
| `DictionarySlots.CoalesceSlot` | Tests/SwiftStdlibTests/OptionalExtensionsTests.swift:58-63 | `lhs ??= nil` keeps `lhs` as it was; on a `nil` slot `lhs ??= rhs` stores `rhs`; the slot is `nil` afterwards only when both sides were |
| `DictionarySlots.CoalesceAssign` | Tests/SwiftStdlibTests/OptionalExtensionsTests.swift:49-63 | `m[k] ??= nil` leaves the dictionary unchanged; on an unbound key `m[k] ??= v` makes `m[k]` read `v`; other keys are untouched; `k` is bound afterwards exactly when it was before or `v` is present |
| `DictionarySlots.StoreLookup` | Tests/SwiftStdlibTests/OptionalExtensionsTests.swift:56-63 | reading a slot and writing the same optional back leaves the dictionary unchanged |
| `DictionarySlots.CoalesceMatchesConditionalOnEmptySlot` | Tests/SwiftStdlibTests/OptionalExtensionsTests.swift:49-81 | on an unbound key, `m[k] ??= v` has the same effect as writing back the slot after `?=` |
| `DictionarySlots.CoalesceDistinctKeysCommute` | Tests/SwiftStdlibTests/OptionalExtensionsTests.swift:58-59 | `??=` through two different keys gives the same dictionary in either order, so assigning `key2` cannot disturb `key1` |
| `OptionalOrdering.Less` | Tests/SwiftStdlibTests/OptionalExtensionsTests.swift:108-141 | nothing is below `nil`; `nil` is below every present value; two present values compare as integers |
| `OptionalOrdering.LessMatchesRank` | Tests/SwiftStdlibTests/OptionalExtensionsTests.swift:108-141 | `<` is the lexicographic order on (presence, value): absent ranks first, present values by their integer |
| `OptionalOrdering.NilIsMinimal` | Tests/SwiftStdlibTests/OptionalExtensionsTests.swift:121-140 | for every integer `n`, `nil < n` holds and `n < nil` does not; the ensures of `Less` restated for a bare `n` |
| `OptionalOrdering.LessIsStrictTotalOrder` | Tests/SwiftStdlibTests/OptionalExtensionsTests.swift:108-141 | `<` on `Int?` is irreflexive, transitive and asymmetric, and orders any two distinct values |
| `OptionalOrdering.AdjacentSortedIsSorted` | Tests/SwiftStdlibTests/OptionalExtensionsTests.swift:108-141 | a sequence of `Int?` whose neighbours are in `LessOrEqual` order (no later element `<` an earlier one) is in that order for every pair |
| `OptionalOrdering.NilsSortFirst` | Tests/SwiftStdlibTests/OptionalExtensionsTests.swift:121-140 | in a sorted sequence of `Int?` every `nil` comes before every present value |
| `OptionalExtensionsTests.TestUnwrappedOrDefault` | Tests/SwiftStdlibTests/OptionalExtensionsTests.swift:18-24 | `nil` unwrapped with "swift" is "swift"; "swifterswift" unwrapped with "swift" is "swifterswift" |
| `OptionalExtensionsTests.TestUnwrappedOrError` | Tests/SwiftStdlibTests/OptionalExtensionsTests.swift:26-32 | `nil` throws `optionalIsNil`; "I exist" does not throw |
| `OptionalExtensionsTests.TestRunBlock` | Tests/SwiftStdlibTests/OptionalExtensionsTests.swift:34-46 | the block never runs on `nil`; on "swift" it runs once and receives "swift" |
| `OptionalExtensionsTests.TestOptionalAssignment` | Tests/SwiftStdlibTests/OptionalExtensionsTests.swift:49-63 | starting empty, `key1 ??= nil` then `key2 ??= "foo"` leaves `key1` unset and binds `key2` to "foo" |
| `OptionalExtensionsTests.TestConditionalAssignment` | Tests/SwiftStdlibTests/OptionalExtensionsTests.swift:66-81 | the four `?=` cases: `nil` takes "newText1", "text2" stays, `nil` stays `nil`, "text4" stays |
| `OptionalExtensionsTests.TestIsNilOrEmpty` | Tests/SwiftStdlibTests/OptionalExtensionsTests.swift:84-105 | `nil` and empty arrays and strings are nil-or-empty; `[1]` and "hello World!" are not |
| `OptionalExtensionsTests.TestComparable` | Tests/SwiftStdlibTests/OptionalExtensionsTests.swift:108-141 | every comparison the test makes: present values by integer order, `nil` below -1, 0 and 1 and never above them |

## Left out

- The XCTest harness is not modelled. The `throws` machinery becomes the `Result` datatype, and `OptionalTestError` is a one-case datatype.
- Side effects of the `run` block are not modelled: the captured `didRun` flag and the assertions inside the closure. The model returns the sequence of arguments the block receives instead.
- DictionarySlots.CoalesceSlot: says nothing about a held slot with a present right-hand side, because the tests never exercise that case; the body overwrites, as explained above.
- DictionarySlots.CoalesceAssign: likewise says nothing about the value stored on a bound key with a present right-hand side.
- The right-hand side of `?=` is evaluated lazily in Swift. The model has no effects, so laziness is not observable.
- `<` is modelled on `Int?` only. Generic `Comparable` wrapped types and the other comparison operators are not tested, so they are not modelled.
- Unicode `String` semantics are not modelled. Strings are plain `seq<char>`, and only emptiness matters to `isNilOrEmpty`.
