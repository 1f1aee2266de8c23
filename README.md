# Shoal: query grouping, fish catalogue and error mapping in Dafny

Shoal is a small demonstration REST API that serves a catalogue of fish. This
project models three sequential pieces of it and proves their properties:

- **Query-parameter grouping** (`src/routes/anything.rs`). The `/anything`
  route echoes its query string with parameters grouped by name. The ordered
  `(name, value)` pairs are folded into an insertion-ordered map. A name given
  once is recorded as `One(value)`. A name given several times is recorded as
  `Many(values)`, in input order. `QueryParams.GroupQueryParameters` is that
  fold, written as a loop over the pairs that updates the map. Its
  postcondition ties the result to a reference description. That description
  is built from three functions: `DistinctNames`, `ValuesOf` and `Grouped`.
  The lemmas derive the promised properties from the description: key order by
  first appearance, the `One`/`Many` split, no short `Many`, and no value lost.
- **Fish catalogue** (`src/data.rs`). `FISHES` is an insertion-ordered map from
  fish id to fish. It is built by numbering four template records by their
  position. `Store::next_id`, `Store::all` and `Store::get_or_404` are
  read-only operations over it. They are modelled as functions in module
  `Data`. The lemmas cover the seed table's contents, the freshness of
  `next_id`, and how `all` and `get_or_404` agree.
- **Error classification** (`src/error.rs`). Each error variant maps to an
  HTTP status and a client-visible detail. Database errors convert into the
  error type. These are modelled in module `Errors`, together with the policy
  that internal errors answer a fixed 500 response.

`IndexMaps.IndexMap` models the `indexmap` crate's map. It is a key sequence in
insertion order plus a Dafny `map`. Re-inserting a present key keeps its
position, and inserting a new key appends it. `Common` holds `Option`,
`Result` and the status codes.

Integer widths are explicit. `Data.u32` is Rust's `u32`. The cast `id as u32`
on the enumeration index truncates (`Data.AsU32`). The `+ 1` in `next_id` is
unchecked, so it wraps in a release build (`Data.WrappingIncrement`).
`Data.NextIdWrapsAtMax` shows the wrap. `Data.NextIdIsFresh` holds while every
key is below `u32::MAX`.

`src/routes/fish.rs:3` imports `SessionId` and `SessionStore` from
`crate::data`, and `src/main.rs:33-34` builds an "in-memory DB for fish" with
`Store::new()`. The `src/data.rs` modelled here defines only the static,
read-only `Store` over `FISHES`, so the model follows that code and the session
store is not modelled.

## Model

| member | source | states |
|---|---|---|
| `QueryParams.GroupQueryParameters` | src/routes/anything.rs:76-103 | The fold's result is a valid insertion-ordered map. Its keys are the distinct names in order of first appearance, and each name holds `Grouped` of its values in input order. |
| `QueryParams.FoldStepKeepsGrouping` | src/routes/anything.rs:82-98 | Each entry-API step keeps the result a grouping of the pairs seen so far. A vacant name gets `One`, a `One` becomes a two-element `Many` in the same position, and a `Many` gets the value pushed. |
| `QueryParams.GroupingOfEmpty` | src/routes/anything.rs:79-81 | Grouping no parameters gives an empty map. |
| `QueryParams.NamedIffHasValues` | src/routes/anything.rs:82-86 | A name is a key exactly when it occurs in the input, and exactly when it has at least one value. |
| `QueryParams.GroupingKeysAreInputNames` | src/routes/anything.rs:82-86 | The result's keys are exactly the names that occur in the input. |
| `QueryParams.DistinctNamesInFirstAppearanceOrder` | src/routes/anything.rs:82-94 | The keys are listed in strictly increasing order of each name's first position in the input, so none is listed twice. |
| `QueryParams.ValuesOfCountsOccurrences` | src/routes/anything.rs:90-97 | A name's recorded values are its input values with their multiplicities, one per occurrence of the name. |
| `QueryParams.GroupingSplitsOneFromMany` | src/routes/anything.rs:84-97 | An entry's values are its name's values in input order. It is `One(v)`, with `(name, v)` in the input, exactly when the name occurs once. Otherwise it is `Many` with as many values as occurrences, and at least two. |
| `QueryParams.GroupingKeepsEveryValue` | src/routes/anything.rs:79-102 | No value is dropped: the total number of values over all entries equals the number of input pairs. |
| `Data.EnumerateNumbersByPosition` | src/data.rs:43-49 | For at most 2^32 records, enumerating stores record i with id i under key i. Keys follow record order, the other fields are kept, and every stored fish carries its own key as its id. |
| `Data.SeedTable` | src/data.rs:11-49 | `FISHES` holds Nemo, Dory, Sam and Barry, in that order, under keys 0 to 3. Each carries its key as its id, with the declared species, age and weight. |
| `Data.MaxId` | src/data.rs:59-62 | The maximum of the key values is absent only for no keys. Otherwise it is one of the keys and no key exceeds it. |
| `Data.NextIdIsFresh` | src/data.rs:57-66 | While all keys are below `u32::MAX`, `next_id` exceeds every key and so is not a key. It is 0 exactly for an empty map, and otherwise one past a present key. |
| `Data.NextIdWrapsAtMax` | src/data.rs:63 | With `u32::MAX` as a key, the unchecked increment wraps and `next_id` is 0. |
| `Data.SeedNextId` | src/data.rs:57-66 | For the seed table, `next_id` is 4. |
| `Data.GetOr404` | src/data.rs:74-78 | A lookup succeeds exactly when the id is a key, and then returns the stored fish. Otherwise it fails with status 404 naming the id. |
| `Data.GetOr404ReturnsRequestedFish` | src/data.rs:74-78 | A successful lookup returns a fish whose id is the requested one. While every key is below `u32::MAX`, the id `next_id` hands out is not found. |
| `Data.AllListsEveryFishInOrder` | src/data.rs:69-71 | `all` lists one fish per key, in insertion order, so every stored fish appears. Looking up the id of a listed fish returns that fish. |
| `Data.SeedAll` | src/data.rs:69-71 | `all` over the seed table yields Nemo, Dory, Sam and Barry with ids 0 to 3, in that order. |
| `Errors.IntoResponse` | src/error.rs:39-56 | The mapping is total and only produces 404, 400 or 500. 404 is exactly `NotFound`, 400 exactly `SessionNotFound`, and 500 exactly the internal errors. Internal errors carry the fixed detail "Internal server error"; the others carry their own display text. |
| `Errors.ClientErrorResponses` | src/error.rs:21-45 | `NotFound` answers 404 "Not found". `SessionNotFound` answers 400 with "Session `<id>` not found". |
| `Errors.InternalErrorsLeakNothing` | src/error.rs:46-52 | Every `Io` or `Sqlite` error, whatever its payload, gets the same 500 "Internal server error" response, so its message never reaches the client. |
| `Errors.FromSqlite` | src/error.rs:58-65 | The conversion gives `NotFound` exactly for `QueryReturnedNoRows`. Every other database error becomes `Sqlite` of that same error. |
| `Errors.SqliteErrorStatus` | src/error.rs:58-65 | A converted database error answers 404 exactly when the query returned no rows. Otherwise it answers 500 with the fixed detail. |
| `Errors.FromIo` | src/error.rs:17-18 | The derived `From<io::Error>` makes an internal error, which answers the fixed 500 "Internal server error" response whatever the I/O error says. |
| `Errors.IoErrorStatus` | src/error.rs:17-52 | The derived `From<io::Error>` (lines 17-18) wraps an I/O error as `Io`, and `into_response` (lines 46-52) answers it with the fixed 500 "Internal server error" response, whatever the error's message. |

## Left out

- The session store (`SessionStore`, `SessionId`, login, session-scoped create/update/delete, expiry and reaping): `src/routes/fish.rs:3` imports it from `crate::data`, but the `src/data.rs` modelled here defines only the static `Store`. It is not part of this model, and no semantics are invented for it.
- The `anything` handler body (`src/routes/anything.rs:13-49`) is not modelled. Header stringification, lossy UTF-8 decoding of the body and JSON parsing are library behaviour. Only `group_query_parameters` is modelled.
- JSON serialisation is left out: the untagged `QueryParameterValue`, `Fish` and `ErrorDetail` encodings are serde behaviour.
- `Fish.weight_kg` is an `f64`. It is carried as `Data.Weight`, wrapping a Dafny real, with no arithmetic. Floating-point rounding of the literals is not modelled.
- `Data.GetOr404`: the not-found response carries status 404 and the requested id. The text "No fish with ID {id}" (`src/routes.rs:19-26`) is string formatting and is not modelled.
- `Data.NextIdIsFresh` requires every key below `u32::MAX`. At `u32::MAX` the unchecked `+ 1` wraps to 0 in a release build (shown by `Data.NextIdWrapsAtMax`) and panics in a debug build. The seed table's largest key is 3, so this cannot arise there.
- `Data.EnumerateNumbersByPosition` holds for at most 2^32 records. Past that, `index as u32` truncates, so a later record is inserted under the key of an earlier one and replaces it in place. The seed table has four records.
- The catalogue is immutable (a `LazyLock` static), so `get_or_404` and `all` are functions of the catalogue. That they leave it unchanged holds by construction.
- `Errors.Display`: `String::from_utf8_lossy` for the session id is library decoding and is a function parameter (`lossy`). The `Display` text of `io::Error` and of database errors other than `QueryReturnedNoRows` is taken as an opaque message.
- Logging through `tracing::error!` (`src/error.rs:47`) is left out. It does not affect the response.
- The router, TCP bind, `HOST` lookup, embedded documentation and the `reap_sessions` loop in `src/main.rs` are I/O and async wiring.
