# NFT container: data model and transaction-id counter

A Dafny model of the data core of an Internet Computer NFT container
(`src/nft-container/types.rs`). The core is mostly declarations:

- the registry's value types: the weather reading (`WeatherResult`), content
  hashes (`Hash`), tokens (`Nft`) and their metadata (`MetadataPart`,
  `MetadataPurpose`, `MetadataVal`), interface ids, the install arguments and
  the persistence wrapper (`StableState`);
- the error taxonomy (`Error`) and its conversion from a failed integer
  narrowing (`From<TryFromIntError> for Error`);
- the registry state (`State`), whose one behaviour is `next_txid`: it hands
  out the current transaction id and advances the counter by one.

Files:

- `wrappers.dfy` (module `Wrappers`): Rust's `Option` and `Result`.
- `types.dfy` (module `Types`): the fixed-width integers as bounded newtypes
  (`U8` … `U128`, `I32`), the value datatypes, the derived equality on
  purposes, the error conversion and the `?` path through it.
- `state.dfy` (module `Registry`): `class State` with the fields updated in
  place, `NextTxid`, the specification function `Issued` (the ids a run of
  `n` calls from counter `k` hands out) and the lemmas about it.

`State` carries two ghost members that the Rust struct does not have:
`origin`, the counter value the object was built with (or last rebased
to), and `issued`, the ids handed out since. `Valid()` ties them to `txid`,
which lets `NextTxid`'s contract say that the id it returns was never
handed out before. The ghost method `Rebase` restarts them after code
writes the public counter directly.

## Model

| member | source | states |
|---|---|---|
| `Types.PurposeEq` | src/nft-container/types.rs:56-60 | the derived `PartialEq` on `MetadataPurpose` holds exactly when both are the same variant, so `Preview` and `Rendered` are told apart and a consumer can select a part by purpose |
| `Types.MetadataValInWidth` | src/nft-container/types.rs:62-72 | every fixed-width `MetadataVal` holds a value within its width: `Nat8Content` < 2^8, `Nat16Content` < 2^16, `Nat32Content` < 2^32, `Nat64Content` < 2^64, `NatContent` < 2^128 |
| `Types.ErrorFrom` | src/nft-container/types.rs:117-121 | converting any `TryFromIntError` into `Error` yields `InvalidTokenId` and never `Unauthorized`, `ZeroAddress` or `Other` |
| `Types.ConvertErr` | src/nft-container/types.rs:117-123 | `?` on a conversion result in a function returning `Result<T, Error>` passes a success through with its value and turns every failure into `InvalidTokenId` |
| `Types.TryIntoTokenId` | src/nft-container/types.rs:117-121 | the standard library's `u64::try_from`, which produces the `TryFromIntError` this impl converts: narrowing an integer into a `u64` token id succeeds exactly when it lies in [0, 2^64), and then keeps its value |
| `Types.TokenIdConversion` | src/nft-container/types.rs:109-123 | converting an integer into a token id with `?` gives the id when it fits and `Err(InvalidTokenId)` otherwise |
| `Types.TokenIdRoundTrip` | src/nft-container/types.rs:117-121 | widening a `u64` token id and narrowing it back with the standard library's `u64::try_from` and `?` (which applies this impl) returns the same id |
| `Registry.State.constructor` | src/nft-container/types.rs:21-28 | a state holds exactly the weather reading, hash log, name, symbol and counter it was built with, and no id has been handed out yet |
| `Registry.State.NextTxid` | src/nft-container/types.rs:74-80 | returns the counter's value before the call; the counter becomes that value plus one; `weather_data`, `hashes`, `name` and `symbol` are unchanged; the id is greater than every id handed out before; it requires the counter to be below `u128::MAX` |
| `Registry.HistoryConsecutive` | src/nft-container/types.rs:74-80 | in a valid state the ids handed out so far are `origin`, `origin + 1`, … in call order, strictly increasing, and the counter stands one past the last of them |
| `Registry.NextTxids` | src/nft-container/types.rs:74-80 | `n` calls of `next_txid` in a row from counter k return k, k+1, …, k+n-1, append exactly `Issued(k, n)` to the log of handed-out ids, advance the counter by `n` and leave `weather_data`, `hashes`, `name` and `symbol` unchanged; it requires `k + n <= u128::MAX` |
| `Registry.IssuedConsecutive` | src/nft-container/types.rs:75-79 | `n` calls from counter `k` hand out exactly `n` ids, the i-th being `k + i`: no gaps |
| `Registry.IssuedStrictlyIncreasing` | src/nft-container/types.rs:75-79 | the ids of a run are strictly increasing and pairwise distinct: no repeats |
| `Registry.IssuedSplit` | src/nft-container/types.rs:75-79 | `m + n` calls hand out the ids of `m` calls followed by those of `n` calls from where the first run stopped |
| `Registry.IssuedDisjoint` | src/nft-container/types.rs:75-79 | no id handed out by a later run equals one handed out by an earlier run |
| `Registry.IssuedWithinU128` | src/nft-container/types.rs:74-80 | from a `u128` counter `k`, a run of `n` calls stays below `u128::MAX` at every call when `k + n <= u128::MAX`, and some call reaches `u128::MAX` (where `+= 1` overflows) otherwise |

## Left out

- Registry.State.NextTxid: not modelled at `txid == u128::MAX`, where `self.txid += 1` panics in a debug build and wraps to 0 in a release build; the model requires the counter to be below `u128::MAX`, and `IssuedWithinU128` says when a run of calls meets that.
- Candid serialisation and the snapshot save/restore of `StableState`: the encoding comes only from derive macros of external libraries, so there is no codec in the code to model; `StableState` is declared as a datatype holding the state.
- Token create, transfer, lookup and approval: the code declares only their error signals (`Error`, `ConstrainedError`), no operations. `ConstrainedError`'s single variant `Unauthorized` is named `ConstrainedUnauthorized` here, because `Error` declares a variant of the same name in the same module.
- `Principal`: an external Internet Computer identity type, modelled as its raw bytes with equality only; the code has no zero-address check.
- The derived `Default` for `Nft`: its owner would be `Principal`'s default, which belongs to the external identity type.
- `ExtendedMetadataResult` and `MetadataDescRef`: they borrow a slice of metadata parts for a lifetime; borrowing has no behaviour to model.
- `Cow<'static, str>` in `CustomContent`: modelled as a plain string; borrowed versus owned is a memory detail.
- The iteration order of the `HashMap` in `key_val_data`: modelled as a `map`, which has no order.
- Building a `State` from `InitArgs`: no such code is in `types.rs`; the constructor takes every field, as a struct literal does.
- Fetching weather data: an external oracle; `WeatherResult` is stored verbatim as four signed 32-bit fields.
- `types.rs` contains no `try_from` and no `?`; `TryIntoTokenId` stands for the standard library's `u64::try_from` (narrowing any integer to the width of `Nft::id`), the conversion whose error the `From` impl turns into `InvalidTokenId`.
- A counter for token ids, a zero-address check and a snapshot codec: `types.rs` has none of them.
- Registry.State.NextTxid: its "never handed out before" clause holds between direct writes to the public `txid` field; code that writes `txid` itself can make `next_txid` hand out an old id again, and the model then calls `Rebase`, which restarts the log of handed-out ids from the new counter value.
- `StableState`: holds a reference to the `State` object, so it shares the live state where the Rust struct owns its `State` by value; the model does not capture moving the state into the wrapper.
