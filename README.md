# zstor metadata layer in Dafny

This project models the metadata layer of zstor, an erasure-coded backup store,
as written in `zstor/src/meta.rs`. That layer has three parts.

- **The recovery record.** A `MetaData` holds the number of data shards and
  parity shards, the 16-byte checksum of the whole file, and the encryption and
  compression configuration. It also holds the ordered list of `ShardInfo`: each
  shard's encoding index, checksum, storage keys and backend.
- **The failure record.** A `FailureMeta` describes an upload that failed.
- **The `MetaStore` interface.** It lists the operations a metadata store
  offers. The file has no implementation of it.

The project has three modules:

- `Wrappers` (`wrappers.dfy`): the `Option` type.
- `Meta` (`meta.dfy`): the checksum type, `ShardInfo`, the `MetaData` class, `FailureMeta`.
  - `MetaData` is a class because `add_shard` appends to its shard list in place.
  - `MetaRecord` is the value of a `MetaData`: what `Clone` copies, what `PartialEq`
    compares, and what a store persists.
  - The Rust accessors (`data_shards()`, `parity_shards()`, `encryption()`,
    `compression()`, `shards()`, `checksum()`, `index()`, `zdb()`, `key()`,
    `data_path()`, `key_dir_path()`, `should_delete()`) are the model's fields
    and datatype destructors.
  - In `MetaData` every field except the shard list is a constant: the Rust
    fields are private and only `add_shard` changes anything (meta.rs:15-29).
- `Store` (`store.dfy`): `MetaStore`, an in-memory reference store that does what
  each doc comment of the interface describes. It holds:
  - a map from string key to `MetaRecord`;
  - the set of backends marked replaced;
  - the failure queue, as a sequence of `FailureMeta`.

  The module also has the function `Without`, which removes an entry from the failure
  queue, with its lemmas. Caller methods at the end of `store.dfy` state the
  properties that relate several operations: load after save, last write wins,
  saving takes a snapshot, marking a backend twice, and the failure round trip.

The opaque types `Encryption`, `Compression`, `Key` and `ZdbConnectionInfo`
are abstract types with equality. Paths are strings. `usize` is a natural number
below 2^64.

What the code does not check, and the model therefore does not require:
- The shard list may grow beyond `data_shards + parity_shards`. `add_shard`
  (meta.rs:62-64) checks nothing, and `Vec::with_capacity` (meta.rs:56) is only a
  hint. So `AddShard` has no precondition, and `RecordUploads` accepts any number
  of uploads.
- `data_shards` and `parity_shards` may be 0. `MetaData::new` (meta.rs:43-49)
  accepts any `usize`.
- A shard's key list may be empty. `ShardInfo::new` (meta.rs:100-112) accepts any
  list.

The doc comment of `delete_failure` (meta.rs:173) says only that it deletes the
failure's info, not which of several equal entries goes. The model removes every
entry equal to the argument and keeps the other entries in order, so the entry is
no longer queued after the call.

`FailureMeta` does not derive `PartialEq` (meta.rs:181). The model uses
structural equality on the datatype as the matching that `delete_failure` needs.

## Model

| member | source | states |
|---|---|---|
| `Meta.NewShardInfo` | zstor/src/meta.rs:97-133 | each accessor (`index`, `checksum`, `key`, `zdb`) returns the argument given to `new`, and the checksum is exactly CHECKSUM_LENGTH = 16 bytes |
| `Meta.MetaData.constructor` | zstor/src/meta.rs:41-58 | data/parity counts, file checksum (a 16-byte `Checksum`), encryption and compression are stored as given; the shard list starts empty |
| `Meta.MetaData.AddShard` | zstor/src/meta.rs:60-64 | the new shard list is the old one with `si` appended: one longer, earlier entries unchanged, last entry `si`; no precondition on index or count; the other fields are constants, so they stay as they were |
| `Meta.AppendInEncodingOrder` | zstor/src/meta.rs:60-64 | appending keeps a shard list in encoding order (entry i has index i) if and only if the list was in order and the new shard's index equals the current length |
| `Meta.RecordUploads` | zstor/src/meta.rs:43-64 | after `new` and n calls to `add_shard` with indices 0..n-1, the list has length n, entry i has index i and the arguments given for upload i; the record's other fields are the constructor's; n is not bounded by data + parity shards |
| `Meta.NewFailureMeta` | zstor/src/meta.rs:188-211 | `data_path`, `key_dir_path` and `should_delete` return the arguments given to `new` |
| `Store.Without` | zstor/src/meta.rs:173-174 | the queue after deleting `fm` does not contain `fm` and contains exactly the entries of the old queue that differ from `fm`, and is no longer |
| `Store.WithoutAbsent` | zstor/src/meta.rs:173-174 | deleting an entry that is not queued leaves the queue unchanged |
| `Store.WithoutIdempotent` | zstor/src/meta.rs:173-174 | deleting the same entry twice is the same as deleting it once |
| `Store.WithoutCount` | zstor/src/meta.rs:173-174 | deleting drops every copy of `fm` and keeps every other entry with its multiplicity |
| `Store.WithoutConcat` | zstor/src/meta.rs:173-177 | deleting distributes over concatenation, so the remaining entries keep their order |
| `Store.WithoutUndoesAppend` | zstor/src/meta.rs:165-177 | deleting an entry just appended, when it was not queued before, restores the earlier queue |
| `Store.MetaStore.constructor` | zstor/src/meta.rs:136-142 | a new store has no metadata, no replaced backends and no failures, and uses the given path-to-key derivation |
| `Store.MetaStore.SaveMeta` | zstor/src/meta.rs:144-145 | the record under the key derived from `path` becomes the value of `meta`; other keys, replaced backends and failures unchanged |
| `Store.MetaStore.SaveMetaByKey` | zstor/src/meta.rs:147-148 | the record under `key` becomes the value of `meta`; everything else unchanged |
| `Store.MetaStore.LoadMeta` | zstor/src/meta.rs:150-151 | returns Some exactly when a record is stored under the key derived from `path`, and then that record; otherwise None |
| `Store.MetaStore.LoadMetaByKey` | zstor/src/meta.rs:153-154 | returns Some exactly when a record is stored under `key`, and then that record; otherwise None |
| `Store.MetaStore.SetReplaced` | zstor/src/meta.rs:156-157 | the replaced set gains `ci` (idempotent); metadata and failures unchanged |
| `Store.MetaStore.IsReplaced` | zstor/src/meta.rs:159-160 | true if and only if `ci` has been marked replaced |
| `Store.MetaStore.ObjectMetas` | zstor/src/meta.rs:162-163 | returns every stored (key, metadata) pair: each pair is stored, each key appears once, every stored key appears, and the length is the number of stored keys |
| `Store.MetaStore.SaveFailure` | zstor/src/meta.rs:165-171 | the failure queue gains `FailureMeta::new(data_path, key_dir_path, should_delete)` at its end; metadata and replaced set unchanged |
| `Store.MetaStore.DeleteFailure` | zstor/src/meta.rs:173-174 | the queue loses every entry equal to `fm` and keeps the rest in order; deleting an absent entry changes nothing and is no error |
| `Store.MetaStore.GetFailures` | zstor/src/meta.rs:176-177 | returns the queued failures, oldest first |
| `Store.SaveThenLoad` | zstor/src/meta.rs:144-154 | loading by key after saving by key, and by path after saving by path, returns the saved metadata |
| `Store.LastWriteWins` | zstor/src/meta.rs:144-151 | after two saves for the same path, a load returns the second |
| `Store.SaveIsSnapshot` | zstor/src/meta.rs:144-148 | a saved record is a copy: a shard added to the MetaData after saving is not in what a load returns |
| `Store.EncodeSaveLoad` | zstor/src/meta.rs:43-154 | shards recorded in order, saved and loaded back keep their count, order, indices and checksums, and the record keeps its counts and file checksum |
| `Store.ReplaceTwice` | zstor/src/meta.rs:156-160 | after `set_replaced(ci)` `is_replaced(ci)` is true, and marking twice leaves the same state as marking once |
| `Store.SaveThenDelete` | zstor/src/meta.rs:165-177 | for any queue, `get_failures` after `save_failure` lists the earlier entries followed by the new one; after `delete_failure` of that entry no copy of it is queued and the other entries keep their order |
| `Store.FailureRoundTrip` | zstor/src/meta.rs:165-177 | when the entry was not queued before, `get_failures` after `save_failure` lists it last after the earlier ones, and deleting it restores the earlier queue |

## Left out

- The asynchronous calls and the exclusive `&mut self` borrow of the interface (meta.rs:136-178). Each operation is one sequential method call.
- The store's associated error type (meta.rs:141) and every failure a real store can have: I/O, serialization, network. The reference store never fails, so results are plain values and not `Result<_, Error>`. "Absent" is still `None`, apart from any error.
- How a concrete store derives a key from a path. That code is not part of this model. The store takes the derivation as a function parameter (`pathKey`). So "load after save" is proved for any derivation, and records saved under two paths that map to the same key overwrite each other.
- The serde derives and the flattened `ci` field (meta.rs:4, 14, 32, 37, 181). The wire format comes from an external library, so the serialization round trip is not modelled. `MetaRecord` is the value that the format would carry.
- The internals of `Encryption`, `Compression`, `Key` and `ZdbConnectionInfo`. These are opaque types with equality.
- `Path`/`PathBuf` semantics. Paths are plain strings, with no normalisation.
- `Meta.MetaData.constructor`: the capacity reservation `Vec::with_capacity(data_shards + parity_shards)` (meta.rs:56) is not modelled. This includes the overflow panic on an enormous sum and allocation failure. The reservation changes no observable state.
- The erasure coding, encryption and compression algorithms. They are not in this file.
