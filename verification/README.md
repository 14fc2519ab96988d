# taggy operation engine — a Dafny model

This project models the operation engine of taggy's native layer
(`packages/taggy/native/src/api.rs`). The engine is the policy layer between
callers and the tag backend (lofty). It has seven public operations:
`read_all`, `read_primary`, `read_any`, `write_all`, `write_primary`,
`remove_all` and `remove_tag`. They are built on the backend primitives
`clear`, `insert_tag`, `remove` and `save`.

The model is functional:

- **Tags** (`tags.dfy`). A `Tag` is a `TagType` plus an opaque payload: a
  map of enumerated text fields and a sequence of `Picture`s. `NewTag` is
  `Tag::new`, the empty tag of a type. `Retype` is the struct update that
  `write_primary` uses to force the primary type.
- **Backend** (`backend.dfy`). A `TaggedFile` is lofty's parsed container:
  its tags in discovery order, its primary tag type and the set of types it
  supports. The subset type `File` carries what the backend guarantees: at
  most one tag per type, only supported types, a supported primary type, and
  the directive `FilePrimaryType` never a supported format. `Clear`,
  `InsertTag` and `Remove` are the primitives, each stated by its contract.
- **Api** (`api.dfy`). A `Disk` maps every openable path to either an
  unparsable file or an audio file with its persisted tags and a save
  counter. Each operation returns an `Effect`, which holds:
  - the `Result` (an `Error` is `NotFound`, `ParseError` or `SaveError`);
  - the disk afterwards;
  - the tag types reported as unsupported, an observation that changes no
    state.

  What the backend's save does is a parameter (`SaveOutcome`). It either
  persists the tags, or fails and leaves the path holding some entry the
  caller chooses; nothing is rolled back.
- **ApiProperties** (`properties.dfy`). Lemmas relating several operations,
  or an operation to a later read.

## Model

| member | source | states |
|---|---|---|
| Tags.NewTag | packages/taggy/native/src/api.rs:166-169 | `Tag::new(t)` has type `t` and an empty payload |
| Tags.NewTagIsTheEmptyTag | packages/taggy/native/src/api.rs:162-169 | a tag has an empty payload exactly when it equals the empty tag of its own type |
| Tags.Retype | packages/taggy/native/src/api.rs:118-122 | the retyped tag has the new type, and every other field equals the caller's tag |
| Tags.RetypeProperties | packages/taggy/native/src/api.rs:104-105 | retyping to a tag's own type is the identity; retyping twice keeps the last type; a retype changes the tag exactly when the types differ |
| Backend.Clear | packages/taggy/native/src/api.rs:72-74 | `clear` leaves no tags and keeps the container's primary and supported types |
| Backend.InsertTag | packages/taggy/native/src/api.rs:88-98 | `insert_tag` is accepted exactly when the type is supported; an accepted tag becomes the one tag of its type and every other type's tag is unchanged; a rejected tag leaves the file unchanged |
| Backend.RemoveUndoesInsert | packages/taggy/native/src/api.rs:153 | removing a type just inserted hands back the inserted tag and leaves the same lookups as removing that type from the original file |
| Backend.InsertAfterRemove | packages/taggy/native/src/api.rs:153-168 | inserting a tag after removing its type gives the same acceptance and the same lookups as inserting it directly, which is the step `remove_tag` takes before `insert_empty_tag` |
| Backend.Remove | packages/taggy/native/src/api.rs:153-157 | `remove(t)` returns the tag of type `t` if one exists; afterwards no tag of type `t` remains and other types are unchanged; when nothing was removed the file is unchanged |
| Api.GetTaggedFile | packages/taggy/native/src/api.rs:48-56 | opening succeeds exactly for a parsable audio file; a missing path is `NotFound`, an unparsable file is `ParseError` |
| Api.GetBoundTaggedFile | packages/taggy/native/src/api.rs:173-184 | the same error paths for the read-write handle; on success the handle holds the persisted tags and save count of `path` |
| Api.Save | packages/taggy/native/src/api.rs:82-85 | a save succeeds exactly when the backend's save does; success persists the in-memory tags and counts one more save; failure is `SaveError`, the path holds whatever the failed save left, and other paths are untouched |
| Api.ReadAll | packages/taggy/native/src/api.rs:9-12 | success exactly for an openable file, with the path echoed and every tag in discovery order; otherwise the open error |
| Api.PrimaryTags | packages/taggy/native/src/api.rs:25 | at most one tag, of the primary type and taken from the file; empty exactly when no tag has the primary type |
| Api.AnyTags | packages/taggy/native/src/api.rs:41 | at most one tag, taken from the file; empty exactly when the file has no tags |
| Api.ReadPrimary | packages/taggy/native/src/api.rs:14-28 | success exactly for an openable file; the tag list is the primary tag or nothing |
| Api.ReadAny | packages/taggy/native/src/api.rs:30-44 | success exactly for an openable file; the tag list is one discovered tag, or empty when the file has none |
| Api.InsertTags | packages/taggy/native/src/api.rs:88-98 | after offering every tag in order, each supported type holds the last input tag of that type and every other type is unchanged; the warnings are one entry per rejected input tag, in input order |
| Api.RejectedMembers | packages/taggy/native/src/api.rs:88-98 | a type is among the warnings exactly when some input tag of that type is not supported by the container, and every warning names such an input tag |
| Api.WriteAll | packages/taggy/native/src/api.rs:58-86 | an unopenable path fails with its open error and changes nothing; otherwise the result is success exactly when the save succeeds; the snapshot returned is what was persisted; other paths and the format are untouched |
| Api.WritePrimary | packages/taggy/native/src/api.rs:100-129 | on success the primary type holds the caller's tag retyped to the primary type; with `keep_others` false it is the only tag; with `keep_others` true other types are unchanged; the file was saved once more |
| Api.InsertEmptyTag | packages/taggy/native/src/api.rs:162-169 | for a supported type, the type afterwards holds the empty tag; other types are unchanged |
| Api.RemoveAll | packages/taggy/native/src/api.rs:131-143 | on success the file holds exactly the empty tag of the primary type and was saved once more; a failed save is an error |
| Api.RemoveTag | packages/taggy/native/src/api.rs:145-160 | an absent type returns success with the disk untouched and no save; a present type is replaced by its empty tag, other types are unchanged, and the file is saved |
| ApiProperties.UnopenablePathFailsEverywhere | packages/taggy/native/src/api.rs:196-218 | for a path that cannot be opened, all seven operations return the open error (`NotFound` for a missing path) and leave the disk unchanged |
| ApiProperties.UntaggedFileReadsEmpty | packages/taggy/native/src/api.rs:208-212 | a file without tags reads as an empty tag list through all three reads |
| ApiProperties.ReadPrimaryFiltersReadAll | packages/taggy/native/src/api.rs:14-28 | `read_primary` returns exactly the `read_all` tags of the primary type, at most one |
| ApiProperties.ReadAnyIsHeadOfReadAll | packages/taggy/native/src/api.rs:30-44 | `read_any` returns the first element of what `read_all` returns, or nothing |
| ApiProperties.WriteAllOverrides | packages/taggy/native/src/api.rs:58-74 | with `override_existent`, each supported type holds the last input tag of that type, and no tag survives unless it was supplied |
| ApiProperties.WriteAllMerges | packages/taggy/native/src/api.rs:58-61 | without `override_existent`, pre-existing tags of types not in the input are preserved, and supplied supported types take the last input tag |
| ApiProperties.WriteAllNeverAborts | packages/taggy/native/src/api.rs:80-98 | the warnings are one entry per rejected input tag, in input order (a type is reported exactly when an input tag of it is rejected); every supported input type is stored; the save is attempted and decides the result |
| ApiProperties.WriteAllSnapshotIsPersisted | packages/taggy/native/src/api.rs:82-83 | the snapshot `write_all` returns is what a later `read_all` reads |
| ApiProperties.WritePrimaryReadBack | packages/taggy/native/src/api.rs:221-244 | reading the primary tag after `write_primary` yields the caller's tag retyped to the primary type, with fields and pictures kept |
| ApiProperties.WritePrimaryOwnTypeRoundTrip | packages/taggy/native/src/api.rs:221-229 | a tag already of the primary type reads back unchanged, pictures included |
| ApiProperties.WritePrimaryTitleExample | packages/taggy/native/src/api.rs:116-125 | a tag titled "X" written under `FilePrimaryType` to an untagged container with primary type ID3v2 reads back as an ID3v2 tag with that title and nothing else |
| ApiProperties.RemoveLonePrimaryIsEmptyPrimaryWrite | packages/taggy/native/src/api.rs:151-160 | on a file holding only its primary tag, `remove_tag` of that tag leaves exactly the disk that `write_primary` of the empty primary tag with `keep_others` false leaves |
| ApiProperties.WritePrimaryAlone | packages/taggy/native/src/api.rs:112-114 | with `keep_others` false, the retyped tag is all `read_all` returns afterwards |
| ApiProperties.RemoveTagAbsentIsNoOp | packages/taggy/native/src/api.rs:147-157 | `remove_tag` of a type the file lacks succeeds and leaves the disk, save count included, exactly as it was, whether or not a save would succeed |
| ApiProperties.RemoveTagLeavesEmptyTag | packages/taggy/native/src/api.rs:153-169 | after `remove_tag` of a present type, that type reads back as an empty tag with none of the old payload, and every other tag survives |
| ApiProperties.RemoveTagTwiceSavesAgain | packages/taggy/native/src/api.rs:153-159 | a second `remove_tag` of the same type finds the empty tag, so it saves again and leaves the same tags |
| ApiProperties.RemoveAllLeavesEmptyPrimary | packages/taggy/native/src/api.rs:135-143 | after `remove_all`, both `read_all` and `read_primary` return exactly the empty tag of the primary type |
| ApiProperties.SaveFailureIsReported | packages/taggy/native/src/api.rs:82-85 | a failed save makes every write that saves return `SaveError`; the path holds what the failure left and every other path is untouched |
| ApiProperties.EmptyPrimaryWriteIsRemoveAll | packages/taggy/native/src/api.rs:221-229 | `write_primary` of the empty primary tag with `keep_others` false leaves exactly the disk that `remove_all` leaves |

## Left out

- Probing, parsing and byte-level encoding (`Probe::open`, `BoundTaggedFile::read_from`, the real `save`) belong to the lofty backend. They are modelled only through the contracts of `Clear`, `InsertTag`, `Remove` and `Save`.
- Filesystem access is reduced to "the path is a key of the disk". Read-only versus read-write permission is not modelled: the source opens reads with `Probe::open` and writes with read-write `OpenOptions` (api.rs:48-49, 174-178), so a read-only file that every read accepts fails every write. The model has no such file. Nor is the difference between an I/O error from `OpenOptions::open` and a missing file: both are `NotFound`.
- The conversions `to_lofty`, `TagType::from`/`into`, `taggy_from_tagged`, `taggy_from_bound_tagged` and the two tag-selection helpers are identity maps or direct selections. `utils/lofty_froms` is not part of this model.
- How `FilePrimaryType` converts to a lofty tag type is not part of this model (`tag.rs` is not part of it either). The model treats it as a type no container supports, so `write_all` reports it and `remove_tag` finds nothing for it.
- Api.AnyTags: the source documents `read_any` only as returning "any audio tag" (api.rs:30-36), and its helper is outside this model. Taking the first discovered tag is the model's own choice, and `ApiProperties.ReadAnyIsHeadOfReadAll` rests on it.
- Backend.InsertTag: lofty's contract for the return value of `insert_tag` is outside this model. The model reads a `None` at api.rs:90 as "unsupported", as the code does. The warning is kept only as an observation.
- Backend.InsertTag: lofty's contract for where a replacing tag goes is outside this model. The model removes the old tag of that type and appends the new one. The contracts speak of lookups by type, not positions.
- Api.Save: what a failed save leaves on disk is an arbitrary entry given by the caller, because lofty's contract for a failed save is outside this model. The contracts therefore promise nothing about the failed path beyond "it holds that entry".
- Api.RemoveTag: save copies the in-memory tags, so a removed type reads back as the empty tag `Tag::new(t)`. The test at api.rs:263-278 expects no primary tag at all afterwards. That depends on how lofty persists an empty tag, which is outside this model.
- ApiProperties.RemoveTagLeavesEmptyTag: proves that the removed type reads back as `Tag::new(t)`. The test at api.rs:263-278 expects it to read back absent. The model does not promise absence.
- ApiProperties.RemoveTagTwiceSavesAgain: relies on the empty tag surviving the first save. If the backend dropped empty tags on save, the second `remove_tag` would find nothing and not save.
- ApiProperties.RemoveAllLeavesEmptyPrimary: proves that the primary type reads back as `Tag::new(primary)`, not absent. The model does not promise full removal in the sense of an absent tag.
- The choice of a copying save: `ApiProperties.EmptyPrimaryWriteIsRemoveAll` shows that writing the empty primary tag alone and `remove_all` leave the same disk. The test at api.rs:221-229 expects that empty primary tag to read back present, while full removal by `remove_all` would need it to read back absent; no save that depends only on the in-memory tags gives both. `ApiProperties.RemoveLonePrimaryIsEmptyPrimaryWrite` shows the same conflict between the tests at api.rs:221-229 and api.rs:263-278, but only when the file holds nothing but its primary tag. On a file with other tags, `remove_tag` keeps them, so the two tests hand the save different in-memory states. A save that keeps a lone empty tag but drops an empty tag that has other tags beside it would pass both. The copying save satisfies the test at api.rs:221-229.
- The `TagType` variants and the enumerated `Field` keys follow lofty's tag formats and the unified field set. `tag.rs` and `picture.rs` are not part of this model. Numeric fields such as the year and track numbers are kept as text in the opaque payload.
- Audio properties, the container file type in `TaggyFile`, `eprintln!` texts and `anyhow` message strings carry no behaviour worth stating.
- `Tag::builder`, `TaggyFile::primary_tag` and `TaggyFile::first_tag` live in files that are not part of this model. The lemmas state the same facts through `Find` on the tag list.
- The non-empty `pic_data` invariant for persisted pictures is not enforced by api.rs and is not modelled.
- Test helpers (`duplicate_file`, `get_pic_from_asset`, sample paths) and the host-runtime binding glue are out of scope.
