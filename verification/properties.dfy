/** Properties that relate several operations, or an operation to a later
    read of the same file. */
module ApiProperties {

  import opened Wrappers
  import opened Tags
  import opened Backend
  import opened Api

  /** A path that cannot be opened fails every operation with the same open
      error, and no operation changes the disk. */
  lemma UnopenablePathFailsEverywhere(disk: Disk, path: Path, tags: seq<Tag>, tag: Tag, flag: bool, save: SaveOutcome)
    requires !Opens(disk, path)
    ensures var e := OpenError(disk, path);
      && (path !in disk ==> e == NotFound)
      && ReadAll(disk, path) == Err(e)
      && ReadPrimary(disk, path) == Err(e)
      && ReadAny(disk, path) == Err(e)
      && WriteAll(disk, path, tags, flag, save) == Effect(Err(e), disk, [])
      && WritePrimary(disk, path, tag, flag, save) == Effect(Err(e), disk, [])
      && RemoveAll(disk, path, save) == Effect(Err(e), disk, [])
      && RemoveTag(disk, path, tag, save) == Effect(Err(e), disk, [])
  {
  }

  /** A file without tags reads back as an empty tag list, not as an error,
      through all three reads. */
  lemma UntaggedFileReadsEmpty(disk: Disk, path: Path)
    requires Opens(disk, path) && disk[path].file.tags == []
    ensures ReadAll(disk, path) == Ok(TaggyFile(path, []))
    ensures ReadPrimary(disk, path) == Ok(TaggyFile(path, []))
    ensures ReadAny(disk, path) == Ok(TaggyFile(path, []))
  {
  }

  /** `read_primary` returns exactly the tags of `read_all` that have the
      primary type: at most one, and none when the primary tag is absent. */
  lemma ReadPrimaryFiltersReadAll(disk: Disk, path: Path)
    requires Opens(disk, path)
    ensures var all := ReadAll(disk, path).value.tags;
      var primary := ReadPrimary(disk, path).value.tags;
      && |primary| <= 1
      && (forall x :: x in primary <==> x in all && x.tagType == disk[path].file.primary)
  {
    var f := disk[path].file;
    forall x | x in f.tags && x.tagType == f.primary
      ensures x in PrimaryTags(f)
    {
      var i :| 0 <= i < |f.tags| && f.tags[i] == x;
      FindDistinct(f.tags, i);
    }
  }

  /** `read_any` returns the head of what `read_all` returns. */
  lemma ReadAnyIsHeadOfReadAll(disk: Disk, path: Path)
    requires Opens(disk, path)
    ensures var all := ReadAll(disk, path).value.tags;
      ReadAny(disk, path).value.tags == if all == [] then [] else all[..1]
  {
  }

  /** With `override_existent`, the file afterwards holds for each supported
      type the last input tag of that type and nothing else: every tag that
      was there before and was not supplied again is gone. */
  lemma WriteAllOverrides(disk: Disk, path: Path, tags: seq<Tag>)
    requires Opens(disk, path)
    ensures var r := WriteAll(disk, path, tags, true, SaveOk);
      var f := disk[path].file;
      && r.result.Ok?
      && (forall t :: Find(r.disk[path].file.tags, t) == (if t in f.supported then LastOfType(tags, t) else None))
      && (forall x :: x in r.disk[path].file.tags ==> x in tags && x.tagType in f.supported)
  {
    var r := WriteAll(disk, path, tags, true, SaveOk);
    var after := r.disk[path].file;
    forall x | x in after.tags
      ensures x in tags && x.tagType in disk[path].file.supported
    {
      var i :| 0 <= i < |after.tags| && after.tags[i] == x;
      FindDistinct(after.tags, i);
    }
  }

  /** Without `override_existent`, each type the input does not mention keeps
      its tag unchanged, and each supported type it mentions takes the last
      input tag of that type. */
  lemma WriteAllMerges(disk: Disk, path: Path, tags: seq<Tag>)
    requires Opens(disk, path)
    ensures var r := WriteAll(disk, path, tags, false, SaveOk);
      var f := disk[path].file;
      && r.result.Ok?
      && (forall t :: LastOfType(tags, t).None? ==> Find(r.disk[path].file.tags, t) == Find(f.tags, t))
      && (forall t :: t in f.supported && LastOfType(tags, t).Some? ==> Find(r.disk[path].file.tags, t) == LastOfType(tags, t))
      && (forall x :: x in f.tags && LastOfType(tags, x.tagType).None? ==> x in r.disk[path].file.tags)
  {
    var r := WriteAll(disk, path, tags, false, SaveOk);
    var f := disk[path].file;
    forall x | x in f.tags && LastOfType(tags, x.tagType).None?
      ensures x in r.disk[path].file.tags
    {
      var i :| 0 <= i < |f.tags| && f.tags[i] == x;
      FindDistinct(f.tags, i);
    }
  }

  /** A rejected insert never aborts `write_all`: every input tag of a
      supported type is stored, the rejected ones are exactly the reported
      warnings, and the save is attempted regardless. */
  lemma WriteAllNeverAborts(disk: Disk, path: Path, tags: seq<Tag>, overrideExistent: bool, save: SaveOutcome)
    requires Opens(disk, path)
    ensures var r := WriteAll(disk, path, tags, overrideExistent, save);
      var f := disk[path].file;
      && (r.result.Ok? <==> save.SaveOk?)
      && (forall i :: 0 <= i < |tags| ==> (tags[i].tagType in r.warnings <==> tags[i].tagType !in f.supported))
      && (forall k :: 0 <= k < |r.warnings| ==> r.warnings[k] !in f.supported)
      && r.warnings == Rejected(tags, f.supported)
      && (save.SaveOk? ==> r.disk[path].saves == disk[path].saves + 1)
      && (save.SaveOk? ==> forall i :: 0 <= i < |tags| && tags[i].tagType in f.supported ==>
                       Find(r.disk[path].file.tags, tags[i].tagType).Some?)
  {
    var r := WriteAll(disk, path, tags, overrideExistent, save);
    if save.SaveOk? {
      forall i | 0 <= i < |tags| && tags[i].tagType in disk[path].file.supported
        ensures Find(r.disk[path].file.tags, tags[i].tagType).Some?
      {
        assert LastOfType(tags, tags[i].tagType).Some?;
      }
    }
  }

  /** What `write_all` hands back is what a later `read_all` reads. */
  lemma WriteAllSnapshotIsPersisted(disk: Disk, path: Path, tags: seq<Tag>, overrideExistent: bool)
    requires Opens(disk, path)
    ensures var r := WriteAll(disk, path, tags, overrideExistent, SaveOk);
      r.result.Ok? && ReadAll(r.disk, path) == r.result
  {
  }

  /** Reading the primary tag after `write_primary` yields the caller's tag
      with its type forced to the primary type, whatever type it came with. */
  lemma WritePrimaryReadBack(disk: Disk, path: Path, tag: Tag, keepOthers: bool)
    requires Opens(disk, path)
    ensures var r := WritePrimary(disk, path, tag, keepOthers, SaveOk);
      var primary := disk[path].file.primary;
      && r.result.Ok?
      && ReadPrimary(r.disk, path) == Ok(TaggyFile(path, [Retype(tag, primary)]))
  {
  }

  /** A tag already of the primary type reads back unchanged after
      `write_primary`, pictures included. */
  lemma WritePrimaryOwnTypeRoundTrip(disk: Disk, path: Path, tag: Tag, keepOthers: bool)
    requires Opens(disk, path) && tag.tagType == disk[path].file.primary
    ensures var r := WritePrimary(disk, path, tag, keepOthers, SaveOk);
      ReadPrimary(r.disk, path) == Ok(TaggyFile(path, [tag]))
  {
    WritePrimaryReadBack(disk, path, tag, keepOthers);
    RetypeProperties(tag, tag.tagType, tag.tagType);
  }

  /** An MP3-like container whose primary type is ID3v2 and which holds no
      tags: writing a primary tag titled "X" under the directive
      `FilePrimaryType` reads back as an ID3v2 tag with that title and
      nothing else. */
  lemma WritePrimaryTitleExample()
    ensures var f: File := TaggedFile([], Id3v2, {Id3v1, Id3v2, Ape});
      var disk: Disk := map["song.mp3" := Audio(f, 0)];
      var r := WritePrimary(disk, "song.mp3", Tag(FilePrimaryType, map[Title := "X"], []), false, SaveOk);
      ReadPrimary(r.disk, "song.mp3") == Ok(TaggyFile("song.mp3", [Tag(Id3v2, map[Title := "X"], [])]))
  {
  }

  /** With `keep_others` false, the retyped tag is all the file holds afterwards. */
  lemma WritePrimaryAlone(disk: Disk, path: Path, tag: Tag)
    requires Opens(disk, path)
    ensures var r := WritePrimary(disk, path, tag, false, SaveOk);
      ReadAll(r.disk, path) == Ok(TaggyFile(path, [Retype(tag, disk[path].file.primary)]))
  {
  }

  /** `remove_tag` for a type the file does not hold succeeds, saves nothing
      and leaves the disk exactly as it was, whatever the save would have done. */
  lemma RemoveTagAbsentIsNoOp(disk: Disk, path: Path, tag: Tag, save: SaveOutcome)
    requires Opens(disk, path)
    requires forall i :: 0 <= i < |disk[path].file.tags| ==> disk[path].file.tags[i].tagType != tag.tagType
    ensures RemoveTag(disk, path, tag, save) == Effect(Ok(()), disk, [])
  {
  }

  /** After `remove_tag` of a type that was present, reading that type back
      yields the empty tag: none of the removed tag's fields or pictures
      survive, and every other tag is as it was. */
  lemma RemoveTagLeavesEmptyTag(disk: Disk, path: Path, tag: Tag)
    requires Opens(disk, path) && Find(disk[path].file.tags, tag.tagType).Some?
    ensures var r := RemoveTag(disk, path, tag, SaveOk);
      var after := ReadAll(r.disk, path);
      && r.result.Ok?
      && after.Ok?
      && Find(after.value.tags, tag.tagType) == Some(NewTag(tag.tagType))
      && (forall x :: x in after.value.tags && x.tagType == tag.tagType ==> IsEmpty(x))
      && (forall x :: x in disk[path].file.tags && x.tagType != tag.tagType ==> x in after.value.tags)
  {
    var r := RemoveTag(disk, path, tag, SaveOk);
    var before := disk[path].file.tags;
    var after := r.disk[path].file.tags;
    forall x | x in after && x.tagType == tag.tagType
      ensures IsEmpty(x)
    {
      var i :| 0 <= i < |after| && after[i] == x;
      FindDistinct(after, i);
    }
    forall x | x in before && x.tagType != tag.tagType
      ensures x in after
    {
      var i :| 0 <= i < |before| && before[i] == x;
      FindDistinct(before, i);
    }
  }

  /** A second `remove_tag` of the same type is not a no-op: the empty tag
      left by the first one is found, so the file is saved again, with the
      same tags. */
  lemma RemoveTagTwiceSavesAgain(disk: Disk, path: Path, tag: Tag)
    requires Opens(disk, path) && Find(disk[path].file.tags, tag.tagType).Some?
    ensures var once := RemoveTag(disk, path, tag, SaveOk);
      var twice := RemoveTag(once.disk, path, tag, SaveOk);
      && twice.result.Ok?
      && twice.disk[path].saves == disk[path].saves + 2
      && (forall t :: Find(twice.disk[path].file.tags, t) == Find(once.disk[path].file.tags, t))
  {
  }

  /** After `remove_all` the file holds exactly the empty tag of its primary
      type, which is also what `read_primary` returns. */
  lemma RemoveAllLeavesEmptyPrimary(disk: Disk, path: Path)
    requires Opens(disk, path)
    ensures var r := RemoveAll(disk, path, SaveOk);
      var primary := disk[path].file.primary;
      && r.result.Ok?
      && ReadAll(r.disk, path) == Ok(TaggyFile(path, [NewTag(primary)]))
      && ReadPrimary(r.disk, path) == Ok(TaggyFile(path, [NewTag(primary)]))
  {
  }

  /** A failed save surfaces as `SaveError` from every write that saves.
      Nothing is rolled back: the path holds whatever the failed save left
      there, and every other path is untouched. Only `remove_tag` on an absent
      type, which never saves, succeeds regardless. */
  lemma SaveFailureIsReported(disk: Disk, path: Path, tags: seq<Tag>, tag: Tag, flag: bool, left: Entry)
    requires Opens(disk, path)
    ensures var r := WriteAll(disk, path, tags, flag, SaveFailed(left));
      r.result == Err(SaveError) && OnlyTouches(disk, r.disk, path) && r.disk[path] == left
    ensures var r := WritePrimary(disk, path, tag, flag, SaveFailed(left));
      r.result == Err(SaveError) && OnlyTouches(disk, r.disk, path) && r.disk[path] == left
    ensures var r := RemoveAll(disk, path, SaveFailed(left));
      r.result == Err(SaveError) && OnlyTouches(disk, r.disk, path) && r.disk[path] == left
    ensures Find(disk[path].file.tags, tag.tagType).Some? ==>
      var r := RemoveTag(disk, path, tag, SaveFailed(left));
      r.result == Err(SaveError) && OnlyTouches(disk, r.disk, path) && r.disk[path] == left
  {
  }

  /** Writing the empty primary tag alone through `write_primary` leaves the
      same disk as `remove_all`. A save that depends only on the in-memory
      tags persists both the same way, so it cannot make the empty primary
      tag read back present after the former and absent after the latter. */
  lemma EmptyPrimaryWriteIsRemoveAll(disk: Disk, path: Path)
    requires Opens(disk, path)
    ensures WritePrimary(disk, path, NewTag(disk[path].file.primary), false, SaveOk).disk
         == RemoveAll(disk, path, SaveOk).disk
  {
  }

  /** On a file holding nothing but its primary tag, `remove_tag` of that
      tag leaves the same disk as writing the empty primary tag alone through
      `write_primary`. On such a file a save that depends only on the
      in-memory tags cannot make the emptied primary tag read back absent
      after the former and present after the latter. */
  lemma RemoveLonePrimaryIsEmptyPrimaryWrite(disk: Disk, path: Path, tag: Tag)
    requires Opens(disk, path)
    requires disk[path].file.tags == [tag] && tag.tagType == disk[path].file.primary
    ensures RemoveTag(disk, path, tag, SaveOk).disk
         == WritePrimary(disk, path, NewTag(tag.tagType), false, SaveOk).disk
  {
    var f := disk[path].file;
    var removed := RemoveTag(disk, path, tag, SaveOk).disk[path].file;
    var written := WritePrimary(disk, path, NewTag(tag.tagType), false, SaveOk).disk[path].file;
    forall u
      ensures Find(removed.tags, u) == Find([NewTag(tag.tagType)], u)
    {
      if u != tag.tagType {
        assert Find(f.tags, u) == None;
      }
    }
    SameLookupsSameTags(removed.tags, [NewTag(tag.tagType)]);
    OneTagList(removed.tags, NewTag(tag.tagType));
    assert removed == written;
  }
}
