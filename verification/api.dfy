/** The operation engine: the seven public operations over a disk of audio
    files, built from the backend primitives. Each operation opens the file,
    mutates the in-memory copy and (for writes) asks the backend to save it;
    the outcome of that save is a parameter, as are the files on disk. */
module Api {

  import opened Wrappers
  import opened Tags
  import opened Backend

  type Path = string

  /** The failures an operation reports: the path cannot be opened, the
      backend cannot interpret the container, or persisting failed. */
  datatype Error = NotFound | ParseError | SaveError

  /** What a path holds: a file the backend cannot interpret, or an audio
      file with its persisted tags and the number of saves made to it. */
  datatype Entry = Unparsable | Audio(file: File, saves: nat)

  /** The files that can be opened, by path. */
  type Disk = map<Path, Entry>

  /** The snapshot handed back to callers: the requested path echoed, and the
      tags in backend order. */
  datatype TaggyFile = TaggyFile(path: Path, tags: seq<Tag>)

  /** A tagged file read through a writable handle on `path`; `saves` is the
      persisted entry's save count when it was opened. */
  datatype Bound = Bound(path: Path, file: File, saves: nat)

  /** What an operation returns, the disk afterwards, and the tag types it
      reported as unsupported on the error stream (observation only). */
  datatype Effect<T> = Effect(result: Result<T, Error>, disk: Disk, warnings: seq<TagType>)

  /** `path` names an audio file the backend can parse. */
  predicate Opens(disk: Disk, path: Path) {
    path in disk && disk[path].Audio?
  }

  /** An operation on `path` leaves every other path as it was. */
  predicate OnlyTouches(before: Disk, after: Disk, path: Path) {
    && after.Keys == before.Keys
    && forall p :: p in before && p != path ==> after[p] == before[p]
  }

  /** A write keeps the container's format data: its primary type and the
      tag types it supports. */
  predicate SameFormat(before: Disk, after: Disk, path: Path)
    requires Opens(before, path) && Opens(after, path)
  {
    && after[path].file.primary == before[path].file.primary
    && after[path].file.supported == before[path].file.supported
  }

  /** The error opening `path` fails with, when it fails. */
  function OpenError(disk: Disk, path: Path): (e: Error)
    requires !Opens(disk, path)
    ensures e == NotFound <==> path !in disk
    ensures e != SaveError
  {
    if path in disk then ParseError else NotFound
  }

  /** `get_tagged_file`: probe and parse `path` for reading. */
  function GetTaggedFile(disk: Disk, path: Path): (r: Result<File, Error>)
    ensures r.Ok? <==> Opens(disk, path)
    ensures r.Ok? ==> r.value == disk[path].file
    ensures r.Err? ==> r.error == OpenError(disk, path)
  {
    if path !in disk then Err(NotFound)
    else match disk[path]
      case Unparsable => Err(ParseError)
      case Audio(f, _) => Ok(f)
  }

  /** `get_bound_tagged_file`: open `path` for reading and writing and parse
      it, keeping the handle for a later save. */
  function GetBoundTaggedFile(disk: Disk, path: Path): (r: Result<Bound, Error>)
    ensures r.Ok? <==> Opens(disk, path)
    ensures r.Ok? ==> r.value.path == path && Audio(r.value.file, r.value.saves) == disk[path]
    ensures r.Err? ==> r.error == OpenError(disk, path)
  {
    if path !in disk then Err(NotFound)
    else match disk[path]
      case Unparsable => Err(ParseError)
      case Audio(f, n) => Ok(Bound(path, f, n))
  }

  /** What the backend's save does: persist the tags, or fail and leave the
      path holding `left`, which may be the old entry, a partly written file
      or an unparsable one. */
  datatype SaveOutcome = SaveOk | SaveFailed(left: Entry)

  /** The save outcome and the disk afterwards. */
  datatype Saved = Saved(result: Result<(), Error>, disk: Disk)

  /** `save`: persist the in-memory tags of `b` to its path. A failed save
      reports `SaveError`; nothing is rolled back, and the path holds
      whatever the failure left there. */
  function Save(disk: Disk, b: Bound, save: SaveOutcome): (r: Saved)
    ensures r.result.Ok? <==> save.SaveOk?
    ensures r.result.Err? ==> r.result.error == SaveError
    ensures r.result.Ok? ==> Opens(r.disk, b.path) && r.disk[b.path] == Audio(b.file, b.saves + 1)
    ensures r.result.Err? ==> b.path in r.disk && r.disk[b.path] == save.left
    ensures r.disk.Keys == disk.Keys + {b.path}
    ensures forall p :: p in disk && p != b.path ==> r.disk[p] == disk[p]
  {
    match save
    case SaveOk => Saved(Ok(()), disk[b.path := Audio(b.file, b.saves + 1)])
    case SaveFailed(left) => Saved(Err(SaveError), disk[b.path := left])
  }

  /** `read_all`: every tag of the file, in discovery order. */
  function ReadAll(disk: Disk, path: Path): (r: Result<TaggyFile, Error>)
    ensures r.Ok? <==> Opens(disk, path)
    ensures r.Err? ==> r.error == OpenError(disk, path)
    ensures r.Ok? ==> r.value.path == path && r.value.tags == disk[path].file.tags
  {
    var f :- GetTaggedFile(disk, path);
    Ok(TaggyFile(path, f.tags))
  }

  /** `get_primary_tag_from_tagged_file`: the tag of the primary type, as a
      list of zero or one tags. */
  function PrimaryTags(f: File): (r: seq<Tag>)
    ensures |r| <= 1
    ensures forall i :: 0 <= i < |r| ==> r[i].tagType == f.primary && r[i] in f.tags
    ensures r == [] <==> forall i :: 0 <= i < |f.tags| ==> f.tags[i].tagType != f.primary
  {
    match Find(f.tags, f.primary)
    case None => []
    case Some(tag) => [tag]
  }

  /** `get_any_tag_from_tagged_file`: the first discovered tag, whatever its
      type, as a list of zero or one tags. */
  function AnyTags(f: File): (r: seq<Tag>)
    ensures |r| <= 1
    ensures r == [] <==> f.tags == []
    ensures forall i :: 0 <= i < |r| ==> r[i] in f.tags
  {
    if f.tags == [] then [] else [f.tags[0]]
  }

  /** `read_primary`: only the primary tag; no tags when it is absent. */
  function ReadPrimary(disk: Disk, path: Path): (r: Result<TaggyFile, Error>)
    ensures r.Ok? <==> Opens(disk, path)
    ensures r.Err? ==> r.error == OpenError(disk, path)
    ensures r.Ok? ==> r.value.path == path && r.value.tags == PrimaryTags(disk[path].file)
  {
    var f :- GetTaggedFile(disk, path);
    Ok(TaggyFile(path, PrimaryTags(f)))
  }

  /** `read_any`: only the first tag; no tags when the file has none. */
  function ReadAny(disk: Disk, path: Path): (r: Result<TaggyFile, Error>)
    ensures r.Ok? <==> Opens(disk, path)
    ensures r.Err? ==> r.error == OpenError(disk, path)
    ensures r.Ok? ==> r.value.path == path && r.value.tags == AnyTags(disk[path].file)
  {
    var f :- GetTaggedFile(disk, path);
    Ok(TaggyFile(path, AnyTags(f)))
  }

  /** The last tag of type `t` among `ts`: the one that wins when all of
      `ts` are inserted in order. */
  function LastOfType(ts: seq<Tag>, t: TagType): (r: Option<Tag>)
    ensures r.Some? ==> r.value in ts && r.value.tagType == t
    ensures r.None? <==> forall i :: 0 <= i < |ts| ==> ts[i].tagType != t
  {
    if ts == [] then None
    else if ts[|ts| - 1].tagType == t then Some(ts[|ts| - 1])
    else LastOfType(ts[..|ts| - 1], t)
  }

  /** The last tag of a type in a concatenation comes from the back part
      when it has one. */
  lemma {:induction false} LastOfTypeAppend(a: seq<Tag>, b: seq<Tag>, t: TagType)
    ensures LastOfType(a + b, t) == if LastOfType(b, t).Some? then LastOfType(b, t) else LastOfType(a, t)
  {
    if b == [] {
      assert a + b == a;
    } else {
      var ab := a + b;
      assert ab[|ab| - 1] == b[|b| - 1];
      assert ab[..|ab| - 1] == a + b[..|b| - 1];
      LastOfTypeAppend(a, b[..|b| - 1], t);
    }
  }

  /** The file after a batch of inserts and the types reported as unsupported. */
  datatype Batch = Batch(file: File, warnings: seq<TagType>)

  /** `insert_tags`: offer every tag to `insert_tag`, in order. A rejected
      tag only adds a warning; the loop always goes on. Afterwards each
      supported type holds the last input tag of that type, and every other
      type holds what it held before. */
  function InsertTags(f: File, ts: seq<Tag>): (r: Batch)
    ensures r.file.primary == f.primary && r.file.supported == f.supported
    ensures forall t :: Find(r.file.tags, t) ==
                (if t in f.supported && LastOfType(ts, t).Some? then LastOfType(ts, t) else Find(f.tags, t))
    ensures forall i :: 0 <= i < |ts| ==> (ts[i].tagType in r.warnings <==> ts[i].tagType !in f.supported)
    ensures forall k :: 0 <= k < |r.warnings| ==>
      r.warnings[k] !in f.supported && exists i :: 0 <= i < |ts| && ts[i].tagType == r.warnings[k]
    ensures |r.warnings| <= |ts|
    ensures r.warnings == Rejected(ts, f.supported)
    decreases |ts|
  {
    if ts == [] then Batch(f, [])
    else
      var ins := InsertTag(f, ts[0]);
      var rest := InsertTags(ins.file, ts[1..]);
      LastOfTypeCons(ts);
      var warnings := (if ins.accepted then [] else [ts[0].tagType]) + rest.warnings;
      RejectedCons(ts, f.supported);
      RejectedMembers(ts, f.supported);
      Batch(rest.file, warnings)
  }

  /** The types of the tags in `ts` that a container hosting `supported`
      rejects: one entry per rejected tag, in input order. */
  function Rejected(ts: seq<Tag>, supported: set<TagType>): (r: seq<TagType>)
    ensures |r| <= |ts|
    ensures forall k :: 0 <= k < |r| ==> r[k] !in supported
  {
    if ts == [] then []
    else
      var last := ts[|ts| - 1];
      Rejected(ts[..|ts| - 1], supported) + (if last.tagType in supported then [] else [last.tagType])
  }

  /** A type is reported exactly when some input tag of that type is
      rejected, and every report names such a tag. */
  lemma {:induction false} RejectedMembers(ts: seq<Tag>, supported: set<TagType>)
    ensures forall i :: 0 <= i < |ts| ==>
      (ts[i].tagType in Rejected(ts, supported) <==> ts[i].tagType !in supported)
    ensures forall k :: 0 <= k < |Rejected(ts, supported)| ==>
      exists i :: 0 <= i < |ts| && ts[i].tagType == Rejected(ts, supported)[k]
  {
    if ts != [] {
      var front := ts[..|ts| - 1];
      var last := ts[|ts| - 1];
      RejectedMembers(front, supported);
      var r := Rejected(ts, supported);
      var rf := Rejected(front, supported);
      assert r == rf + (if last.tagType in supported then [] else [last.tagType]);
      forall k | 0 <= k < |Rejected(ts, supported)|
        ensures exists i :: 0 <= i < |ts| && ts[i].tagType == Rejected(ts, supported)[k]
      {
        if k < |rf| {
          var i :| 0 <= i < |front| && front[i].tagType == rf[k];
          assert ts[i] == front[i];
          assert ts[i].tagType == r[k];
        } else {
          assert ts[|ts| - 1].tagType == r[k];
        }
      }
      forall i | 0 <= i < |ts|
        ensures ts[i].tagType in r <==> ts[i].tagType !in supported
      {
        if i < |front| {
          assert ts[i] == front[i];
        }
      }
    } else {
      assert Rejected(ts, supported) == [];
    }
  }

  /** `Rejected` seen from the front: the head's rejection comes first. */
  lemma RejectedCons(ts: seq<Tag>, supported: set<TagType>)
    requires ts != []
    ensures Rejected(ts, supported) ==
      (if ts[0].tagType in supported then [] else [ts[0].tagType]) + Rejected(ts[1..], supported)
  {
    assert ts == [ts[0]] + ts[1..];
    RejectedAppend([ts[0]], ts[1..], supported);
    assert [ts[0]][..0] == [];
  }

  /** The rejections of a concatenation are those of its parts, in order. */
  lemma {:induction false} RejectedAppend(a: seq<Tag>, b: seq<Tag>, supported: set<TagType>)
    ensures Rejected(a + b, supported) == Rejected(a, supported) + Rejected(b, supported)
  {
    if b == [] {
      assert a + b == a;
    } else {
      var ab := a + b;
      assert ab[|ab| - 1] == b[|b| - 1];
      assert ab[..|ab| - 1] == a + b[..|b| - 1];
      RejectedAppend(a, b[..|b| - 1], supported);
    }
  }

  /** `LastOfType` seen from the front: the tail's last tag of a type wins
      over the head. */
  lemma LastOfTypeCons(ts: seq<Tag>)
    requires ts != []
    ensures forall t :: LastOfType(ts, t) ==
                (if LastOfType(ts[1..], t).Some? then LastOfType(ts[1..], t)
                 else if ts[0].tagType == t then Some(ts[0]) else None)
  {
    assert ts == [ts[0]] + ts[1..];
    forall t
      ensures LastOfType(ts, t) ==
        (if LastOfType(ts[1..], t).Some? then LastOfType(ts[1..], t)
         else if ts[0].tagType == t then Some(ts[0]) else None)
    {
      LastOfTypeAppend([ts[0]], ts[1..], t);
    }
  }

  /** `write_all`: optionally clear, insert every given tag, then save; the
      snapshot is the in-memory file after the save. */
  function WriteAll(disk: Disk, path: Path, tags: seq<Tag>, overrideExistent: bool, save: SaveOutcome): (r: Effect<TaggyFile>)
    ensures !Opens(disk, path) ==> r == Effect(Err(OpenError(disk, path)), disk, [])
    ensures Opens(disk, path) ==> (r.result.Ok? <==> save.SaveOk?)
    ensures Opens(disk, path) && save.SaveFailed? && r.result.Err? ==>
      path in r.disk && r.disk[path] == save.left
    ensures OnlyTouches(disk, r.disk, path)
    ensures r.result.Ok? ==> Opens(r.disk, path) && SameFormat(disk, r.disk, path)
    ensures r.result.Ok? ==> r.disk[path].saves == disk[path].saves + 1
    ensures r.result.Ok? ==>
      (r.result.value.path == path && Opens(r.disk, path) && r.result.value.tags == r.disk[path].file.tags)
  {
    match GetBoundTaggedFile(disk, path)
    case Err(e) => Effect(Err(e), disk, [])
    case Ok(b) =>
      var start := if overrideExistent then Clear(b.file) else b.file;
      var batch := InsertTags(start, tags);
      var saved := Save(disk, b.(file := batch.file), save);
      var result := if saved.result.Ok? then Ok(TaggyFile(path, batch.file.tags)) else Err(saved.result.error);
      Effect(result, saved.disk, batch.warnings)
  }

  /** `write_primary`: optionally clear, then store `tag` retyped to the
      container's primary type, then save. */
  function WritePrimary(disk: Disk, path: Path, tag: Tag, keepOthers: bool, save: SaveOutcome): (r: Effect<TaggyFile>)
    ensures !Opens(disk, path) ==> r == Effect(Err(OpenError(disk, path)), disk, [])
    ensures Opens(disk, path) ==> (r.result.Ok? <==> save.SaveOk?)
    ensures Opens(disk, path) && save.SaveFailed? && r.result.Err? ==>
      path in r.disk && r.disk[path] == save.left
    ensures OnlyTouches(disk, r.disk, path)
    ensures r.result.Ok? ==> Opens(r.disk, path) && SameFormat(disk, r.disk, path)
    ensures r.result.Ok? ==> r.disk[path].saves == disk[path].saves + 1
    ensures r.warnings == []
    ensures r.result.Ok? ==>
      var primary := disk[path].file.primary;
      && r.result.value.path == path && Opens(r.disk, path)
      && r.result.value.tags == r.disk[path].file.tags
      && Find(r.result.value.tags, primary) == Some(Retype(tag, primary))
      && (!keepOthers ==> r.result.value.tags == [Retype(tag, primary)])
      && (keepOthers ==> forall u :: u != primary ==> Find(r.result.value.tags, u) == Find(disk[path].file.tags, u))
  {
    match GetBoundTaggedFile(disk, path)
    case Err(e) => Effect(Err(e), disk, [])
    case Ok(b) =>
      var start := if keepOthers then b.file else Clear(b.file);
      var updated := Retype(tag, start.primary);
      var ins := InsertTag(start, updated);
      assert !keepOthers ==> ins.file.tags == [updated] by {
        if !keepOthers {
          assert Find(ins.file.tags, updated.tagType) == Some(updated);
          SameLookupsSameTags(ins.file.tags, [updated]);
          OneTagList(ins.file.tags, updated);
        }
      }
      var saved := Save(disk, b.(file := ins.file), save);
      var result := if saved.result.Ok? then Ok(TaggyFile(path, ins.file.tags)) else Err(saved.result.error);
      Effect(result, saved.disk, [])
  }

  /** A list with distinct types whose only element is `x` is `[x]`. */
  lemma OneTagList(tags: seq<Tag>, x: Tag)
    requires DistinctTypes(tags)
    requires forall y :: y in tags <==> y in [x]
    ensures tags == [x]
  {
    assert x in [x];
    assert tags[0] in tags;
    assert forall i :: 0 <= i < |tags| ==> tags[i] == x by {
      forall i | 0 <= i < |tags|
        ensures tags[i] == x
      {
        assert tags[i] in tags;
      }
    }
    assert !(0 < 1 < |tags|) || tags[0].tagType != tags[1].tagType;
  }

  /** `insert_empty_tag`: store `Tag::new(t)`, overwriting the tag of type `t`. */
  function InsertEmptyTag(f: File, t: TagType): (r: File)
    ensures r.primary == f.primary && r.supported == f.supported
    ensures t in f.supported ==> Find(r.tags, t) == Some(NewTag(t))
    ensures forall u :: u != t ==> Find(r.tags, u) == Find(f.tags, u)
  {
    InsertTag(f, NewTag(t)).file
  }

  /** `remove_all`: clear every tag, store the empty tag of the primary type,
      then save. */
  function RemoveAll(disk: Disk, path: Path, save: SaveOutcome): (r: Effect<()>)
    ensures !Opens(disk, path) ==> r == Effect(Err(OpenError(disk, path)), disk, [])
    ensures Opens(disk, path) ==> (r.result.Ok? <==> save.SaveOk?)
    ensures Opens(disk, path) && save.SaveFailed? && r.result.Err? ==>
      path in r.disk && r.disk[path] == save.left
    ensures OnlyTouches(disk, r.disk, path)
    ensures r.result.Ok? ==> Opens(r.disk, path) && SameFormat(disk, r.disk, path)
    ensures r.warnings == []
    ensures r.result.Ok? ==>
      && Opens(r.disk, path)
      && r.disk[path].file.tags == [NewTag(disk[path].file.primary)]
      && r.disk[path].saves == disk[path].saves + 1
  {
    match GetBoundTaggedFile(disk, path)
    case Err(e) => Effect(Err(e), disk, [])
    case Ok(b) =>
      var cleared := Clear(b.file);
      var emptied := InsertEmptyTag(cleared, cleared.primary);
      assert emptied.tags == [NewTag(cleared.primary)] by {
        SameLookupsSameTags(emptied.tags, [NewTag(cleared.primary)]);
        OneTagList(emptied.tags, NewTag(cleared.primary));
      }
      var saved := Save(disk, b.(file := emptied), save);
      Effect(saved.result, saved.disk, [])
  }

  /** `remove_tag`: when no tag of `tag.tagType` exists, succeed at once
      without saving; otherwise overwrite it with the empty tag of that type
      and save. */
  function RemoveTag(disk: Disk, path: Path, tag: Tag, save: SaveOutcome): (r: Effect<()>)
    ensures !Opens(disk, path) ==> r == Effect(Err(OpenError(disk, path)), disk, [])
    ensures Opens(disk, path) && save.SaveFailed? && r.result.Err? ==>
      path in r.disk && r.disk[path] == save.left
    ensures OnlyTouches(disk, r.disk, path)
    ensures r.result.Ok? ==> Opens(r.disk, path) && SameFormat(disk, r.disk, path)
    ensures r.warnings == []
    ensures Opens(disk, path) && Find(disk[path].file.tags, tag.tagType).None? ==>
      r == Effect(Ok(()), disk, [])
    ensures Opens(disk, path) && Find(disk[path].file.tags, tag.tagType).Some? ==>
      && (r.result.Ok? <==> save.SaveOk?)
      && (r.result.Ok? ==>
            && Opens(r.disk, path)
            && r.disk[path].saves == disk[path].saves + 1
            && Find(r.disk[path].file.tags, tag.tagType) == Some(NewTag(tag.tagType))
            && forall u :: u != tag.tagType ==> Find(r.disk[path].file.tags, u) == Find(disk[path].file.tags, u))
  {
    match GetBoundTaggedFile(disk, path)
    case Err(e) => Effect(Err(e), disk, [])
    case Ok(b) =>
      var rm := Remove(b.file, tag.tagType);
      if rm.removed.None? then
        Effect(Ok(()), disk, [])
      else
        PresentIsSupported(b.file, tag.tagType);
        var emptied := InsertEmptyTag(rm.file, tag.tagType);
        var saved := Save(disk, b.(file := emptied), save);
        Effect(saved.result, saved.disk, [])
  }
}
