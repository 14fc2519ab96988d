/** The tag backend as abstract primitives: lofty's in-memory tagged file,
    holding at most one tag per tag type, and the operations the engine calls
    on it (`clear`, `insert_tag`, `remove`). Probing, parsing and encoding are
    not modelled; only these contracts are. */
module Backend {

  import opened Wrappers
  import opened Tags

  /** A parsed container: its tags in discovery order, the tag type the
      container prefers, and the tag types it can host at all. */
  datatype TaggedFile = TaggedFile(tags: seq<Tag>, primary: TagType, supported: set<TagType>)

  /** No two tags share a tag type. */
  predicate DistinctTypes(tags: seq<Tag>) {
    forall i, j :: 0 <= i < j < |tags| ==> tags[i].tagType != tags[j].tagType
  }

  /** What the backend guarantees of every tagged file it hands out: one tag
      per type, only supported types, a supported primary type, and the
      write-time directive `FilePrimaryType` never a real format. */
  predicate Valid(f: TaggedFile) {
    && DistinctTypes(f.tags)
    && (forall i :: 0 <= i < |f.tags| ==> f.tags[i].tagType in f.supported)
    && f.primary in f.supported
    && FilePrimaryType !in f.supported
  }

  type File = f: TaggedFile | Valid(f) witness TaggedFile([], Id3v2, {Id3v2})

  /** The first tag of type `t`, if any (with distinct types: the only one). */
  function Find(tags: seq<Tag>, t: TagType): (r: Option<Tag>)
    ensures r.Some? ==> r.value in tags && r.value.tagType == t
    ensures r.None? <==> forall i :: 0 <= i < |tags| ==> tags[i].tagType != t
  {
    if tags == [] then None
    else if tags[0].tagType == t then Some(tags[0])
    else Find(tags[1..], t)
  }

  /** With distinct types, `Find` returns every tag present under its own type. */
  lemma FindDistinct(tags: seq<Tag>, i: int)
    requires DistinctTypes(tags) && 0 <= i < |tags|
    ensures Find(tags, tags[i].tagType) == Some(tags[i])
  {
  }

  /** Looking up in a concatenation looks in the front part first. */
  lemma {:induction false} FindAppend(a: seq<Tag>, b: seq<Tag>, t: TagType)
    ensures Find(a + b, t) == if Find(a, t).Some? then Find(a, t) else Find(b, t)
  {
    if a == [] {
      assert a + b == b;
    } else {
      assert (a + b)[0] == a[0];
      assert (a + b)[1..] == a[1..] + b;
      FindAppend(a[1..], b, t);
    }
  }

  /** Two lists with distinct types that agree on every lookup hold the same
      tags: lookups by type determine the contents. */
  lemma SameLookupsSameTags(a: seq<Tag>, b: seq<Tag>)
    requires DistinctTypes(a) && DistinctTypes(b)
    requires forall t :: Find(a, t) == Find(b, t)
    ensures forall x :: x in a <==> x in b
  {
    forall x | x in a
      ensures x in b
    {
      var i :| 0 <= i < |a| && a[i] == x;
      FindDistinct(a, i);
      assert Find(b, x.tagType) == Some(x);
    }
    forall x | x in b
      ensures x in a
    {
      var i :| 0 <= i < |b| && b[i] == x;
      FindDistinct(b, i);
      assert Find(a, x.tagType) == Some(x);
    }
  }

  /** The tags other than those of type `t`, in their original order. */
  function Without(tags: seq<Tag>, t: TagType): (r: seq<Tag>)
    ensures forall x :: x in r ==> x in tags && x.tagType != t
    ensures Find(r, t) == None
    ensures forall u :: u != t ==> Find(r, u) == Find(tags, u)
    ensures Find(tags, t) == None ==> r == tags
    ensures |r| <= |tags|
  {
    if tags == [] then []
    else if tags[0].tagType == t then Without(tags[1..], t)
    else [tags[0]] + Without(tags[1..], t)
  }

  /** The tail of a list with distinct types has distinct types, none of
      them the head's. */
  lemma DistinctTail(tags: seq<Tag>)
    requires DistinctTypes(tags) && tags != []
    ensures DistinctTypes(tags[1..])
    ensures forall x :: x in tags[1..] ==> x.tagType != tags[0].tagType
  {
  }

  /** A head whose type no element of a distinct tail has keeps the list distinct. */
  lemma DistinctCons(h: Tag, rest: seq<Tag>)
    requires DistinctTypes(rest)
    requires forall x :: x in rest ==> x.tagType != h.tagType
    ensures DistinctTypes([h] + rest)
  {
  }

  /** Dropping a type keeps the types distinct. */
  lemma {:induction false} WithoutDistinct(tags: seq<Tag>, t: TagType)
    requires DistinctTypes(tags)
    ensures DistinctTypes(Without(tags, t))
  {
    if tags != [] {
      DistinctTail(tags);
      WithoutDistinct(tags[1..], t);
      if tags[0].tagType != t {
        DistinctCons(tags[0], Without(tags[1..], t));
      }
    }
  }

  /** `clear`: drop every tag; the container's format data stays. */
  function Clear(f: File): (r: File)
    ensures r.tags == []
    ensures r.primary == f.primary && r.supported == f.supported
  {
    f.(tags := [])
  }

  /** The file after an insert, and whether the backend accepted the tag. */
  datatype Inserted = Inserted(file: File, accepted: bool)

  /** `insert_tag`: a tag of a supported type replaces the tag of that type
      (or is added); a tag of an unsupported type leaves the file as it is. */
  function InsertTag(f: File, tag: Tag): (r: Inserted)
    ensures r.accepted <==> tag.tagType in f.supported
    ensures r.file.primary == f.primary && r.file.supported == f.supported
    ensures r.accepted ==> Find(r.file.tags, tag.tagType) == Some(tag)
    ensures forall u :: u != tag.tagType ==> Find(r.file.tags, u) == Find(f.tags, u)
    ensures !r.accepted ==> r.file == f
  {
    if tag.tagType in f.supported then
      var kept := Without(f.tags, tag.tagType);
      WithoutDistinct(f.tags, tag.tagType);
      var tags := kept + [tag];
      forall u ensures Find(tags, u) == if u == tag.tagType then Some(tag) else Find(f.tags, u) {
        FindAppend(kept, [tag], u);
      }
      assert DistinctTypes(tags) by {
        forall i, j | 0 <= i < j < |tags|
          ensures tags[i].tagType != tags[j].tagType
        {
          assert tags[i] == kept[i] && tags[i] in kept;
          if j < |kept| {
            assert tags[j] == kept[j];
          }
        }
      }
      assert forall i :: 0 <= i < |tags| ==> tags[i].tagType in f.supported by {
        forall i | 0 <= i < |tags|
          ensures tags[i].tagType in f.supported
        {
          if i < |kept| {
            assert tags[i] == kept[i] && kept[i] in f.tags;
          }
        }
      }
      Inserted(f.(tags := tags), true)
    else
      Inserted(f, false)
  }

  /** The file after a removal, and the tag that was removed, if any. */
  datatype Removed = Removed(file: File, removed: Option<Tag>)

  /** `remove(tag_type)`: take out the tag of that type and hand it back;
      `None` (and an unchanged file) when there was none. */
  function Remove(f: File, t: TagType): (r: Removed)
    ensures r.removed == Find(f.tags, t)
    ensures Find(r.file.tags, t) == None
    ensures forall u :: u != t ==> Find(r.file.tags, u) == Find(f.tags, u)
    ensures r.removed.None? ==> r.file == f
    ensures r.file.primary == f.primary && r.file.supported == f.supported
  {
    WithoutDistinct(f.tags, t);
    Removed(f.(tags := Without(f.tags, t)), Find(f.tags, t))
  }

  /** `remove` undoes `insert_tag`: removing the type just inserted hands
      back the inserted tag and leaves the same lookups as removing that type
      from the original file. */
  lemma RemoveUndoesInsert(f: File, tag: Tag)
    requires tag.tagType in f.supported
    ensures var back := Remove(InsertTag(f, tag).file, tag.tagType);
      && back.removed == Some(tag)
      && back.file.primary == f.primary && back.file.supported == f.supported
      && forall u :: Find(back.file.tags, u) == Find(Remove(f, tag.tagType).file.tags, u)
  {
  }

  /** `insert_tag` after `remove` of the same type: the removal makes no
      difference, since the insert replaces that type anyway. */
  lemma InsertAfterRemove(f: File, tag: Tag)
    ensures var again := InsertTag(Remove(f, tag.tagType).file, tag);
      && again.accepted == InsertTag(f, tag).accepted
      && forall u :: Find(again.file.tags, u) == Find(InsertTag(f, tag).file.tags, u)
  {
  }

  /** A tag present in a backend file has a supported type. */
  lemma PresentIsSupported(f: File, t: TagType)
    requires Find(f.tags, t).Some?
    ensures t in f.supported
  {
  }
}
