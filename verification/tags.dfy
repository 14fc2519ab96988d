/** The unified tag model: a format discriminator plus an opaque payload of
    enumerated text fields and pictures. */
module Tags {

  import opened Wrappers

  /** The native tag formats, plus the write-time directive `FilePrimaryType`
      ("whatever the container prefers"), which no stored tag carries. */
  datatype TagType =
    | Ape
    | Id3v1
    | Id3v2
    | Mp4Ilst
    | VorbisComments
    | RiffInfo
    | AiffText
    | FilePrimaryType

  /** The enumerated metadata keys of a tag. */
  datatype Field =
    | Title
    | TrackArtist
    | AlbumArtist
    | Album
    | Genre
    | Comment
    | Year
    | TrackNumber
    | TrackTotal
    | DiscNumber
    | DiscTotal

  newtype byte = x: int | 0 <= x < 256

  datatype PictureType = CoverFront | CoverBack | Artist | Icon | OtherPicture

  datatype MimeType = Png | Jpeg | Tiff | Bmp | Gif

  /** Embedded artwork; the optional dimensions are present only when the
      native format records them. */
  datatype Picture = Picture(
    picType: PictureType,
    picData: seq<byte>,
    mimeType: Option<MimeType>,
    width: Option<nat>,
    height: Option<nat>,
    colorDepth: Option<nat>,
    numColors: Option<nat>
  )

  /** One tag: its format and everything else it holds. Two tags are equal
      exactly when their type and all of their payload agree. */
  datatype Tag = Tag(tagType: TagType, fields: map<Field, string>, pictures: seq<Picture>)

  /** A tag whose payload is empty: no field set, no picture. */
  predicate IsEmpty(tag: Tag) {
    tag.fields == map[] && tag.pictures == []
  }

  /** `Tag::new(tag_type)`: the empty tag of the given type. */
  function NewTag(t: TagType): (r: Tag)
    ensures r.tagType == t && IsEmpty(r)
  {
    Tag(t, map[], [])
  }

  /** The empty tag of a type is the only tag of that type with an empty payload. */
  lemma NewTagIsTheEmptyTag(tag: Tag)
    ensures IsEmpty(tag) <==> tag == NewTag(tag.tagType)
  {
  }

  /** The struct update `Tag { tag_type: t, ..tag }`: the payload is kept and
      only the type changes. */
  function Retype(tag: Tag, t: TagType): (r: Tag)
    ensures r.tagType == t
    ensures r.fields == tag.fields && r.pictures == tag.pictures
  {
    tag.(tagType := t)
  }

  /** Retyping to a tag's own type changes nothing; retyping twice keeps only
      the second type. */
  lemma RetypeProperties(tag: Tag, t: TagType, u: TagType)
    ensures Retype(tag, tag.tagType) == tag
    ensures Retype(Retype(tag, t), u) == Retype(tag, u)
    ensures Retype(tag, t) == tag <==> tag.tagType == t
  {
  }
}
