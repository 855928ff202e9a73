/** `SongInfo`: the per-file record the populators fill in and the writers
    read. Its tag attributes are a fixed key set; each is unset (`None`) or
    holds a list of strings. */
module SongInfo {
  import opened Wrappers

  /** A tag value as the tag library hands it out: a list of strings. */
  type Value = seq<string>

  /** The fixed tag keys. */
  datatype TagKey =
    | Artist | Author | Title | Album | Genre | Date | Performer | Composer
    | Conductor | Lyricist | Arranger | TrackNumber | DiscNumber | DiscSubtitle | Language

  /** Position of a key in the visiting order. */
  function Position(k: TagKey): (p: nat)
    ensures p < 15
  {
    match k
    case Artist => 0
    case Author => 1
    case Title => 2
    case Album => 3
    case Genre => 4
    case Date => 5
    case Performer => 6
    case Composer => 7
    case Conductor => 8
    case Lyricist => 9
    case Arranger => 10
    case TrackNumber => 11
    case DiscNumber => 12
    case DiscSubtitle => 13
    case Language => 14
  }

  /** The key at a position of the visiting order (the last one past the
      end); the reader and writer walk positions 0 to 14. */
  function KeyAt(i: int): (k: TagKey)
    ensures 0 <= i < 15 ==> Position(k) == i
  {
    if i == 0 then Artist
    else if i == 1 then Author
    else if i == 2 then Title
    else if i == 3 then Album
    else if i == 4 then Genre
    else if i == 5 then Date
    else if i == 6 then Performer
    else if i == 7 then Composer
    else if i == 8 then Conductor
    else if i == 9 then Lyricist
    else if i == 10 then Arranger
    else if i == 11 then TrackNumber
    else if i == 12 then DiscNumber
    else if i == 13 then DiscSubtitle
    else Language
  }

  /** The tag keys in the order the reader and writer visit them. */
  const TagKeys: seq<TagKey> :=
    [Artist, Author, Title, Album, Genre, Date, Performer, Composer,
     Conductor, Lyricist, Arranger, TrackNumber, DiscNumber, DiscSubtitle, Language]

  /** The attribute name of a key, which is also its name in the tag store. */
  function Name(k: TagKey): string
  {
    match k
    case Artist => "artist"
    case Author => "author"
    case Title => "title"
    case Album => "album"
    case Genre => "genre"
    case Date => "date"
    case Performer => "performer"
    case Composer => "composer"
    case Conductor => "conductor"
    case Lyricist => "lyricist"
    case Arranger => "arranger"
    case TrackNumber => "tracknumber"
    case DiscNumber => "discnumber"
    case DiscSubtitle => "discsubtitle"
    case Language => "language"
  }

  /** The key an attribute name denotes, if it is one of the tag keys. */
  function KeyOf(s: string): (r: Option<TagKey>)
    ensures r.Some? ==> Name(r.value) == s
  {
    if s == "artist" then Some(Artist)
    else if s == "author" then Some(Author)
    else if s == "title" then Some(Title)
    else if s == "album" then Some(Album)
    else if s == "genre" then Some(Genre)
    else if s == "date" then Some(Date)
    else if s == "performer" then Some(Performer)
    else if s == "composer" then Some(Composer)
    else if s == "conductor" then Some(Conductor)
    else if s == "lyricist" then Some(Lyricist)
    else if s == "arranger" then Some(Arranger)
    else if s == "tracknumber" then Some(TrackNumber)
    else if s == "discnumber" then Some(DiscNumber)
    else if s == "discsubtitle" then Some(DiscSubtitle)
    else if s == "language" then Some(Language)
    else None
  }

  /** Positions number the keys one-to-one. */
  lemma KeyAtPosition()
    ensures forall k: TagKey :: KeyAt(Position(k)) == k
  {
  }

  /** Walking positions 0 to 14 visits `TagKeys` in order, so every key
      is visited exactly once. */
  lemma TagKeysOrder()
    ensures |TagKeys| == 15
    ensures forall i :: 0 <= i < 15 ==> TagKeys[i] == KeyAt(i)
    ensures forall k: TagKey :: k in TagKeys
  {
    KeyAtPosition();
    forall k: TagKey ensures k in TagKeys {
      assert TagKeys[Position(k)] == k by {
        match k
        case Artist =>
        case Author =>
        case Title =>
        case Album =>
        case Genre =>
        case Date =>
        case Performer =>
        case Composer =>
        case Conductor =>
        case Lyricist =>
        case Arranger =>
        case TrackNumber =>
        case DiscNumber =>
        case DiscSubtitle =>
        case Language =>
      }
    }
  }

  /** Names are a one-to-one code for keys: `KeyOf` decodes them. */
  lemma NameInjective()
    ensures forall k: TagKey :: KeyOf(Name(k)) == Some(k)
    ensures forall a: TagKey, b: TagKey :: Name(a) == Name(b) ==> a == b
  {
    forall k: TagKey ensures KeyOf(Name(k)) == Some(k) {
      match k
      case Artist =>
      case Author =>
      case Title =>
      case Album =>
      case Genre =>
      case Date =>
      case Performer =>
      case Composer =>
      case Conductor =>
      case Lyricist =>
      case Arranger =>
      case TrackNumber =>
      case DiscNumber =>
      case DiscSubtitle =>
      case Language =>
    }
    forall a: TagKey, b: TagKey | Name(a) == Name(b) ensures a == b {
      assert KeyOf(Name(a)) == Some(a);
    }
  }

  datatype Song = Song(pathname: string, tags: map<TagKey, Option<Value>>)

  /** The record carries every tag key. */
  predicate Valid(info: Song)
  {
    forall k: TagKey :: k in info.tags
  }

  /** Python truthiness of an attribute: set and a non-empty list. */
  predicate Truthy(v: Option<Value>)
  {
    v.Some? && |v.value| > 0
  }

  /** The attribute `k`; a key missing from the map reads as unset. */
  function Get(info: Song, k: TagKey): Option<Value>
  {
    if k in info.tags then info.tags[k] else None
  }

  /** Assigns attribute `k`, leaving every other attribute alone. */
  function With(info: Song, k: TagKey, v: Option<Value>): (r: Song)
    ensures Valid(info) ==> Valid(r)
    ensures r.pathname == info.pathname
    ensures Get(r, k) == v
    ensures forall j :: j != k ==> Get(r, j) == Get(info, j)
  {
    info.(tags := info.tags[k := v])
  }

  /** `SongInfo(pathname, **kwargs)`: every tag key starts unset, then the
      keyword arguments that name tag keys are applied. */
  function New(pathname: string, kwargs: map<string, Value>): (r: Song)
    ensures Valid(r)
    ensures r.pathname == pathname
    ensures forall k :: Name(k) in kwargs ==> Get(r, k) == Some(kwargs[Name(k)])
    ensures forall k :: Name(k) !in kwargs ==> Get(r, k) == None
  {
    TagKeysOrder();
    Song(pathname, map k | k in TagKeys :: if Name(k) in kwargs then Some(kwargs[Name(k)]) else None)
  }

  /** A record built without keyword arguments has no attribute set. */
  lemma NewIsBlank(pathname: string)
    ensures forall k :: Get(New(pathname, map[]), k) == None
    ensures forall k :: !Truthy(Get(New(pathname, map[]), k))
  {
  }
}
