/** The records the web plugin serves and the external functions it calls.

    A beets `Item` (a track) and `Album` (a release) behave as dictionaries of
    field values; `dict(obj)` copies every field.  An item always has a `path`
    (bytes) and an album always has an `artpath` (which may be None), so those
    are kept apart from the other fields and put back by the record functions
    below.  `obj.items()` of an album is modelled as the sequence of its
    tracks, as the library returns it. */
module Library {
  import opened Wrappers

  /** A file-system path: Python 2 bytes. */
  type Path = seq<bv8>

  /** A JSON-ish field value. */
  datatype Value =
    | Null
    | Bool(b: bool)
    | Int(i: int)
    | Str(s: string)
    | Bytes(bytes: seq<bv8>)
    | List(elems: seq<Value>)
    | Object(fields: map<string, Value>)

  /** A track: its path and its other fields. */
  datatype Item = Item(path: Path, fields: map<string, Value>)

  /** A release: its art path, its other fields, and its tracks in the order
      the library gives them. */
  datatype Album = Album(artpath: Value, fields: map<string, Value>, items: seq<Item>)

  /** What a library lookup or query returns: an `Item` or an `Album`. */
  datatype Entity = ItemEntity(item: Item) | AlbumEntity(album: Album)

  /** `dict(item)`: every field, `path` included. */
  function ItemRecord(item: Item): map<string, Value>
  {
    item.fields["path" := Bytes(item.path)]
  }

  /** `dict(album)`: every field, `artpath` included. */
  function AlbumRecord(album: Album): map<string, Value>
  {
    album.fields["artpath" := album.artpath]
  }

  /** The functions outside the plugin that the core calls:
      `json.dumps` on a projected record, and the file-size probe
      `os.path.getsize(util.syspath(path))`, None where it raises `OSError`. */
  datatype Env = Env(dumps: map<string, Value> -> string, getsize: Path -> Option<nat>)

  function ItemEntities(items: seq<Item>): (es: seq<Entity>)
    ensures |es| == |items| && forall i :: 0 <= i < |items| ==> es[i] == ItemEntity(items[i])
  {
    seq(|items|, i requires 0 <= i < |items| => ItemEntity(items[i]))
  }
}
