/** `_rep`: the flat, JSON-ish projection of an Item or an Album.

    The source copies `dict(obj)` into a fresh dictionary and edits the copy;
    here the copy is a map value, so the record the caller holds is never
    changed by construction. */
module Projection {
  import opened Wrappers
  import opened Library

  /** The size stored under `size`: the probed size, or 0 where the probe
      raised `OSError`. */
  function SizeOrZero(probe: Option<nat>): nat
  {
    match probe
    case Some(n) => n
    case None => 0
  }

  /** `_rep(item)`: no `path`, a `size` from the probe, every other field as
      it was. */
  function RepItem(item: Item, getsize: Path -> Option<nat>): (out: map<string, Value>)
    ensures "path" !in out
    ensures "size" in out && out["size"] == Int(SizeOrZero(getsize(item.path)))
    ensures out.Keys == ItemRecord(item).Keys - {"path"} + {"size"}
    ensures forall k :: k in out && k != "size" ==> out[k] == ItemRecord(item)[k]
  {
    var copy := ItemRecord(item) - {"path"};
    copy["size" := Int(SizeOrZero(getsize(item.path)))]
  }

  /** The `items` list of an expanded album: each track's `_rep`, in order. */
  function TrackReps(items: seq<Item>, getsize: Path -> Option<nat>): (reps: seq<Value>)
    ensures |reps| == |items|
    ensures forall i :: 0 <= i < |items| ==> reps[i] == Object(RepItem(items[i], getsize))
  {
    seq(|items|, i requires 0 <= i < |items| => Object(RepItem(items[i], getsize)))
  }

  /** `_rep(album, expand)`: no `artpath`; without `expand` exactly the other
      fields, unchanged; with `expand` also `items`, the tracks' projections
      in the album's order. */
  function RepAlbum(album: Album, expand: bool, getsize: Path -> Option<nat>): (out: map<string, Value>)
    ensures "artpath" !in out
    ensures !expand ==> out.Keys == AlbumRecord(album).Keys - {"artpath"}
    ensures expand ==> out.Keys == AlbumRecord(album).Keys - {"artpath"} + {"items"}
    ensures forall k :: k in out && k != "items" ==> out[k] == AlbumRecord(album)[k]
    ensures !expand && "items" in out ==> out["items"] == AlbumRecord(album)["items"]
    ensures expand ==> out["items"] == List(TrackReps(album.items, getsize))
  {
    var copy := AlbumRecord(album) - {"artpath"};
    if expand then copy["items" := List(TrackReps(album.items, getsize))] else copy
  }

  /** The field `_rep` removes from each kind of record. */
  function RedactedKey(e: Entity): string
  {
    match e
    case ItemEntity(_) => "path"
    case AlbumEntity(_) => "artpath"
  }

  /** `_rep(obj, expand)`: branches on the kind of record; `expand` matters
      only for albums. */
  function Rep(e: Entity, expand: bool, getsize: Path -> Option<nat>): (out: map<string, Value>)
    ensures RedactedKey(e) !in out
    ensures e.ItemEntity? ==> "size" in out && out["size"] == Int(SizeOrZero(getsize(e.item.path)))
    ensures e.AlbumEntity? ==> ("items" in out <==> expand || "items" in e.album.fields)
  {
    match e
    case ItemEntity(item) => RepItem(item, getsize)
    case AlbumEntity(album) => RepAlbum(album, expand, getsize)
  }

  /** Expansion goes one level deep: an expanded album's `items` are track
      projections, each with its own `size` and without `path`. */
  lemma ExpandedTracks(album: Album, getsize: Path -> Option<nat>, i: nat)
    requires i < |album.items|
    ensures var out := RepAlbum(album, true, getsize);
      && out["items"].List?
      && |out["items"].elems| == |album.items|
      && out["items"].elems[i] == Object(RepItem(album.items[i], getsize))
      && "path" !in out["items"].elems[i].fields
      && out["items"].elems[i].fields["size"] == Int(SizeOrZero(getsize(album.items[i].path)))
  {
  }
}
