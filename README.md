# beets web plugin: resource core

A Dafny model of the resource layer of the beets web plugin
(`beetsplug/web/__init__.py`). This layer turns a request into JSON about library
tracks (`Item`) and releases (`Album`). The model covers four parts:

- `_rep`: projects a record into a flat map. An item loses its `path` and gains a
  `size`. An album loses its `artpath` and, when `expand` is set, gains its tracks
  under `items`.
- `json_generator`: emits the body of a streamed response, fragment by fragment.
- `_extract_ids`: parses a comma-separated id list with Python's `int()` and
  silently drops the pieces that `int()` rejects.
- The three responders made by `resource`, `resource_query` and `resource_list`:
  404 when no id survives lookup, a bare object for exactly one survivor, and a
  stream for two or more. A query is split on `/` and always streamed under
  `results`. The list responder always streams the library's items.

Modules, one per file:

- `wrappers.dfy`: `Option`.
- `text.dfy`: `str.split` with a one-character separator, `str.join`, and the
  concatenation of stream fragments.
- `library.dfy`: field values, `Item`, `Album`, `Entity`, what `dict(obj)` gives,
  and `Env`. `Env` holds the two external functions the core calls: `json.dumps`,
  and the file-size probe `os.path.getsize(util.syspath(path))`, which returns
  `None` where it raises `OSError`.
- `projection.dfy`: `_rep`.
- `ids.dfy`: `int()` and `_extract_ids`.
- `streaming.dfy`: `json_generator`.
- `resources.dfy`: the responders.

Modelling decisions:

- `_extract_ids` and `json_generator` are methods with loops, as in the source.
  Each is proved equal to a specification function (`IdList`, `Fragments`).
  The properties are then proved about those functions.
- The responders are functions. The library calls they make become parameters:
  `retriever` for the id lookup, `queryFunc` for the query, and the result of
  `g.lib.items()`.
- An item's `path` and an album's `artpath` are kept apart from the other
  fields, and `dict(obj)` adds them back. So every record has the key that `_rep`
  deletes, as it does in beets.
- `_rep` edits a fresh copy of the record. Here that copy is a map value, so the
  caller's record cannot change.
- The plugin is Python 2 code (`unicode` at line 244). `int()` is therefore
  modelled as CPython 2.7 parses a `unicode` argument: optional blanks, an
  optional sign, optional blanks again, one or more digits, optional blanks.
  Python 2, unlike Python 3, accepts blanks between the sign and the digits.
  The blanks are the ASCII characters that `unicode.isspace` accepts: 0x09-0x0D,
  0x1C-0x1F and the space. Negative ids pass through.

Where the design description of the system and the code disagree, the model
follows the code:

- The design calls the parsed id list "deduplicated". The code keeps duplicates,
  so `"1,1"` with id 1 present gives the stream form, not a bare object.
- The design streams the kind's own collection for `/album/`. The code streams
  `g.lib.items()` on every list route (see Findings).
- The design says a failing lookup in a batch is treated as absence. In the code,
  an exception raised by a lookup propagates out of the responder. Exceptions are
  not modelled at all (see Left out).
- The design says the streamed body equals eager serialisation of the whole list.
  The code puts the root into the opener without JSON escaping, and its
  separators need not match those `json.dumps` uses. The model states the body
  exactly as the code builds it (`Streaming.Body`).

## Model

| member | source | states |
|---|---|---|
| `Text.Split` | beetsplug/web/__init__.py:75 | `s.split(c)` has at least one piece, no piece contains `c`, and the pieces joined with `c` give `s` back |
| `Text.SplitUnique` | beetsplug/web/__init__.py:108 | any pieces with those three properties are exactly `Split(s, c)`, so the split of a query is unique |
| `Text.SplitCount` | beetsplug/web/__init__.py:75 | a split has one more piece than the string has separators |
| `Ids.ParseIntSound` | beetsplug/web/__init__.py:76-79 | a piece `int()` accepts holds a digit, contains only blanks, digits and signs, has at most one sign, and gives a negative value only if it holds a minus; any other piece is dropped |
| `Ids.ParseIntAccepts` | beetsplug/web/__init__.py:77 | every piece of the form blanks, optional sign, blanks, digits, blanks parses, to the digits' value with the sign applied |
| `Ids.TokenIds` | beetsplug/web/__init__.py:75-79 | the pieces give no more ids than there are pieces |
| `Ids.IdList` | beetsplug/web/__init__.py:74-80 | `_extract_ids(s)` never returns more ids than the commas in `s` plus one |
| `Ids.ExtractIds` | beetsplug/web/__init__.py:70-80 | the loop that appends each accepted piece's value returns exactly `IdList(s)`, the parsed pieces of `s.split(',')` |
| `Ids.TokenIdsAppend` | beetsplug/web/__init__.py:75-79 | the ids of two runs of pieces are those of the first run followed by those of the second, so input order and duplicates are kept |
| `Ids.TokenIdsMember` | beetsplug/web/__init__.py:76-79 | an id is in the result exactly when some piece parses to it |
| `Ids.TokenIdsNone` | beetsplug/web/__init__.py:76-79 | the result is empty exactly when no piece parses |
| `Ids.IdListEmpty` | beetsplug/web/__init__.py:74-80 | `_extract_ids("")` is `[]` |
| `Ids.IdListExample` | beetsplug/web/__init__.py:74-80 | `_extract_ids("3,x,5,,7")` is `[3, 5, 7]`: the invalid and the empty piece are dropped |
| `Projection.RepItem` | beetsplug/web/__init__.py:33-45 | an item's projection has no `path` and has a `size` equal to the probed size, or 0 when the probe fails; every other key and value of `dict(item)` is unchanged and no other key is added |
| `Projection.TrackReps` | beetsplug/web/__init__.py:50 | the expanded `items` list has one entry per track, in the album's order, each the track's projection |
| `Projection.RepAlbum` | beetsplug/web/__init__.py:47-51 | an album's projection has no `artpath`; without `expand` its keys are exactly the record's keys minus `artpath` with values unchanged; with `expand` it also has `items`, the ordered projections of the tracks |
| `Projection.Rep` | beetsplug/web/__init__.py:28-51 | each kind's redacted key is absent; an item always gets its `size`; an album has `items` only when expanded or when the record already had that field |
| `Projection.ExpandedTracks` | beetsplug/web/__init__.py:49-50 | expansion is one level deep: each entry of `items` is a track projection with no `path` and with its own `size` |
| `Streaming.Interleave` | beetsplug/web/__init__.py:62-67 | n documents with separators between them make 2n - 1 fragments, or none for no document |
| `Streaming.InterleaveAt` | beetsplug/web/__init__.py:62-67 | document i is at position 2i, followed by a separator unless it is the last |
| `Streaming.JsonGenerator` | beetsplug/web/__init__.py:53-68 | the loop with its `first` flag yields exactly `Fragments(entities, root)`: the opener, each entity's document with a comma before every one but the first, and the closer |
| `Streaming.FragmentsShape` | beetsplug/web/__init__.py:60-68 | 2 fragments for no entity and 2n + 1 for n; the opener first and `]}` last; no comma before the first entity; entity i at position 2i + 1, in input order, followed by a comma unless it is the last |
| `Streaming.FragmentsBody` | beetsplug/web/__init__.py:60-68 | the written-out stream is `{"root":[`, the entities' `json.dumps(_rep(e))` joined by commas, then `]}`; for no entity this is `{"root":[]}` |
| `Resources.Survivors` | beetsplug/web/__init__.py:88-89 | the lookups that hit are never more than the ids |
| `Resources.SurvivorsNone` | beetsplug/web/__init__.py:88-89 | nothing survives exactly when every lookup misses |
| `Resources.SurvivorsMany` | beetsplug/web/__init__.py:88-89 | two or more survive exactly when the lookups at two positions of the id list hit |
| `Resources.SurvivorsOne` | beetsplug/web/__init__.py:88-89 | when exactly one survives, it is the lookup result at one position, and every other position misses |
| `Resources.SurvivorsAppend` | beetsplug/web/__init__.py:88-89 | survivors keep id order, counted once per occurrence of an id |
| `Resources.ResourceResponder` | beetsplug/web/__init__.py:86-98 | 404 exactly when every parsed id misses; a stream under `name` of the survivors exactly when two positions hit; otherwise the bare non-expanded projection of the one entity found, all other positions missing |
| `Resources.DuplicateIdStreams` | beetsplug/web/__init__.py:86-98 | `"1,1"` with id 1 present gives the stream form, with the same entity twice |
| `Resources.SingleItemEndpoint` | beetsplug/web/__init__.py:86-98 | with item 1 of 1000 bytes, `GET /item/1` is the bare projection of item 1, with `size` 1000 |
| `Resources.PairItemEndpoint` | beetsplug/web/__init__.py:86-98 | with items 1 and 2 present, `GET /item/1,2` streams both, in that order, under `items` |
| `Resources.MissingItemEndpoint` | beetsplug/web/__init__.py:86-98 | with no item 9, `GET /item/9` is 404 |
| `Resources.QueryResponder` | beetsplug/web/__init__.py:107-112 | always a stream; for the unique parts that are non-empty, free of `/` and join back to the query, it streams what the query function returns for them under `results`, whatever the resource's name |
| `Resources.ListResponder` | beetsplug/web/__init__.py:121-125 | always a stream whose body is the library's items as a JSON array under `name` |
| `Resources.ListResponderIgnoresListAll` | beetsplug/web/__init__.py:121-124 | the list responder's answer does not depend on `list_all` |
| `Resources.AlbumListAsWritten` | beetsplug/web/__init__.py:121-125 | with one album and no items, the list responder for `albums` answers `{"albums":[]}`, while the intended one lists the album |
| `Resources.ListResponderIntended` | beetsplug/web/__init__.py:121-125 | the corrected responder streams what `list_all()` returns, as a JSON array under `name` |

## Left out

- The Flask application, `before_request`, the route decorators, and the
  response classes and mimetypes (`flask.jsonify`, `flask.abort(404)`,
  `app.response_class`). They are framework plumbing. The `Response` datatype
  stands for their results.
- The route handlers `get_item`, `all_items`, `item_query`, `get_album`,
  `all_albums` and `album_query` (lines 142-184). Each only forwards to one
  library call. The responders take that call as a parameter, so which handler
  feeds which responder is not modelled.
- `item_file` and `album_art`, which stream binary files with `send_file`.
  `all_artists` and `stats`, which run SQL through `g.lib.transaction()`.
  `home`, which renders a template. `WebPlugin`, which parses the command line
  and configuration and starts a threaded server. All of this is I/O, a foreign
  database, or concurrency.
- The internals of `json.dumps`, `os.path.getsize`, `util.syspath` and the
  library's `get_item`, `get_album`, `items`, `albums` and `album`. These are
  uninterpreted parameters: `Env.dumps`, `Env.getsize`, `retriever`,
  `queryFunc`, `libItems`.
- Exceptions raised by the library calls, and any exception from the size
  probe other than `OSError`. In the source they propagate out of the responder
  as a server error. The model has no error path for them.
- The laziness of the generator. The model gives the sequence of fragments the
  generator yields, not when each is produced.
- Ids.ParseInt: non-ASCII characters are never treated as blanks or digits. For a
  `unicode` argument, Python 2's `int()` also accepts non-ASCII whitespace and
  non-ASCII decimal digits (for example Arabic-Indic digits).
- Field values: `Value` has no floating-point case. The core never inspects field
  values, so a float field stands as any other opaque value.
- The branch of `_rep` for an object that is neither an `Item` nor an `Album`
  (it returns `None`). `Entity` has only the two kinds, so that branch cannot be
  reached.
- The handler name each decorator sets (`responder.__name__`). It does not affect
  the response.

## Findings

| source | as written | input that shows it | evidently intended | confidence | as-written member | corrected member |
|---|---|---|---|---|---|---|
| beetsplug/web/__init__.py:121-125 | the responder of `resource_list(name)` streams `g.lib.items()` and never calls the `list_all` it was made for | a library with one album and no items: `GET /album/` answers `{"albums":[]}` | stream `list_all()`, so that `/album/` lists the albums | high; not executed | `Resources.AlbumListAsWritten` | `Resources.ListResponderIntended` |

`Resources.ListResponder` reproduces the code as written. The check against
the intended behaviour is the corrected member.
