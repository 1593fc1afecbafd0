/** The responders built by `resource`, `resource_query` and `resource_list`:
    from the route argument and the library calls to the response.

    The library is not modelled: each responder receives the call it makes
    (`retriever`, `queryFunc`, the result of `g.lib.items()`) as a
    parameter. */
module Resources {
  import opened Wrappers
  import opened Text
  import opened Library
  import opened Projection
  import opened Ids
  import opened Streaming

  /** What a responder returns: `flask.abort(404)`, `flask.jsonify` of one
      projected record, or a streamed JSON response whose body is the
      fragments `json_generator` yields. */
  datatype Response =
    | NotFound
    | Single(body: map<string, Value>)
    | Stream(fragments: seq<string>)

  /** A lookup result kept by the truthiness filter `if entity`. */
  function Found(result: Option<Entity>): seq<Entity>
  {
    match result
    case Some(e) => [e]
    case None => []
  }

  /** `[retriever(id) for id in ids]` with the misses filtered out: the
      entities found, in id order, once for each occurrence of an id. */
  function Survivors(ids: seq<int>, retriever: int -> Option<Entity>): (es: seq<Entity>)
    ensures |es| <= |ids|
  {
    if |ids| == 0 then [] else Found(retriever(ids[0])) + Survivors(ids[1..], retriever)
  }

  /** Nothing survives exactly when every lookup misses. */
  lemma {:induction false} SurvivorsNone(ids: seq<int>, retriever: int -> Option<Entity>)
    ensures |Survivors(ids, retriever)| == 0 <==> forall i :: 0 <= i < |ids| ==> retriever(ids[i]).None?
  {
    if |ids| > 0 {
      SurvivorsNone(ids[1..], retriever);
      assert forall i :: 1 <= i < |ids| ==> ids[1..][i - 1] == ids[i];
    }
  }

  /** Two or more survive exactly when two positions of the list hit. */
  lemma {:induction false} SurvivorsMany(ids: seq<int>, retriever: int -> Option<Entity>)
    ensures |Survivors(ids, retriever)| >= 2
        <==> exists i, j :: 0 <= i < j < |ids| && retriever(ids[i]).Some? && retriever(ids[j]).Some?
  {
    if |ids| > 0 {
      var rest := ids[1..];
      SurvivorsMany(rest, retriever);
      SurvivorsNone(rest, retriever);
      if exists i, j :: 0 <= i < j < |ids| && retriever(ids[i]).Some? && retriever(ids[j]).Some? {
        var i, j :| 0 <= i < j < |ids| && retriever(ids[i]).Some? && retriever(ids[j]).Some?;
        if i == 0 {
          assert rest[j - 1] == ids[j];
        } else {
          assert rest[i - 1] == ids[i] && rest[j - 1] == ids[j];
        }
      }
      if |Survivors(ids, retriever)| >= 2 {
        if retriever(ids[0]).Some? {
          var j :| 0 <= j < |rest| && retriever(rest[j]).Some?;
          assert retriever(ids[j + 1]).Some?;
        } else {
          var i, j :| 0 <= i < j < |rest| && retriever(rest[i]).Some? && retriever(rest[j]).Some?;
          assert ids[i + 1] == rest[i] && ids[j + 1] == rest[j];
        }
      }
    }
  }

  /** When exactly one survives, it is what the lookup at one position gave,
      and every other position misses. */
  lemma {:induction false} SurvivorsOne(ids: seq<int>, retriever: int -> Option<Entity>)
    requires |Survivors(ids, retriever)| == 1
    ensures exists i :: && 0 <= i < |ids|
                        && retriever(ids[i]) == Some(Survivors(ids, retriever)[0])
                        && forall j :: 0 <= j < |ids| && j != i ==> retriever(ids[j]).None?
  {
    var rest := ids[1..];
    if retriever(ids[0]).Some? {
      SurvivorsNone(rest, retriever);
      assert forall j :: 1 <= j < |ids| ==> ids[j] == rest[j - 1];
      assert retriever(ids[0]) == Some(Survivors(ids, retriever)[0]);
    } else {
      SurvivorsOne(rest, retriever);
      var i :| && 0 <= i < |rest|
               && retriever(rest[i]) == Some(Survivors(rest, retriever)[0])
               && forall j :: 0 <= j < |rest| && j != i ==> retriever(rest[j]).None?;
      assert forall j :: 1 <= j < |ids| ==> ids[j] == rest[j - 1];
      assert retriever(ids[i + 1]) == Some(Survivors(ids, retriever)[0]);
    }
  }

  /** Survivors keep id order: those of two id lists are those of the first
      followed by those of the second. */
  lemma {:induction false} SurvivorsAppend(a: seq<int>, b: seq<int>, retriever: int -> Option<Entity>)
    ensures Survivors(a + b, retriever) == Survivors(a, retriever) + Survivors(b, retriever)
  {
    if |a| == 0 {
      assert a + b == b;
    } else {
      assert (a + b)[1..] == a[1..] + b;
      SurvivorsAppend(a[1..], b, retriever);
    }
  }

  /** The responder of `resource(name)`: parse the id list, look every id
      up, drop the misses; no survivor gives 404, exactly one gives its bare
      projection, two or more give a stream under `name`.  Survivors are
      counted with duplicates, in id order. */
  function ResourceResponder(name: string, entityIds: string, retriever: int -> Option<Entity>, env: Env): (r: Response)
    ensures var ids := IdList(entityIds);
      r.NotFound? <==> forall i :: 0 <= i < |ids| ==> retriever(ids[i]).None?
    ensures var ids := IdList(entityIds);
      r.Stream? <==> exists i, j :: 0 <= i < j < |ids| && retriever(ids[i]).Some? && retriever(ids[j]).Some?
    ensures var ids := IdList(entityIds);
      r.Single? ==> exists i :: && 0 <= i < |ids|
                                && retriever(ids[i]).Some?
                                && r.body == Rep(retriever(ids[i]).value, false, env.getsize)
                                && forall j :: 0 <= j < |ids| && j != i ==> retriever(ids[j]).None?
    ensures r.Stream? ==> r.fragments == Fragments(Survivors(IdList(entityIds), retriever), name, env)
  {
    var ids := IdList(entityIds);
    var entities := Survivors(ids, retriever);
    SurvivorsNone(ids, retriever);
    SurvivorsMany(ids, retriever);
    if |entities| == 1 then
      SurvivorsOne(ids, retriever);
      Single(Rep(entities[0], false, env.getsize))
    else if |entities| > 0 then
      Stream(Fragments(entities, name, env))
    else
      NotFound
  }

  /** The responder of `resource_query(name)`: split the query on `/` and
      stream what the query function returns for those parts, always under
      the root `results` (`name` only names the handler).  The parts are the
      unique split of the query: non-empty, free of `/`, joining back to it. */
  function QueryResponder(query: string, queryFunc: seq<string> -> seq<Entity>, env: Env): (r: Response)
    ensures r.Stream?
    ensures forall parts :: IsSplitOf(parts, query, '/') ==> r == Stream(Fragments(queryFunc(parts), "results", env))
    ensures Concat(r.fragments) == Body(queryFunc(Split(query, '/')), "results", env)
  {
    var parts := Split(query, '/');
    SplitUniqueAll(query, '/');
    FragmentsBody(queryFunc(parts), "results", env);
    Stream(Fragments(queryFunc(parts), "results", env))
  }

  /** The responder of `resource_list(name)` as the source has it: it never
      calls `listAll` and always streams `g.lib.items()` under `name`. */
  function ListResponder(name: string, listAll: () -> seq<Entity>, libItems: seq<Item>, env: Env): (r: Response)
    ensures r.Stream?
    ensures Concat(r.fragments) == Body(ItemEntities(libItems), name, env)
  {
    FragmentsBody(ItemEntities(libItems), name, env);
    Stream(Fragments(ItemEntities(libItems), name, env))
  }

  /** The list responder's answer does not depend on the function it was
      made for. */
  lemma ListResponderIgnoresListAll(name: string, f: () -> seq<Entity>, g: () -> seq<Entity>, libItems: seq<Item>, env: Env)
    ensures ListResponder(name, f, libItems, env) == ListResponder(name, g, libItems, env)
  {
  }

  /** The list responder as evidently intended: stream what `listAll()`
      returns under `name`. */
  function ListResponderIntended(name: string, listAll: () -> seq<Entity>, env: Env): (r: Response)
    ensures r.Stream?
    ensures Concat(r.fragments) == Body(listAll(), name, env)
  {
    FragmentsBody(listAll(), name, env);
    Stream(Fragments(listAll(), name, env))
  }

  /** On a library with one album and no items, `GET /album/` as written
      answers `{"albums":[]}`, while the intended responder lists the album. */
  lemma AlbumListAsWritten(album: Album, env: Env)
    ensures var listAll := () => [AlbumEntity(album)];
      && Concat(ListResponder("albums", listAll, [], env).fragments) == "{\"albums\":[]}"
      && Concat(ListResponderIntended("albums", listAll, env).fragments)
         == "{\"albums\":[" + env.dumps(Rep(AlbumEntity(album), false, env.getsize)) + "]}"
  {
    var listAll := () => [AlbumEntity(album)];
    FragmentsBody([], "albums", env);
    assert ItemEntities([]) == [];
    var docs := Dumped(listAll(), env);
    assert Join(docs, Comma) == docs[0];
  }

  // Worked id lists.

  lemma IdListOneDigit(d: char)
    requires IsDigit(d)
    ensures IdList([d]) == [(d as int) - ('0' as int)]
  {
    SplitWithout([d], ',');
    DigitParses(d);
    TokenIdsOne([d]);
  }

  lemma SplitTwoDigits(d: char, e: char)
    requires IsDigit(d) && IsDigit(e)
    ensures Split([d, ',', e], ',') == [[d], [e]]
  {
    assert [d, ',', e] == [d] + [','] + [e];
    SplitCons([d], [e], ',');
    SplitWithout([e], ',');
  }

  lemma TokenIdsTwoDigits(d: char, e: char)
    requires IsDigit(d) && IsDigit(e)
    ensures TokenIds([[d], [e]]) == [(d as int) - ('0' as int), (e as int) - ('0' as int)]
  {
    DigitParses(d);
    DigitParses(e);
    TokenIdsAppend([[d]], [[e]]);
    assert [[d]] + [[e]] == [[d], [e]];
    TokenIdsOne([d]);
    TokenIdsOne([e]);
  }

  lemma IdListTwoDigits(d: char, e: char)
    requires IsDigit(d) && IsDigit(e)
    ensures IdList([d, ',', e]) == [(d as int) - ('0' as int), (e as int) - ('0' as int)]
  {
    SplitTwoDigits(d, e);
    TokenIdsTwoDigits(d, e);
  }

  lemma SurvivorsPair(x: int, y: int, retriever: int -> Option<Entity>)
    ensures Survivors([x, y], retriever) == Found(retriever(x)) + Found(retriever(y))
  {
    assert [x, y][1..] == [y];
    assert Survivors([y], retriever) == Found(retriever(y)) + Survivors([], retriever);
  }

  /** `"1,1"` with id 1 present gives the stream form: the same entity twice. */
  lemma DuplicateIdStreams(name: string, retriever: int -> Option<Entity>, env: Env)
    requires retriever(1).Some?
    ensures ResourceResponder(name, "1,1", retriever, env).Stream?
    ensures ResourceResponder(name, "1,1", retriever, env).fragments
         == Fragments([retriever(1).value, retriever(1).value], name, env)
  {
    IdListTwoDigits('1', '1');
    var ids := IdList("1,1");
    assert ids == [1, 1];
    SurvivorsPair(1, 1, retriever);
    assert Found(retriever(1)) == [retriever(1).value];
    assert Survivors(ids, retriever) == [retriever(1).value, retriever(1).value];
    var r := ResourceResponder(name, "1,1", retriever, env);
    assert retriever(ids[0]).Some? && retriever(ids[1]).Some?;
    assert r.Stream?;
    assert r.fragments == Fragments(Survivors(ids, retriever), name, env);
  }

  // A library holding item 1 (1000 bytes) and item 2 (2000 bytes) and no
  // item 9, as the retriever `g.lib.get_item` sees it.

  /** `GET /item/1` is the bare projection of item 1, with size 1000. */
  lemma SingleItemEndpoint(one: Item, retriever: int -> Option<Entity>, env: Env)
    requires retriever(1) == Some(ItemEntity(one))
    requires env.getsize(one.path) == Some(1000)
    ensures ResourceResponder("items", "1", retriever, env) == Single(RepItem(one, env.getsize))
    ensures RepItem(one, env.getsize)["size"] == Int(1000)
  {
    IdListOneDigit('1');
    var r := ResourceResponder("items", "1", retriever, env);
    assert [1][0] == 1 && retriever([1][0]).Some?;
    assert !r.NotFound? && !r.Stream?;
  }

  /** `GET /item/1,2` streams items 1 and 2, in that order, under `items`. */
  lemma PairItemEndpoint(one: Item, two: Item, retriever: int -> Option<Entity>, env: Env)
    requires retriever(1) == Some(ItemEntity(one)) && retriever(2) == Some(ItemEntity(two))
    ensures ResourceResponder("items", "1,2", retriever, env)
         == Stream(Fragments([ItemEntity(one), ItemEntity(two)], "items", env))
  {
    IdListTwoDigits('1', '2');
    SurvivorsPair(1, 2, retriever);
    assert Found(retriever(1)) == [ItemEntity(one)] && Found(retriever(2)) == [ItemEntity(two)];
    assert Survivors([1, 2], retriever) == [ItemEntity(one), ItemEntity(two)];
    var r := ResourceResponder("items", "1,2", retriever, env);
    assert retriever([1, 2][0]).Some? && retriever([1, 2][1]).Some?;
    assert r.Stream?;
  }

  /** `GET /item/9` is 404. */
  lemma MissingItemEndpoint(retriever: int -> Option<Entity>, env: Env)
    requires retriever(9) == None
    ensures ResourceResponder("items", "9", retriever, env) == NotFound
  {
    IdListOneDigit('9');
    assert forall i :: 0 <= i < |[9]| ==> retriever([9][i]).None?;
  }
}
