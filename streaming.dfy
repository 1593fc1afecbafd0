/** `json_generator`: the fragments of the JSON body of a streamed response.

    The source is a generator; here the fragments it would yield are gathered
    into a sequence, in the order it yields them. */
module Streaming {
  import opened Text
  import opened Library
  import opened Projection

  /** The first fragment, `'{"%s":[' % root`; the root is put in as it
      is, without JSON escaping. */
  function Opener(root: string): string
  {
    "{\"" + root + "\":["
  }

  /** The last fragment. */
  const Closer: string := "]}"

  /** The separator yielded between two entities. */
  const Comma: string := ","

  /** `json.dumps(_rep(e))` for each entity, in order (no caller in the
      plugin passes `expand`). */
  function Dumped(entities: seq<Entity>, env: Env): (docs: seq<string>)
    ensures |docs| == |entities|
    ensures forall i :: 0 <= i < |entities| ==> docs[i] == env.dumps(Rep(entities[i], false, env.getsize))
  {
    seq(|entities|, i requires 0 <= i < |entities| => env.dumps(Rep(entities[i], false, env.getsize)))
  }

  /** The documents with `sep` between each two of them. */
  function Interleave(docs: seq<string>, sep: string): (frags: seq<string>)
    ensures |frags| == if |docs| == 0 then 0 else 2 * |docs| - 1
  {
    if |docs| <= 1 then docs
    else [docs[0], sep] + Interleave(docs[1..], sep)
  }

  /** Document i sits at position 2i and, unless it is the last, a separator
      follows it. */
  lemma {:induction false} InterleaveAt(docs: seq<string>, sep: string, i: nat)
    requires i < |docs|
    ensures Interleave(docs, sep)[2 * i] == docs[i]
    ensures i + 1 < |docs| ==> Interleave(docs, sep)[2 * i + 1] == sep
  {
    if i > 0 {
      InterleaveAt(docs[1..], sep, i - 1);
    }
  }

  /** Everything `json_generator(entities, root)` yields, in order. */
  function Fragments(entities: seq<Entity>, root: string, env: Env): seq<string>
  {
    [Opener(root)] + Interleave(Dumped(entities, env), Comma) + [Closer]
  }

  /** The body a client receives: the root, then the documents joined by
      commas, in an array. */
  function Body(entities: seq<Entity>, root: string, env: Env): string
  {
    Opener(root) + Join(Dumped(entities, env), Comma) + Closer
  }

  /** Adding one more document adds a separator (unless it is the first)
      and then the document, at the end. */
  lemma {:induction false} InterleaveSnoc(docs: seq<string>, d: string, sep: string)
    ensures Interleave(docs + [d], sep)
         == Interleave(docs, sep) + (if |docs| == 0 then [d] else [sep, d])
  {
    if |docs| == 1 {
      assert docs + [d] == [docs[0], d];
      assert [docs[0], d][1..] == [d];
    } else if |docs| > 1 {
      assert (docs + [d])[1..] == docs[1..] + [d];
      InterleaveSnoc(docs[1..], d, sep);
    }
  }

  lemma DumpedSnoc(entities: seq<Entity>, i: nat, env: Env)
    requires i < |entities|
    ensures Dumped(entities[..i + 1], env)
         == Dumped(entities[..i], env) + [env.dumps(Rep(entities[i], false, env.getsize))]
  {
    assert entities[..i + 1] == entities[..i] + [entities[i]];
  }

  /** `json_generator`: yields the opener, then for each entity a comma
      unless it is the first, then the entity's document, then the closer. */
  method JsonGenerator(entities: seq<Entity>, root: string, env: Env) returns (frags: seq<string>)
    ensures frags == Fragments(entities, root, env)
  {
    frags := [Opener(root)];
    var first := true;
    for i := 0 to |entities|
      invariant first <==> i == 0
      invariant frags == [Opener(root)] + Interleave(Dumped(entities[..i], env), Comma)
    {
      var doc := env.dumps(Rep(entities[i], false, env.getsize));
      DumpedSnoc(entities, i, env);
      InterleaveSnoc(Dumped(entities[..i], env), doc, Comma);
      if first {
        first := false;
      } else {
        frags := frags + [Comma];
      }
      frags := frags + [doc];
    }
    assert entities[..|entities|] == entities;
    frags := frags + [Closer];
  }

  /** The fixed structure of the stream: two fragments for no entity and
      2n + 1 for n of them; the opener first and the closer last; the first
      entity right after the opener, with no comma before it; entity i at
      position 2i + 1, so in input order, followed by a comma unless it is
      the last. */
  lemma FragmentsShape(entities: seq<Entity>, root: string, env: Env)
    ensures var f := Fragments(entities, root, env);
      && |f| == (if |entities| == 0 then 2 else 2 * |entities| + 1)
      && f[0] == Opener(root)
      && f[|f| - 1] == Closer
      && (|entities| > 0 ==> f[1] == env.dumps(Rep(entities[0], false, env.getsize)))
      && (forall i :: 0 <= i < |entities| ==>
            && f[2 * i + 1] == env.dumps(Rep(entities[i], false, env.getsize))
            && (i + 1 < |entities| ==> f[2 * i + 2] == Comma))
  {
    var docs := Dumped(entities, env);
    forall i | 0 <= i < |entities|
      ensures Fragments(entities, root, env)[2 * i + 1] == docs[i]
      ensures i + 1 < |entities| ==> Fragments(entities, root, env)[2 * i + 2] == Comma
    {
      InterleaveAt(docs, Comma, i);
    }
  }

  /** Writing out the interleaved fragments gives the comma-joined string. */
  lemma {:induction false} ConcatInterleave(docs: seq<string>, sep: string)
    ensures Concat(Interleave(docs, sep)) == Join(docs, sep)
  {
    if |docs| == 1 {
      assert Concat(docs) == docs[0] + Concat(docs[1..]);
    } else if |docs| > 1 {
      var rest := Interleave(docs[1..], sep);
      ConcatInterleave(docs[1..], sep);
      calc {
        Concat([docs[0], sep] + rest);
        { ConcatAppend([docs[0], sep], rest); }
        Concat([docs[0], sep]) + Concat(rest);
        { assert [docs[0], sep][1..] == [sep]; assert [sep][1..] == [];
          assert Concat([sep]) == sep + Concat([]); }
        docs[0] + sep + Join(docs[1..], sep);
      }
    }
  }

  /** The stream, written out, is the whole JSON body: `{"root":[` then the
      entities' documents joined by commas, then `]}`; for no entity this
      is `{"root":[]}`. */
  lemma {:induction false} FragmentsBody(entities: seq<Entity>, root: string, env: Env)
    ensures Concat(Fragments(entities, root, env)) == Body(entities, root, env)
    ensures |entities| == 0 ==> Body(entities, root, env) == "{\"" + root + "\":[]}"
  {
    var mid := Interleave(Dumped(entities, env), Comma);
    ConcatAppend([Opener(root)] + mid, [Closer]);
    ConcatAppend([Opener(root)], mid);
    ConcatInterleave(Dumped(entities, env), Comma);
    assert Concat([Opener(root)]) == Opener(root) + Concat([]);
    assert Concat([Closer]) == Closer + Concat([]);
    if |entities| == 0 {
      assert Dumped(entities, env) == [];
    }
  }
}
