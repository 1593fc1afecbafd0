/** The Python string operations the web plugin relies on: `str.split` with a
    one-character separator, `str.join`, and the writing out of a stream of
    fragments one after the other (what a client receives). */
module Text {

  /** `sep.join(parts)` */
  function Join(parts: seq<string>, sep: string): string
  {
    if |parts| == 0 then ""
    else if |parts| == 1 then parts[0]
    else parts[0] + sep + Join(parts[1..], sep)
  }

  /** The fragments of a stream, written one after the other. */
  function Concat(fragments: seq<string>): string
  {
    if |fragments| == 0 then "" else fragments[0] + Concat(fragments[1..])
  }

  /** What it means for `parts` to be `s.split(c)`: at least one piece, no
      piece contains `c`, and joining the pieces with `c` gives `s` back. */
  predicate IsSplitOf(parts: seq<string>, s: string, c: char)
  {
    && |parts| >= 1
    && Join(parts, [c]) == s
    && forall i :: 0 <= i < |parts| ==> c !in parts[i]
  }

  /** `s.split(c)`: one more piece than there are separators in `s`; the
      empty string splits into one empty piece. */
  function Split(s: string, c: char): (parts: seq<string>)
    ensures IsSplitOf(parts, s, c)
  {
    if |s| == 0 then [""]
    else
      var rest := Split(s[1..], c);
      assert s == [s[0]] + s[1..];
      if s[0] == c then [""] + rest
      else
        assert rest == [rest[0]] + rest[1..];
        assert Join([[s[0]] + rest[0]] + rest[1..], [c]) == [s[0]] + Join(rest, [c]);
        [[s[0]] + rest[0]] + rest[1..]
  }

  /** There is one more piece than there are separators. */
  lemma {:induction false} SplitCount(s: string, c: char)
    ensures |Split(s, c)| == multiset(s)[c] + 1
  {
    if |s| > 0 {
      assert s == [s[0]] + s[1..];
      SplitCount(s[1..], c);
    }
  }

  lemma {:induction false} SplitWithout(s: string, c: char)
    requires c !in s
    ensures Split(s, c) == [s]
  {
    if |s| > 0 {
      assert s == [s[0]] + s[1..];
      SplitWithout(s[1..], c);
    }
  }

  lemma {:induction false} SplitCons(p: string, rest: string, c: char)
    requires c !in p
    ensures Split(p + [c] + rest, c) == [p] + Split(rest, c)
  {
    var s := p + [c] + rest;
    if |p| == 0 {
      assert s == [c] + rest && s[1..] == rest;
    } else {
      assert s[1..] == p[1..] + [c] + rest;
      assert p == [p[0]] + p[1..];
      SplitCons(p[1..], rest, c);
    }
  }

  /** `Split` is the only split: any sequence of pieces meeting `IsSplitOf`
      is the one `Split` computes. */
  lemma {:induction false} SplitUnique(parts: seq<string>, s: string, c: char)
    requires IsSplitOf(parts, s, c)
    ensures parts == Split(s, c)
    decreases |parts|
  {
    if |parts| == 1 {
      SplitWithout(s, c);
    } else {
      var tail := Join(parts[1..], [c]);
      assert s == parts[0] + [c] + tail;
      assert forall i :: 0 <= i < |parts[1..]| ==> parts[1..][i] == parts[i + 1];
      SplitUnique(parts[1..], tail, c);
      SplitCons(parts[0], tail, c);
      assert parts == [parts[0]] + parts[1..];
    }
  }

  lemma SplitUniqueAll(s: string, c: char)
    ensures forall parts :: IsSplitOf(parts, s, c) ==> parts == Split(s, c)
  {
    forall parts | IsSplitOf(parts, s, c) ensures parts == Split(s, c) {
      SplitUnique(parts, s, c);
    }
  }

  lemma {:induction false} ConcatAppend(a: seq<string>, b: seq<string>)
    ensures Concat(a + b) == Concat(a) + Concat(b)
  {
    if |a| > 0 {
      assert (a + b)[1..] == a[1..] + b;
      ConcatAppend(a[1..], b);
    } else {
      assert a + b == b;
    }
  }
}
