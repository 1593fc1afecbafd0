/** `_extract_ids`: a comma-separated id list parsed into integers, with the
    pieces Python's `int()` rejects dropped.

    The plugin runs on Python 2, where a route argument is a `unicode` string
    and `int(u)` accepts optional blanks, an optional sign, optional blanks
    again, one or more decimal digits and optional trailing blanks; anything
    else raises `ValueError`. */
module Ids {
  import opened Wrappers
  import opened Text

  /** A blank to `int()`: the ASCII characters Python's unicode `isspace`
      accepts (tab to carriage return, the four separators 0x1C-0x1F, and the
      space). */
  predicate IsSpace(c: char)
  {
    var n := c as int;
    n == 32 || 9 <= n <= 13 || 28 <= n <= 31
  }

  predicate IsDigit(c: char)
  {
    '0' <= c <= '9'
  }

  predicate AllSpace(s: string)
  {
    forall i :: 0 <= i < |s| ==> IsSpace(s[i])
  }

  predicate AllDigits(s: string)
  {
    forall i :: 0 <= i < |s| ==> IsDigit(s[i])
  }

  /** The characters a token `int()` accepts can contain. */
  predicate IntChar(c: char)
  {
    IsSpace(c) || IsDigit(c) || c == '+' || c == '-'
  }

  /** The value of a string of decimal digits, most significant first. */
  function DigitsValue(d: string): nat
    requires AllDigits(d)
  {
    if |d| == 0 then 0
    else 10 * DigitsValue(d[..|d| - 1]) + ((d[|d| - 1] as int) - ('0' as int))
  }

  /** `s` without its leading blanks. */
  function TrimLeft(s: string): string
  {
    if |s| > 0 && IsSpace(s[0]) then TrimLeft(s[1..]) else s
  }

  /** `s` is its leading blanks followed by `TrimLeft(s)`. */
  lemma {:induction false} TrimLeftSplit(s: string) returns (blanks: string)
    ensures s == blanks + TrimLeft(s) && AllSpace(blanks)
    ensures |TrimLeft(s)| > 0 ==> !IsSpace(TrimLeft(s)[0])
  {
    if |s| > 0 && IsSpace(s[0]) {
      var more := TrimLeftSplit(s[1..]);
      blanks := [s[0]] + more;
      assert s == [s[0]] + s[1..];
    } else {
      blanks := "";
    }
  }

  function TrimRight(s: string): string
  {
    if |s| > 0 && IsSpace(s[|s| - 1]) then TrimRight(s[..|s| - 1]) else s
  }

  /** `s` is `TrimRight(s)` followed by its trailing blanks. */
  lemma {:induction false} TrimRightSplit(s: string) returns (blanks: string)
    ensures s == TrimRight(s) + blanks && AllSpace(blanks)
    ensures |TrimRight(s)| > 0 ==> !IsSpace(TrimRight(s)[|TrimRight(s)| - 1])
  {
    if |s| > 0 && IsSpace(s[|s| - 1]) {
      var more := TrimRightSplit(s[..|s| - 1]);
      blanks := more + [s[|s| - 1]];
      assert s == s[..|s| - 1] + [s[|s| - 1]];
    } else {
      blanks := "";
    }
  }

  /** An integer from its sign and its digits. */
  function SignedValue(negative: bool, digits: string): int
    requires AllDigits(digits)
  {
    var magnitude: int := DigitsValue(digits);
    if negative then -magnitude else magnitude
  }

  /** `int(token)`: Some(value), or None where `int()` raises `ValueError`. */
  function ParseInt(token: string): Option<int>
  {
    ParseSigned(TrimLeft(token))
  }

  /** `int()` once the leading blanks are gone: an optional sign, blanks,
      then digits followed only by blanks. */
  function ParseSigned(s: string): Option<int>
  {
    var signed := |s| > 0 && (s[0] == '+' || s[0] == '-');
    var digits := TrimRight(TrimLeft(if signed then s[1..] else s));
    if |digits| > 0 && AllDigits(digits) then Some(SignedValue(signed && s[0] == '-', digits))
    else None
  }

  /** A token of the shape `int()` accepts: blanks, an optional sign,
      blanks, one or more digits, blanks. */
  predicate IntShape(lead: string, sign: string, gap: string, digits: string, trail: string)
  {
    && AllSpace(lead) && AllSpace(gap) && AllSpace(trail)
    && (sign == "" || sign == "+" || sign == "-")
    && |digits| > 0 && AllDigits(digits)
  }

  lemma CharsOfShape(lead: string, sign: string, gap: string, digits: string, trail: string)
    requires IntShape(lead, sign, gap, digits, trail)
    ensures var t := lead + sign + gap + digits + trail;
      forall i :: 0 <= i < |t| ==> IntChar(t[i])
  {
    var t1 := lead + sign;
    assert forall i :: 0 <= i < |t1| ==> IntChar(t1[i]);
    var t2 := t1 + gap;
    assert forall i :: 0 <= i < |t2| ==> IntChar(t2[i]);
    var t3 := t2 + digits;
    assert forall i :: 0 <= i < |t3| ==> IntChar(t3[i]);
  }

  lemma NoSignIn(s: string)
    requires forall i :: 0 <= i < |s| ==> IsSpace(s[i]) || IsDigit(s[i])
    ensures multiset(s)['+'] == 0 && multiset(s)['-'] == 0
  {
    assert '+' !in s && '-' !in s;
  }

  lemma SignsOfShape(lead: string, sign: string, gap: string, digits: string, trail: string)
    requires IntShape(lead, sign, gap, digits, trail)
    ensures var t := lead + sign + gap + digits + trail;
      multiset(t)['+'] + multiset(t)['-'] == |sign|
  {
    NoSignIn(lead);
    NoSignIn(gap);
    NoSignIn(digits);
    NoSignIn(trail);
    var t := lead + sign + gap + digits + trail;
    assert multiset(t) == multiset(lead) + multiset(sign) + multiset(gap) + multiset(digits) + multiset(trail);
  }

  lemma JoinFive(token: string, lead: string, s: string, sign: string, afterSign: string,
                 gap: string, body: string, digits: string, trail: string)
    requires token == lead + s && s == sign + afterSign && afterSign == gap + body && body == digits + trail
    ensures token == lead + sign + gap + digits + trail
  {
  }

  /** The pieces `ParseInt` cuts an accepted token into. */
  lemma ShapeOfAccepted(token: string) returns (lead: string, sign: string, gap: string, digits: string, trail: string)
    requires ParseInt(token).Some?
    ensures IntShape(lead, sign, gap, digits, trail)
    ensures token == lead + sign + gap + digits + trail
    ensures ParseInt(token) == Some(SignedValue(sign == "-", digits))
  {
    var s := TrimLeft(token);
    lead := TrimLeftSplit(token);
    var signed := |s| > 0 && (s[0] == '+' || s[0] == '-');
    var afterSign := if signed then s[1..] else s;
    sign := if signed then [s[0]] else "";
    assert s == sign + afterSign;
    var body := TrimLeft(afterSign);
    gap := TrimLeftSplit(afterSign);
    digits := TrimRight(body);
    trail := TrimRightSplit(body);
    JoinFive(token, lead, s, sign, afterSign, gap, body, digits, trail);
    assert (sign == "-") == (signed && s[0] == '-');
  }

  /** What `int()` rejects: an accepted token holds a digit, is made of
      blanks, digits and signs only, has at most one sign, and is negative
      only if it holds a minus. */
  lemma ParseIntSound(token: string)
    requires ParseInt(token).Some?
    ensures exists i :: 0 <= i < |token| && IsDigit(token[i])
    ensures forall i :: 0 <= i < |token| ==> IntChar(token[i])
    ensures multiset(token)['+'] + multiset(token)['-'] <= 1
    ensures ParseInt(token).value < 0 ==> '-' in token
  {
    var lead, sign, gap, digits, trail := ShapeOfAccepted(token);
    CharsOfShape(lead, sign, gap, digits, trail);
    SignsOfShape(lead, sign, gap, digits, trail);
    assert token[|lead| + |sign| + |gap|] == digits[0];
    if ParseInt(token).value < 0 {
      assert sign == "-";
      assert token[|lead|] == '-';
    }
  }

  lemma {:induction false} TrimLeftBlanks(ws: string, t: string)
    requires AllSpace(ws)
    requires |t| == 0 || !IsSpace(t[0])
    ensures TrimLeft(ws + t) == t
  {
    if |ws| > 0 {
      assert (ws + t)[1..] == ws[1..] + t;
      TrimLeftBlanks(ws[1..], t);
    } else {
      assert ws + t == t;
    }
  }

  lemma {:induction false} TrimRightBlanks(t: string, ws: string)
    requires AllSpace(ws)
    requires |t| == 0 || !IsSpace(t[|t| - 1])
    ensures TrimRight(t + ws) == t
  {
    if |ws| > 0 {
      assert (t + ws)[..|t + ws| - 1] == t + ws[..|ws| - 1];
      TrimRightBlanks(t, ws[..|ws| - 1]);
    } else {
      assert t + ws == t;
    }
  }

  /** The digits and their trailing blanks, once both blank runs around the
      sign are gone. */
  lemma DigitsOfBody(digits: string, trail: string)
    requires |digits| > 0 && AllDigits(digits) && AllSpace(trail)
    ensures TrimLeft(digits + trail) == digits + trail
    ensures TrimRight(digits + trail) == digits
  {
    assert !IsSpace(digits[0]) && !IsSpace(digits[|digits| - 1]);
    TrimRightBlanks(digits, trail);
    TrimLeftBlanks("", digits + trail);
    assert "" + (digits + trail) == digits + trail;
  }

  lemma ParseSignedAccepts(sign: string, gap: string, digits: string, trail: string)
    requires IntShape("", sign, gap, digits, trail)
    ensures ParseSigned(sign + gap + digits + trail) == Some(SignedValue(sign == "-", digits))
  {
    DigitsOfBody(digits, trail);
    var s := sign + gap + digits + trail;
    if sign == "" {
      assert gap == "" ==> s == digits + trail;
      if gap != "" {
        assert s[0] == gap[0];
        assert s == gap + (digits + trail);
        TrimLeftBlanks(gap, digits + trail);
      }
    } else {
      assert s[1..] == gap + (digits + trail);
      TrimLeftBlanks(gap, digits + trail);
    }
  }

  /** Every token of the accepted shape parses, to its digits' value with the
      sign applied: blanks, an optional sign, blanks, digits, blanks. */
  lemma ParseIntAccepts(lead: string, sign: string, gap: string, digits: string, trail: string)
    requires IntShape(lead, sign, gap, digits, trail)
    ensures ParseInt(lead + sign + gap + digits + trail) == Some(SignedValue(sign == "-", digits))
  {
    var token := lead + sign + gap + digits + trail;
    assert !IsSpace(digits[0]);
    if sign == "" {
      assert token == (lead + gap) + (digits + trail);
      TrimLeftBlanks(lead + gap, digits + trail);
      ParseSignedAccepts("", "", digits, trail);
      assert "" + "" + digits + trail == digits + trail;
    } else {
      assert token == lead + (sign + gap + digits + trail);
      TrimLeftBlanks(lead, sign + gap + digits + trail);
      ParseSignedAccepts(sign, gap, digits, trail);
    }
  }

  /** The ids parsed from `tokens`, in order: each accepted token gives its
      value, each rejected one nothing. */
  function TokenIds(tokens: seq<string>): (ids: seq<int>)
    ensures |ids| <= |tokens|
  {
    if |tokens| == 0 then []
    else TokenIds(tokens[..|tokens| - 1]) + Parsed(tokens[|tokens| - 1])
  }

  /** The ids one piece gives: its value if `int()` accepts it, else none. */
  function Parsed(token: string): seq<int>
  {
    match ParseInt(token)
    case Some(n) => [n]
    case None => []
  }

  /** What `_extract_ids(s)` returns: never more ids than pieces, that is,
      than commas plus one. */
  function IdList(s: string): (ids: seq<int>)
    ensures |ids| <= multiset(s)[','] + 1
  {
    SplitCount(s, ',');
    TokenIds(Split(s, ','))
  }

  /** `_extract_ids`: one pass over the pieces of `s.split(',')`, appending
      the value of each piece `int()` accepts. */
  method ExtractIds(stringIds: string) returns (ids: seq<int>)
    ensures ids == IdList(stringIds)
  {
    ids := [];
    var tokens := Split(stringIds, ',');
    for i := 0 to |tokens|
      invariant ids == TokenIds(tokens[..i])
    {
      assert tokens[..i + 1][..i] == tokens[..i];
      var parsed := ParseInt(tokens[i]);
      if parsed.Some? {
        ids := ids + [parsed.value];
      }
    }
    assert tokens[..|tokens|] == tokens;
  }

  /** Parsing distributes over the pieces: the ids of two runs of pieces are
      the ids of the first run followed by those of the second, so order and
      duplicates are kept. */
  lemma {:induction false} TokenIdsAppend(a: seq<string>, b: seq<string>)
    ensures TokenIds(a + b) == TokenIds(a) + TokenIds(b)
    decreases |b|
  {
    if |b| == 0 {
      assert a + b == a;
    } else {
      var n := |b| - 1;
      assert (a + b)[..|a + b| - 1] == a + b[..n];
      assert (a + b)[|a + b| - 1] == b[n];
      TokenIdsAppend(a, b[..n]);
    }
  }

  /** The ids a single piece gives. */
  lemma TokenIdsOne(t: string)
    ensures TokenIds([t]) == Parsed(t)
  {
    assert [t][..0] == [];
  }

  lemma TokenIdsFive(a: string, b: string, c: string, d: string, e: string)
    ensures TokenIds([a, b, c, d, e]) == Parsed(a) + Parsed(b) + Parsed(c) + Parsed(d) + Parsed(e)
  {
    var t := [a, b, c, d, e];
    assert t[..4] + [e] == t && t[..3] + [d] == t[..4];
    assert t[..2] + [c] == t[..3] && [a] + [b] == t[..2];
    TokenIdsAppend(t[..4], [e]);
    TokenIdsAppend(t[..3], [d]);
    TokenIdsAppend(t[..2], [c]);
    TokenIdsAppend([a], [b]);
    TokenIdsOne(a);
    TokenIdsOne(b);
    TokenIdsOne(c);
    TokenIdsOne(d);
    TokenIdsOne(e);
  }

  /** An id is in the list exactly when some piece parses to it. */
  lemma {:induction false} TokenIdsMember(tokens: seq<string>, x: int)
    ensures x in TokenIds(tokens) <==> exists i :: 0 <= i < |tokens| && ParseInt(tokens[i]) == Some(x)
  {
    if |tokens| > 0 {
      var n := |tokens| - 1;
      var init := tokens[..n];
      TokenIdsMember(init, x);
      assert forall i :: 0 <= i < n ==> init[i] == tokens[i];
      if x in TokenIds(tokens) && x !in TokenIds(init) {
        assert ParseInt(tokens[n]) == Some(x);
      }
    }
  }

  /** No id survives exactly when no piece parses. */
  lemma {:induction false} TokenIdsNone(tokens: seq<string>)
    ensures TokenIds(tokens) == [] <==> forall i :: 0 <= i < |tokens| ==> ParseInt(tokens[i]).None?
  {
    if |tokens| > 0 {
      var n := |tokens| - 1;
      TokenIdsNone(tokens[..n]);
      assert forall i :: 0 <= i < n ==> tokens[..n][i] == tokens[i];
    }
  }

  lemma IdListEmpty()
    ensures IdList("") == []
  {
    assert Split("", ',') == [""];
    assert ParseInt("") == None;
  }

  lemma ExampleTokens()
    ensures Split("3,x,5,,7", ',') == ["3", "x", "5", "", "7"]
  {
    var tokens := ["3", "x", "5", "", "7"];
    assert Join(tokens[3..], ",") == ",7";
    assert Join(tokens[1..], ",") == "x,5,,7";
    assert IsSplitOf(tokens, "3,x,5,,7", ',');
    SplitUnique(tokens, "3,x,5,,7", ',');
  }

  lemma DigitParses(d: char)
    requires IsDigit(d)
    ensures ParseInt([d]) == Some((d as int) - ('0' as int))
  {
    ParseIntAccepts("", "", "", [d], "");
    assert "" + "" + "" + [d] + "" == [d];
    assert [d][..0] == "";
    assert DigitsValue([d]) == 10 * DigitsValue("") + ((d as int) - ('0' as int));
  }

  lemma ExampleParses()
    ensures ParseInt("3") == Some(3) && ParseInt("5") == Some(5) && ParseInt("7") == Some(7)
    ensures ParseInt("x") == None && ParseInt("") == None
  {
    DigitParses('3');
    DigitParses('5');
    DigitParses('7');
  }

  lemma ExampleIds()
    ensures TokenIds(["3", "x", "5", "", "7"]) == [3, 5, 7]
  {
    ExampleParses();
    TokenIdsFive("3", "x", "5", "", "7");
  }

  /** `"3,x,5,,7"` gives `[3, 5, 7]`: the `x` and the empty piece are dropped. */
  lemma IdListExample()
    ensures IdList("3,x,5,,7") == [3, 5, 7]
  {
    ExampleTokens();
    ExampleIds();
  }
}
