/** Result and Option types shared by every module of the model. */
module Outcomes {
  datatype Option<+T> = None | Some(value: T)

  /** A value, or the code of the error the program raises. */
  datatype Result<+T> = Ok(value: T) | Err(code: string)
}

/** The RFC 6901 pointer codec of the manifest diff. */
module JsonPointer {
  import opened Outcomes
  import opened Keys

  type Token = string

  const INVALID_ESCAPING := "manifest diff path has invalid escaping"
  const NOT_A_POINTER := "manifest diff path must be an RFC 6901 pointer"

  // ---------------------------------------------------------------- escaping

  /** Replace every `c` with the text `to`. */
  function ReplaceChar(s: string, c: char, to: string): string {
    if s == [] then [] else (if s[0] == c then to else [s[0]]) + ReplaceChar(s[1..], c, to)
  }

  /** Replace every non-overlapping occurrence of the pair `a`,`b`, scanning left to right. */
  function ReplacePair(s: string, a: char, b: char, to: char): string {
    if s == [] then []
    else if |s| >= 2 && s[0] == a && s[1] == b then [to] + ReplacePair(s[2..], a, b, to)
    else [s[0]] + ReplacePair(s[1..], a, b, to)
  }

  function Escape(t: Token): string {
    ReplaceChar(ReplaceChar(t, '~', "~0"), '/', "~1")
  }

  function EscapeOne(c: char): string {
    if c == '~' then "~0" else if c == '/' then "~1" else [c]
  }

  lemma {:induction false} ReplaceCharConcat(s: string, t: string, c: char, to: string)
    ensures ReplaceChar(s + t, c, to) == ReplaceChar(s, c, to) + ReplaceChar(t, c, to)
  {
    if s == [] {
      assert s + t == t;
    } else {
      assert (s + t)[1..] == s[1..] + t;
      ReplaceCharConcat(s[1..], t, c, to);
    }
  }

  /** The two replacement passes escape each character on its own. */
  lemma EscapeStep(t: Token)
    requires t != []
    ensures Escape(t) == EscapeOne(t[0]) + Escape(t[1..])
  {
    var first := if t[0] == '~' then "~0" else [t[0]];
    ReplaceCharConcat(first, ReplaceChar(t[1..], '~', "~0"), '/', "~1");
    assert ReplaceChar(first, '/', "~1") == EscapeOne(t[0]) by {
      if t[0] == '~' {
        assert ReplaceChar("~0"[1..], '/', "~1") == "0" + ReplaceChar([], '/', "~1");
      }
    }
  }

  lemma {:induction false} EscapeHasNoSlash(t: Token)
    ensures '/' !in Escape(t)
  {
    if t != [] {
      EscapeStep(t);
      EscapeHasNoSlash(t[1..]);
    }
  }

  // ---------------------------------------------------------------- decoding

  /** The one-pass decoder: `~0` is `~`, `~1` is `/`, any other use of `~` is an error. */
  function DecodeToken(raw: string): Option<Token> {
    if raw == [] then Some([])
    else if raw[0] != '~' then
      match DecodeToken(raw[1..])
      case Some(rest) => Some([raw[0]] + rest)
      case None => None
    else if |raw| < 2 || (raw[1] != '0' && raw[1] != '1') then None
    else
      match DecodeToken(raw[2..])
      case Some(rest) => Some([if raw[1] == '0' then '~' else '/'] + rest)
      case None => None
  }

  /** The decoding section 4 of RFC 6901 prescribes: first `~1`, then `~0`. */
  function DecodeByReplacement(raw: string): Token {
    ReplacePair(ReplacePair(raw, '~', '1', '/'), '~', '0', '~')
  }

  /** A tilde that is last, or followed by anything but 0 and 1. */
  ghost predicate MalformedAt(raw: string, i: int) {
    0 <= i < |raw| && raw[i] == '~' && (i + 1 == |raw| || (raw[i + 1] != '0' && raw[i + 1] != '1'))
  }

  ghost predicate Malformed(raw: string) {
    exists i :: MalformedAt(raw, i)
  }

  /** After a character that is not malformed, with its escape, the rest decides. */
  lemma MalformedRest(raw: string, width: nat)
    requires raw != [] && !MalformedAt(raw, 0) && width == if raw[0] == '~' then 2 else 1
    ensures width <= |raw| && (Malformed(raw) <==> Malformed(raw[width..]))
  {
    if Malformed(raw[width..]) {
      var i :| MalformedAt(raw[width..], i);
      assert MalformedAt(raw, i + width);
    }
    if Malformed(raw) {
      var i :| MalformedAt(raw, i);
      assert i >= width && MalformedAt(raw[width..], i - width);
    }
  }

  /** The decoder rejects exactly the tokens with a malformed escape, and decodes the others as the
      two replacements do. */
  lemma {:induction false} DecodeMatchesRfc6901(raw: string)
    ensures DecodeToken(raw) == None <==> Malformed(raw)
    ensures DecodeToken(raw).Some? ==> DecodeToken(raw).value == DecodeByReplacement(raw)
  {
    if raw == [] || MalformedAt(raw, 0) {
    } else if raw[0] != '~' {
      MalformedRest(raw, 1);
      DecodeMatchesRfc6901(raw[1..]);
      var once := ReplacePair(raw[1..], '~', '1', '/');
      assert ([raw[0]] + once)[1..] == once;
    } else {
      MalformedRest(raw, 2);
      DecodeMatchesRfc6901(raw[2..]);
      ReplacedEscape(raw);
    }
  }

  /** One well-formed escape, replaced twice. */
  lemma ReplacedEscape(raw: string)
    requires |raw| >= 2 && raw[0] == '~' && (raw[1] == '0' || raw[1] == '1')
    ensures DecodeByReplacement(raw) == [if raw[1] == '0' then '~' else '/'] + DecodeByReplacement(raw[2..])
  {
    var once := ReplacePair(raw[2..], '~', '1', '/');
    if raw[1] == '1' {
      assert (['/'] + once)[1..] == once;
    } else {
      assert raw[1..][1..] == raw[2..];
      assert ReplacePair(raw, '~', '1', '/') == ['~'] + (['0'] + once);
      assert (['~'] + (['0'] + once))[2..] == once;
    }
  }

  lemma {:induction false} DecodeEscape(t: Token)
    ensures DecodeToken(Escape(t)) == Some(t)
  {
    if t != [] {
      EscapeStep(t);
      DecodeEscape(t[1..]);
      var head, rest := EscapeOne(t[0]), Escape(t[1..]);
      assert (head + rest)[|head|..] == rest;
      assert t == [t[0]] + t[1..];
      assert DecodeToken(head + rest) == Some([t[0]] + t[1..]);
    }
  }

  lemma {:induction false} EscapeDecode(raw: string)
    requires DecodeToken(raw).Some? && '/' !in raw
    ensures Escape(DecodeToken(raw).value) == raw
  {
    if raw != [] {
      var width := if raw[0] == '~' then 2 else 1;
      EscapeDecode(raw[width..]);
      EscapeStep(DecodeToken(raw).value);
      assert DecodeToken(raw).value[1..] == DecodeToken(raw[width..]).value;
      assert raw == raw[..width] + raw[width..];
    }
  }

  // ---------------------------------------------------------------- splitting

  /** Python's `s.split("/")`. */
  function Split(s: string): (r: seq<string>)
    ensures |r| >= 1
  {
    if s == [] then [[]]
    else if s[0] == '/' then [[]] + Split(s[1..])
    else var rest := Split(s[1..]); [[s[0]] + rest[0]] + rest[1..]
  }

  function Join(raws: seq<string>): string {
    if raws == [] then [] else "/" + raws[0] + Join(raws[1..])
  }

  lemma {:induction false} JoinSplit(s: string)
    ensures Join(Split(s)) == "/" + s
    ensures forall i | 0 <= i < |Split(s)| :: '/' !in Split(s)[i]
  {
    if s == [] {
      assert Join([[]]) == "/" + [] + Join([]);
    } else {
      JoinSplit(s[1..]);
      var rest := Split(s[1..]);
      assert s == [s[0]] + s[1..];
      if s[0] == '/' {
        assert ([[]] + rest)[1..] == rest;
      } else {
        JoinGrown(s[0], rest, s[1..]);
      }
    }
  }

  /** One more character in front of the first part. */
  lemma JoinGrown(c: char, rest: seq<string>, tail: string)
    requires rest != [] && Join(rest) == "/" + tail
    ensures Join([[c] + rest[0]] + rest[1..]) == "/" + ([c] + tail)
  {
    var all, more := [[c] + rest[0]] + rest[1..], Join(rest[1..]);
    assert all[0] == [c] + rest[0] && all[1..] == rest[1..];
    DropSlash(tail, rest[0], more);
    MoveBrackets(c, rest[0], more);
  }

  lemma DropSlash(tail: string, first: string, more: string)
    requires "/" + tail == "/" + first + more
    ensures tail == first + more
  {
    assert ("/" + tail)[1..] == tail;
    assert ("/" + first + more)[1..] == first + more;
  }

  lemma MoveBrackets(c: char, first: string, more: string)
    ensures "/" + ([c] + first) + more == "/" + ([c] + (first + more))
  {
  }

  lemma {:induction false} SplitFirst(e: string, tail: string)
    requires '/' !in e && (tail == [] || tail[0] == '/')
    ensures Split(e + tail) == [e] + (if tail == [] then [] else Split(tail[1..]))
  {
    if e == [] {
      assert e + tail == tail;
    } else {
      assert (e + tail)[1..] == e[1..] + tail;
      SplitFirst(e[1..], tail);
      assert [e[0]] + e[1..] == e;
    }
  }

  // ---------------------------------------------------------------- pointers

  function DecodeAll(raws: seq<string>): Option<seq<Token>> {
    if raws == [] then Some([])
    else match DecodeToken(raws[0])
      case None => None
      case Some(t) =>
        match DecodeAll(raws[1..])
        case None => None
        case Some(rest) => Some([t] + rest)
  }

  /** What a pointer text denotes. */
  function Parse(value: string): Result<seq<Token>> {
    if value == "" then Ok([])
    else if value[0] != '/' then Err(NOT_A_POINTER)
    else match DecodeAll(Split(value[1..]))
      case Some(tokens) => Ok(tokens)
      case None => Err(INVALID_ESCAPING)
  }

  /** The pointer text the diff writes for a list of keys. */
  function Encode(tokens: seq<Token>): string {
    if tokens == [] then "" else "/" + Escape(tokens[0]) + Encode(tokens[1..])
  }

  lemma {:induction false} EncodeSnoc(tokens: seq<Token>, key: Token)
    ensures Encode(tokens + [key]) == Encode(tokens) + "/" + Escape(key)
  {
    if tokens == [] {
      assert tokens + [key] == [key] && [key][1..] == [];
      assert Encode([key]) == "/" + Escape(key) + Encode([]);
    } else {
      assert (tokens + [key])[1..] == tokens[1..] + [key];
      EncodeSnoc(tokens[1..], key);
    }
  }

  lemma {:induction false} EncodeConcat(a: seq<Token>, b: seq<Token>)
    ensures Encode(a + b) == Encode(a) + Encode(b)
  {
    if a == [] {
      assert a + b == b;
    } else {
      assert (a + b)[1..] == a[1..] + b;
      EncodeConcat(a[1..], b);
    }
  }

  lemma {:induction false} DecodeAllEncode(tokens: seq<Token>)
    requires tokens != []
    ensures DecodeAll(Split(Encode(tokens)[1..])) == Some(tokens)
  {
    var e, tail := Escape(tokens[0]), Encode(tokens[1..]);
    assert Encode(tokens)[1..] == e + tail;
    EscapeHasNoSlash(tokens[0]);
    SplitFirst(e, tail);
    DecodeEscape(tokens[0]);
    if tokens[1..] != [] {
      DecodeAllEncode(tokens[1..]);
      assert ([e] + Split(tail[1..]))[1..] == Split(tail[1..]);
    } else {
      assert Split(e + tail)[1..] == [];
    }
    assert tokens == [tokens[0]] + tokens[1..];
  }

  lemma {:induction false} EncodeDecodeAll(raws: seq<string>)
    requires DecodeAll(raws).Some? && forall i | 0 <= i < |raws| :: '/' !in raws[i]
    ensures Encode(DecodeAll(raws).value) == Join(raws)
    ensures |DecodeAll(raws).value| == |raws|
  {
    if raws != [] {
      EscapeDecode(raws[0]);
      EncodeDecodeAll(raws[1..]);
      assert DecodeAll(raws).value[1..] == DecodeAll(raws[1..]).value;
    }
  }

  /** Parsing and encoding are inverse to each other, and a text is accepted
      exactly when it is the encoding of some list of tokens. */
  lemma PointerRoundTrip(value: string, tokens: seq<Token>)
    ensures Parse(Encode(tokens)) == Ok(tokens)
    ensures Parse(value) == Ok(tokens) <==> value == Encode(tokens)
  {
    if tokens != [] {
      DecodeAllEncode(tokens);
    }
    if Parse(value) == Ok(tokens) && value != "" {
      JoinSplit(value[1..]);
      EncodeDecodeAll(Split(value[1..]));
      assert value == "/" + value[1..];
    }
  }

  ghost function Prepend<T>(head: seq<T>, rest: Option<seq<T>>): Option<seq<T>> {
    match rest
    case Some(tail) => Some(head + tail)
    case None => None
  }

  lemma PrependTwice<T>(a: seq<T>, b: seq<T>, rest: Option<seq<T>>)
    ensures Prepend(a, Prepend(b, rest)) == Prepend(a + b, rest)
    ensures Prepend([], rest) == rest
  {
    if rest.Some? {
      assert a + (b + rest.value) == a + b + rest.value;
      assert [] + rest.value == rest.value;
    }
  }

  /** `decoded` is the decoding of the first `index` characters, if `raw` decodes at all. */
  ghost predicate DecodedUpTo(raw: string, index: nat, decoded: string) {
    index <= |raw| && DecodeToken(raw) == Prepend(decoded, DecodeToken(raw[index..]))
  }

  ghost predicate ParsedUpTo(raws: seq<string>, n: nat, tokens: seq<Token>) {
    n <= |raws| && DecodeAll(raws) == Prepend(tokens, DecodeAll(raws[n..]))
  }

  lemma DecodeStep(raw: string, index: nat, decoded: string)
    requires DecodedUpTo(raw, index, decoded) && index < |raw|
    ensures raw[index] != '~' ==> DecodedUpTo(raw, index + 1, decoded + [raw[index]])
    ensures raw[index] == '~' && index + 1 < |raw| && (raw[index + 1] == '0' || raw[index + 1] == '1') ==>
              DecodedUpTo(raw, index + 2, decoded + (if raw[index + 1] == '0' then "~" else "/"))
    ensures raw[index] == '~' && !(index + 1 < |raw| && (raw[index + 1] == '0' || raw[index + 1] == '1')) ==>
              DecodeToken(raw).None?
  {
    var suffix := raw[index..];
    assert suffix[1..] == raw[index + 1..];
    if raw[index] != '~' {
      PrependTwice(decoded, [raw[index]], DecodeToken(suffix[1..]));
    } else if index + 1 < |raw| && (raw[index + 1] == '0' || raw[index + 1] == '1') {
      assert suffix[2..] == raw[index + 2..];
      var c := if raw[index + 1] == '0' then "~" else "/";
      PrependTwice(decoded, c, DecodeToken(suffix[2..]));
      assert DecodeToken(suffix) == Prepend(c, DecodeToken(suffix[2..]));
    }
  }

  lemma ParseStep(raws: seq<string>, n: nat, tokens: seq<Token>)
    requires ParsedUpTo(raws, n, tokens) && n < |raws|
    ensures DecodeToken(raws[n]).None? ==> DecodeAll(raws).None?
    ensures DecodeToken(raws[n]).Some? ==> ParsedUpTo(raws, n + 1, tokens + [DecodeToken(raws[n]).value])
  {
    assert raws[n..][1..] == raws[n + 1..];
    if DecodeToken(raws[n]).Some? {
      PrependTwice(tokens, [DecodeToken(raws[n]).value], DecodeAll(raws[n + 1..]));
    }
  }

  /** The parser as the program runs it: an index loop over each raw token. */
  method ParsePointer(value: string) returns (r: Result<seq<Token>>)
    ensures r == Parse(value)
  {
    if value == "" {
      return Ok([]);
    }
    if value[0] != '/' {
      return Err(NOT_A_POINTER);
    }
    var raws := Split(value[1..]);
    var tokens: seq<Token> := [];
    assert raws[0..] == raws;
    PrependTwice([], [], DecodeAll(raws));
    for n := 0 to |raws|
      invariant ParsedUpTo(raws, n, tokens)
    {
      var raw := raws[n];
      var index := 0;
      var decoded := "";
      assert raw[0..] == raw;
      PrependTwice([], [], DecodeToken(raw));
      ParseStep(raws, n, tokens);
      while index < |raw|
        invariant DecodedUpTo(raw, index, decoded)
      {
        DecodeStep(raw, index, decoded);
        if raw[index] != '~' {
          decoded := decoded + [raw[index]];
          index := index + 1;
          continue;
        }
        if index + 1 >= |raw| || (raw[index + 1] != '0' && raw[index + 1] != '1') {
          return Err(INVALID_ESCAPING);
        }
        decoded := decoded + (if raw[index + 1] == '0' then "~" else "/");
        index := index + 2;
      }
      assert DecodeToken(raw) == Some(decoded) by {
        assert decoded + [] == decoded;
      }
      tokens := tokens + [decoded];
    }
    assert tokens + [] == tokens;
    return Ok(tokens);
  }

  // ---------------------------------------------------------------- ancestry

  /** True when both texts are pointers and the first addresses an enclosing value. */
  predicate IsPointerAncestor(parent: string, child: string) {
    var p, c := Parse(parent), Parse(child);
    p.Ok? && c.Ok? && |p.value| < |c.value| && c.value[..|p.value|] == p.value
  }

  /** An ancestor's text is a proper prefix of its descendant's, so it sorts strictly earlier. */
  lemma AncestorSortsEarlier(parent: string, child: string)
    requires IsPointerAncestor(parent, child)
    ensures TextLess(parent, child)
  {
    var p, c := Parse(parent).value, Parse(child).value;
    PointerRoundTrip(parent, p);
    PointerRoundTrip(child, c);
    assert c == p + c[|p|..];
    EncodeConcat(p, c[|p|..]);
    assert parent < child;
    PrefixSortsEarlier(parent, child);
  }
}
