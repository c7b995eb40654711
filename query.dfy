/**
 * The query strings of the list requests: `buildQueryString` collects the
 * filter values that are set into a `URLSearchParams` and serialises it with
 * the application/x-www-form-urlencoded serializer of the WHATWG URL
 * Standard (section 5.2): each name and value is UTF-8 encoded, ASCII
 * letters, digits and `*-._` are kept, a space becomes `+`, every other byte
 * becomes `%XX` with upper-case hex digits, and the pairs are written
 * `name=value` joined by `&`.
 */
module Query {
  import opened Numbers
  import Sequences

  // ---------------------------------------------------------------------------
  // UTF-8 and percent-encoding.
  // ---------------------------------------------------------------------------

  /** The UTF-8 encoding of one Unicode scalar value (section 3.9 of The Unicode Standard). */
  function Utf8(c: char): (r: seq<nat>)
    ensures 1 <= |r| <= 4
    ensures forall i :: 0 <= i < |r| ==> r[i] < 256
    ensures (c as int < 0x80) <==> r == [c as int]
  {
    var cp := c as int;
    if cp < 0x80 then [cp]
    else if cp < 0x800 then [0xC0 + cp / 0x40, 0x80 + cp % 0x40]
    else if cp < 0x1_0000 then [0xE0 + cp / 0x1000, 0x80 + (cp / 0x40) % 0x40, 0x80 + cp % 0x40]
    else [0xF0 + cp / 0x4_0000, 0x80 + (cp / 0x1000) % 0x40, 0x80 + (cp / 0x40) % 0x40, 0x80 + cp % 0x40]
  }

  /** The UTF-8 bytes of a whole string. */
  function Utf8Bytes(s: string): (r: seq<nat>)
    ensures |s| <= |r|
  {
    if s == [] then [] else Utf8(s[0]) + Utf8Bytes(s[1..])
  }

  predicate IsHexDigit(c: char) {
    '0' <= c <= '9' || 'A' <= c <= 'F'
  }

  /** An upper-case hexadecimal digit. */
  function HexDigit(d: nat): (c: char)
    requires d < 16
    ensures IsHexDigit(c)
  {
    if d < 10 then ('0' as int + d) as char else ('A' as int + d - 10) as char
  }

  function HexValue(c: char): (d: nat)
    requires IsHexDigit(c)
    ensures d < 16
  {
    if c <= '9' then c as int - '0' as int else c as int - 'A' as int + 10
  }

  /** The code points the serializer leaves as they are. */
  predicate Unreserved(c: char) {
    || 'a' <= c <= 'z' || 'A' <= c <= 'Z' || '0' <= c <= '9'
    || c == '*' || c == '-' || c == '.' || c == '_'
  }

  /** `%XX` for each byte. */
  function PercentEncode(bytes: seq<nat>): (r: string)
    requires forall i :: 0 <= i < |bytes| ==> bytes[i] < 256
    ensures |r| == 3 * |bytes|
  {
    if bytes == [] then ""
    else ['%', HexDigit(bytes[0] / 16), HexDigit(bytes[0] % 16)] + PercentEncode(bytes[1..])
  }

  /** How the serializer writes one code point. */
  function EncodeChar(c: char): (r: string)
    ensures 1 <= |r|
  {
    if Unreserved(c) then [c]
    else if c == ' ' then "+"
    else PercentEncode(Utf8(c))
  }

  /** How the serializer writes a name or a value. */
  function Encode(s: string): (r: string)
    ensures |s| <= |r|
  {
    if s == [] then "" else EncodeChar(s[0]) + Encode(s[1..])
  }

  /**
   * The byte view of the form-urlencoded parser (WHATWG URL Standard,
   * section 5.1): `+` is byte 0x20, `%` and two hex digits is that byte, and
   * any other code point stands for its own UTF-8 bytes.
   */
  function DecodeBytes(s: string): (r: seq<nat>)
    decreases |s|
  {
    if s == [] then []
    else if s[0] == '+' then [0x20] + DecodeBytes(s[1..])
    else if s[0] == '%' && |s| >= 3 && IsHexDigit(s[1]) && IsHexDigit(s[2]) then
      [16 * HexValue(s[1]) + HexValue(s[2])] + DecodeBytes(s[3..])
    else Utf8(s[0]) + DecodeBytes(s[1..])
  }

  lemma HexRoundTrip(d: nat)
    requires d < 16
    ensures HexValue(HexDigit(d)) == d
  {
  }

  /** Decoding `%XX` triples gives back their bytes, whatever follows. */
  lemma {:induction false} DecodePercent(bytes: seq<nat>, rest: string)
    requires forall i :: 0 <= i < |bytes| ==> bytes[i] < 256
    ensures DecodeBytes(PercentEncode(bytes) + rest) == bytes + DecodeBytes(rest)
  {
    if bytes == [] {
      assert PercentEncode(bytes) + rest == rest;
    } else {
      var b := bytes[0];
      var tail := PercentEncode(bytes[1..]) + rest;
      calc {
        DecodeBytes(PercentEncode(bytes) + rest);
        { PercentCons(bytes, rest); }
        DecodeBytes(['%', HexDigit(b / 16), HexDigit(b % 16)] + tail);
        { DecodeTriple(b, tail); }
        [b] + DecodeBytes(tail);
        { DecodePercent(bytes[1..], rest); }
        [b] + (bytes[1..] + DecodeBytes(rest));
        { assert bytes == [b] + bytes[1..]; }
        bytes + DecodeBytes(rest);
      }
    }
  }

  /** The encoding of a byte string is the triple of its first byte, then the encoding of the others. */
  lemma PercentCons(bytes: seq<nat>, rest: string)
    requires bytes != [] && forall i :: 0 <= i < |bytes| ==> bytes[i] < 256
    ensures PercentEncode(bytes) + rest
            == ['%', HexDigit(bytes[0] / 16), HexDigit(bytes[0] % 16)] + (PercentEncode(bytes[1..]) + rest)
  {
    var head := ['%', HexDigit(bytes[0] / 16), HexDigit(bytes[0] % 16)];
    var tail := PercentEncode(bytes[1..]);
    assert PercentEncode(bytes) == head + tail;
    Sequences.AppendAssoc(head, tail, rest);
  }

  /** One `%XX` triple decodes to its byte. */
  lemma DecodeTriple(b: nat, tail: string)
    requires b < 256
    ensures DecodeBytes(['%', HexDigit(b / 16), HexDigit(b % 16)] + tail) == [b] + DecodeBytes(tail)
  {
    var hi, lo := HexDigit(b / 16), HexDigit(b % 16);
    var s := ['%', hi, lo] + tail;
    assert s[0] == '%' && s[1] == hi && s[2] == lo && s[3..] == tail;
    HexRoundTrip(b / 16);
    HexRoundTrip(b % 16);
  }

  /** Decoding one encoded code point gives back its UTF-8 bytes, whatever follows. */
  lemma DecodeEncodeChar(c: char, rest: string)
    ensures DecodeBytes(EncodeChar(c) + rest) == Utf8(c) + DecodeBytes(rest)
  {
    var s := EncodeChar(c) + rest;
    if Unreserved(c) || c == ' ' {
      assert s[0] != '%' && s[1..] == rest;
    } else {
      DecodePercent(Utf8(c), rest);
    }
  }

  /** Percent-decoding what the serializer writes gives back the UTF-8 bytes of the input. */
  lemma {:induction false} DecodeEncode(s: string)
    ensures DecodeBytes(Encode(s)) == Utf8Bytes(s)
  {
    if s != [] {
      DecodeEncode(s[1..]);
      DecodeEncodeChar(s[0], Encode(s[1..]));
    }
  }

  /** Serialised names and values never contain the separators `&` and `=`. */
  lemma {:induction false} EncodeNoSeparators(s: string)
    ensures '&' !in Encode(s) && '=' !in Encode(s)
  {
    if s != [] {
      EncodeNoSeparators(s[1..]);
      PercentNoSeparators(Utf8(s[0]));
    }
  }

  lemma {:induction false} PercentNoSeparators(bytes: seq<nat>)
    requires forall i :: 0 <= i < |bytes| ==> bytes[i] < 256
    ensures '&' !in PercentEncode(bytes) && '=' !in PercentEncode(bytes)
  {
    if bytes != [] {
      PercentNoSeparators(bytes[1..]);
    }
  }

  /** A string of unreserved code points is written as it is. */
  lemma {:induction false} EncodeUnreserved(s: string)
    requires forall i :: 0 <= i < |s| ==> Unreserved(s[i])
    ensures Encode(s) == s
  {
    if s != [] {
      EncodeUnreserved(s[1..]);
      assert s == [s[0]] + s[1..];
    }
  }

  // ---------------------------------------------------------------------------
  // buildQueryString.
  // ---------------------------------------------------------------------------

  /** A filter value as `Record<string, any>` holds it. */
  datatype ParamValue = Undefined | Null | Str(s: string) | Num(n: int)

  /** `value !== undefined && value !== null && value !== ''`. */
  predicate IsSet(v: ParamValue) {
    v != Undefined && v != Null && v != Str("")
  }

  /** `String(value)`. */
  function ValueText(v: ParamValue): string
    requires IsSet(v)
  {
    match v
    case Str(s) => s
    case Num(n) => IntToString(n)
  }

  /** The pairs `buildQueryString` appends, in the order of the entries. */
  function SetPairs(params: seq<(string, ParamValue)>): (r: seq<(string, string)>)
    ensures |r| <= |params|
  {
    if params == [] then []
    else
      var last := params[|params| - 1];
      SetPairs(params[..|params| - 1]) + (if IsSet(last.1) then [(last.0, ValueText(last.1))] else [])
  }

  /** One `name=value` pair as the serializer writes it. */
  function PairText(p: (string, string)): (r: string)
    ensures '&' !in r
  {
    EncodeNoSeparators(p.0);
    EncodeNoSeparators(p.1);
    Encode(p.0) + "=" + Encode(p.1)
  }

  /** `URLSearchParams.toString()`: the pairs joined by `&`. */
  function Serialize(pairs: seq<(string, string)>): (r: string)
    ensures pairs == [] <==> r == ""
  {
    if pairs == [] then ""
    else if |pairs| == 1 then PairText(pairs[0])
    else PairText(pairs[0]) + "&" + Serialize(pairs[1..])
  }

  /** What `buildQueryString` returns: nothing without pairs, otherwise `?` and the serialised pairs. */
  function QueryString(params: seq<(string, ParamValue)>): (q: string)
    ensures q == "" <==> SetPairs(params) == []
    ensures q != "" ==> q[0] == '?' && q[1..] == Serialize(SetPairs(params))
  {
    var text := Serialize(SetPairs(params));
    if text == "" then "" else "?" + text
  }

  /** `buildQueryString`, looping over the filter entries as the TypeScript client does. */
  method BuildQueryString(params: seq<(string, ParamValue)>) returns (q: string)
    ensures q == QueryString(params)
  {
    var searchParams: seq<(string, string)> := [];
    for i := 0 to |params|
      invariant searchParams == SetPairs(params[..i])
    {
      var (key, value) := params[i];
      assert params[..i + 1][..i] == params[..i];
      if IsSet(value) {
        searchParams := searchParams + [(key, ValueText(value))];
      }
    }
    assert params[..|params|] == params;
    var queryString := Serialize(searchParams);
    q := if queryString != "" then "?" + queryString else "";
  }

  // ---------------------------------------------------------------------------
  // Properties of buildQueryString.
  // ---------------------------------------------------------------------------

  /** Skipping keeps order: the pairs of a concatenation are the pairs of the parts. */
  lemma {:induction false} SetPairsAppend(a: seq<(string, ParamValue)>, b: seq<(string, ParamValue)>)
    ensures SetPairs(a + b) == SetPairs(a) + SetPairs(b)
    decreases |b|
  {
    if b == [] {
      assert a + b == a;
    } else {
      var ab := a + b;
      assert ab[..|ab| - 1] == a + b[..|b| - 1];
      assert ab[|ab| - 1] == b[|b| - 1];
      SetPairsAppend(a, b[..|b| - 1]);
    }
  }

  /** A pair survives exactly when its value is set, and then it reads `String(value)`. */
  lemma SetPairsOne(p: (string, ParamValue))
    ensures SetPairs([p]) == if IsSet(p.1) then [(p.0, ValueText(p.1))] else []
  {
    assert [p][..0] == [];
  }

  /** The result is empty exactly when no value is set. */
  lemma {:induction false} QueryStringEmpty(params: seq<(string, ParamValue)>)
    ensures QueryString(params) == "" <==> forall i :: 0 <= i < |params| ==> !IsSet(params[i].1)
  {
    NoPairs(params);
  }

  lemma {:induction false} NoPairs(params: seq<(string, ParamValue)>)
    ensures SetPairs(params) == [] <==> forall i :: 0 <= i < |params| ==> !IsSet(params[i].1)
  {
    if params != [] {
      var init := params[..|params| - 1];
      NoPairs(init);
      assert forall i :: 0 <= i < |init| ==> init[i] == params[i];
    }
  }

  // ---------------------------------------------------------------------------
  // Reading a query string back.
  // ---------------------------------------------------------------------------

  /** Splits `s` at every `sep`; always at least one piece. */
  function Split(s: string, sep: char): (r: seq<string>)
    ensures |r| >= 1
  {
    if sep !in s then [s]
    else
      var i := IndexOf(s, sep);
      [s[..i]] + Split(s[i + 1..], sep)
  }

  /** The position of the first `c` in `s`. */
  function IndexOf(s: string, c: char): (i: nat)
    requires c in s
    ensures i < |s| && s[i] == c && c !in s[..i]
  {
    if s[0] == c then 0
    else
      assert c in s[1..];
      var j := IndexOf(s[1..], c);
      assert s[..j + 1] == [s[0]] + s[1..][..j];
      j + 1
  }

  /** The form-urlencoded parser's view of a serialised query: name and value bytes of each pair. */
  function ParsePairs(s: string): seq<(seq<nat>, seq<nat>)> {
    var pieces := Split(s, '&');
    seq(|pieces|, k requires 0 <= k < |pieces| => ParsePair(pieces[k]))
  }

  /** A `name=value` piece split at its first `=`; a piece without `=` has an empty value. */
  function ParsePair(piece: string): (seq<nat>, seq<nat>) {
    if '=' in piece then
      var i := IndexOf(piece, '=');
      (DecodeBytes(piece[..i]), DecodeBytes(piece[i + 1..]))
    else (DecodeBytes(piece), [])
  }

  /** The pieces of a serialised list are the serialised pairs. */
  lemma {:induction false} SplitSerialize(pairs: seq<(string, string)>)
    requires pairs != []
    ensures Split(Serialize(pairs), '&') == seq(|pairs|, k requires 0 <= k < |pairs| => PairText(pairs[k]))
  {
    var first := PairText(pairs[0]);
    if |pairs| == 1 {
      assert '&' !in Serialize(pairs);
    } else {
      SplitSerialize(pairs[1..]);
      SplitAtFirst(first, Serialize(pairs[1..]));
    }
  }

  /** Splitting at the first separator peels off the text before it. */
  lemma SplitAtFirst(first: string, rest: string)
    requires '&' !in first
    ensures Split(first + "&" + rest, '&') == [first] + Split(rest, '&')
  {
    var s := first + "&" + rest;
    assert s[|first|] == '&';
    assert s[..|first|] == first;
    assert IndexOf(s, '&') == |first|;
    assert s[|first| + 1..] == rest;
  }

  /** Each serialised pair parses back to the UTF-8 bytes of its name and value. */
  lemma ParsePairText(p: (string, string))
    ensures ParsePair(PairText(p)) == (Utf8Bytes(p.0), Utf8Bytes(p.1))
  {
    var name := Encode(p.0);
    var piece := PairText(p);
    EncodeNoSeparators(p.0);
    assert piece == name + "=" + Encode(p.1);
    assert piece[|name|] == '=' && piece[..|name|] == name;
    assert IndexOf(piece, '=') == |name|;
    assert piece[|name| + 1..] == Encode(p.1);
    DecodeEncode(p.0);
    DecodeEncode(p.1);
  }

  /**
   * Round trip: parsing the query string `buildQueryString` returns gives
   * the UTF-8 bytes of every set name and value, in order.
   */
  lemma QueryRoundTrip(params: seq<(string, ParamValue)>)
    requires SetPairs(params) != []
    ensures var pairs := SetPairs(params);
            var q := QueryString(params);
            && q[0] == '?'
            && ParsePairs(q[1..]) == seq(|pairs|, k requires 0 <= k < |pairs| => (Utf8Bytes(pairs[k].0), Utf8Bytes(pairs[k].1)))
  {
    var pairs := SetPairs(params);
    var q := QueryString(params);
    assert q[1..] == Serialize(pairs);
    SplitSerialize(pairs);
    forall k | 0 <= k < |pairs|
      ensures ParsePair(PairText(pairs[k])) == (Utf8Bytes(pairs[k].0), Utf8Bytes(pairs[k].1))
    {
      ParsePairText(pairs[k]);
    }
  }

  /** The filters of a search for "rick" with no status on page 2. */
  lemma QueryExample()
    ensures QueryString([("name", Str("rick")), ("status", Str("")), ("page", Num(2))]) == "?name=rick&page=2"
  {
    ExamplePairs();
    ExampleSerialize();
    ExampleText();
  }

  lemma ExampleText()
    ensures "?" + "name=rick&page=2" == "?name=rick&page=2"
  {
  }

  /** The empty status is skipped and the page number is written in decimal. */
  lemma ExamplePairs()
    ensures SetPairs([("name", Str("rick")), ("status", Str("")), ("page", Num(2))]) == [("name", "rick"), ("page", "2")]
  {
    var params := [("name", Str("rick")), ("status", Str("")), ("page", Num(2))];
    assert params[..2][..1] == [params[0]] && params[..2][1] == params[1];
    assert SetPairs([params[0]]) == [("name", "rick")] by {
      SetPairsOne(params[0]);
    }
    assert SetPairs(params[..2]) == [("name", "rick")];
    assert IntToString(2) == "2";
  }

  lemma ExampleSerialize()
    ensures Serialize([("name", "rick"), ("page", "2")]) == "name=rick&page=2"
  {
    var pairs := [("name", "rick"), ("page", "2")];
    ExampleName();
    ExamplePage();
    assert pairs[1..] == [("page", "2")];
    assert Serialize(pairs) == "name=rick" + "&" + "page=2";
    ExampleJoin();
  }

  lemma ExampleJoin()
    ensures "name=rick" + "&" + "page=2" == "name=rick&page=2"
  {
  }

  lemma ExampleName()
    ensures PairText(("name", "rick")) == "name=rick"
  {
    ExamplePair("name", "rick");
  }

  lemma ExamplePage()
    ensures PairText(("page", "2")) == "page=2"
  {
    ExamplePair("page", "2");
  }

  /** A name and value of unreserved characters are written as they are. */
  lemma ExamplePair(name: string, value: string)
    requires forall i :: 0 <= i < |name| ==> Unreserved(name[i])
    requires forall i :: 0 <= i < |value| ==> Unreserved(value[i])
    ensures PairText((name, value)) == name + "=" + value
  {
    EncodeUnreserved(name);
    EncodeUnreserved(value);
  }
}
