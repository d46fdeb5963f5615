/**
 The query part of the sign-in address: percent-encoding (sections 2.1 and 2.3 of RFC 3986), its
 decoder, the printer of the address and the parser of a query.
 */
module QueryCodec {
  import opened Outcomes
  import opened Utf8
  import opened Splitting
  import opened Ranking

  const CLIENT_ID := "solo-desktop"
  const CONNECT_PAGE := "/SoloCommunity/connect"

  predicate IsUnreserved(b: byte) {
    || 0x41 <= b <= 0x5A || 0x61 <= b <= 0x7A || 0x30 <= b <= 0x39
    || b == 0x2D || b == 0x2E || b == 0x5F || b == 0x7E
  }

  // ----------------------------------------------------------------------------- one component --

  function HexDigit(n: nat): (c: char)
    requires n < 16
    ensures '0' <= c <= '9' || 'A' <= c <= 'F'
  {
    if n < 10 then (48 + n) as char else (55 + n) as char
  }

  function EscapeByte(b: byte): string {
    if IsUnreserved(b) then [b as int as char]
    else ['%', HexDigit(b as int / 16), HexDigit(b as int % 16)]
  }

  function Escape(b: Bytes): string {
    if b == [] then [] else EscapeByte(b[0]) + Escape(b[1..])
  }

  // encode_component
  method EncodeComponent(value: string) returns (out: string)
    ensures out == Escape(Encode(value))
  {
    out := [];
    var bytes := Encode(value);
    ghost var whole := Escape(bytes);
    hide Encode, EscapeByte;
    for i := 0 to |bytes|
      invariant whole == out + Escape(bytes[i..])
    {
      assert bytes[i..][1..] == bytes[i + 1..];
      out := out + EscapeByte(bytes[i]);
    }
    assert bytes[|bytes|..] == [];
  }

  // A digit in base 16, in either case
  function Digit(b: byte): Option<nat> {
    if 0x30 <= b <= 0x39 then Some(b as int - 0x30)
    else if 0x41 <= b <= 0x46 then Some(b as int - 0x37)
    else if 0x61 <= b <= 0x66 then Some(b as int - 0x57)
    else None
  }

  // u8::from_str_radix(_, 16) of two bytes: a plus sign may stand for the first digit.
  function HexPair(a: byte, b: byte): (r: Option<byte>) {
    match Digit(b)
    case None => None
    case Some(low) =>
      if a == 0x2B then Some(low as byte)
      else match Digit(a)
           case None => None
           case Some(high) => Some((high * 16 + low) as byte)
  }

  // What the decoder does at the front of some bytes: the byte put out, and how many are taken.
  datatype Decoding = Decoding(out: byte, count: nat)

  function DecodeOne(b: Bytes): (t: Decoding)
    requires b != []
    ensures 1 <= t.count <= |b|
  {
    if b[0] == 0x25 && |b| > 2 then
      match HexPair(b[1], b[2])
      case Some(x) => Decoding(x, 3)
      case None => Decoding(b[0], 1)
    else if b[0] == 0x2B then Decoding(0x20, 1)
    else Decoding(b[0], 1)
  }

  function Unescape(b: Bytes): Bytes {
    if b == [] then [] else
    var t := DecodeOne(b);
    [t.out] + Unescape(b[t.count..])
  }

  function Decoded(value: string): string {
    Lossy(Unescape(Encode(value)))
  }

  // decode_component
  method DecodeComponent(value: string) returns (r: string)
    ensures r == Decoded(value)
  {
    hide Unescape, HexPair, Lossy, Encode;
    var bytes := Encode(value);
    ghost var whole := Unescape(bytes);
    var out: Bytes := [];
    var index := 0;
    while index < |bytes|
      invariant index <= |bytes| && whole == out + Unescape(bytes[index..])
    {
      UnescapeStep(bytes, index);
      if bytes[index] == 0x25 && index + 2 < |bytes| {
        var hex := HexPair(bytes[index + 1], bytes[index + 2]);
        if hex.Some? {
          out := out + [hex.value];
          index := index + 3;
        } else {
          out := out + [bytes[index]];
          index := index + 1;
        }
      } else if bytes[index] == 0x2B {
        out := out + [0x20];
        index := index + 1;
      } else {
        out := out + [bytes[index]];
        index := index + 1;
      }
    }
    UnescapeNothing();
    assert bytes[index..] == [] && out == whole;
    return Lossy(out);
  }

  lemma UnescapeNothing()
    ensures Unescape([]) == []
  {
  }

  lemma UnescapeStep(b: Bytes, i: nat)
    requires i < |b|
    ensures var hex := if b[i] == 0x25 && i + 2 < |b| then HexPair(b[i + 1], b[i + 2]) else None;
            Unescape(b[i..]) ==
            if hex.Some? then [hex.value] + Unescape(b[i + 3..])
            else [if b[i] == 0x2B then 0x20 else b[i]] + Unescape(b[i + 1..])
  {
    hide HexPair;
    assert b[i..][1..] == b[i + 1..];
    if i + 2 < |b| {
      assert b[i..][3..] == b[i + 3..];
    }
  }

  lemma DecodeEscaped(b: byte, rest: Bytes)
    ensures DecodeOne(Encode(EscapeByte(b)) + rest) == Decoding(b, |EscapeByte(b)|)
    ensures |Encode(EscapeByte(b))| == |EscapeByte(b)|
  {
    var s := EscapeByte(b);
    EncodeAscii(s);
    var n := b as int;
    assert n == n / 16 * 16 + n % 16;
  }

  lemma {:induction false} UnescapeEscaped(b: Bytes)
    ensures Unescape(Encode(Escape(b))) == b
  {
    if b != [] {
      EncodeConcat(EscapeByte(b[0]), Escape(b[1..]));
      DecodeEscaped(b[0], Encode(Escape(b[1..])));
      UnescapeEscaped(b[1..]);
    }
  }

  // Decoding undoes encoding, whatever the text.
  lemma RoundTrip(value: string)
    ensures Decoded(Escape(Encode(value))) == value
  {
    UnescapeEscaped(Encode(value));
    LossyOfText(value);
  }

  // A digit past nine may be in either case.
  lemma EitherCase(n: nat)
    requires 10 <= n < 16
    ensures Digit(('A' as int + n - 10) as byte) == Some(n) && Digit(('a' as int + n - 10) as byte) == Some(n)
  {
  }

  // What is escaped: all but letters, digits and four marks, each byte as a percent sign and two digits.
  lemma EscapedByte(b: byte)
    ensures var c := b as int as char;
            var kept := 'A' <= c <= 'Z' || 'a' <= c <= 'z' || '0' <= c <= '9' || c == '-' || c == '.' || c == '_' || c == '~';
            if kept then EscapeByte(b) == [c]
            else |EscapeByte(b)| == 3 && EscapeByte(b)[0] == '%' && forall i | 1 <= i < 3 ::
                   '0' <= EscapeByte(b)[i] <= '9' || 'A' <= EscapeByte(b)[i] <= 'F'
  {
  }

  // What RFC 3986 calls an escape: a percent sign and two digits in base 16.
  predicate IsEscape(b: Bytes) {
    |b| > 2 && b[0] == 0x25 && Digit(b[1]).Some? && Digit(b[2]).Some?
  }

  // A percent sign is kept as it stands if and only if no digit follows in the second place, or what is
  // in the first is neither a digit nor a plus sign.
  lemma PercentIsKeptIff(b: Bytes)
    requires b != [] && b[0] == 0x25
    ensures DecodeOne(b) == Decoding(0x25, 1) <==>
            |b| <= 2 || Digit(b[2]).None? || (b[1] != 0x2B && Digit(b[1]).None?)
  {
  }

  // So not every malformed escape is kept: it is swallowed exactly when a plus sign passes for a digit.
  lemma MalformedIsSwallowedIff(b: Bytes)
    requires b != [] && b[0] == 0x25 && !IsEscape(b)
    ensures DecodeOne(b) != Decoding(0x25, 1) <==> |b| > 2 && b[1] == 0x2B && Digit(b[2]).Some?
    ensures DecodeOne(b) != Decoding(0x25, 1) ==> DecodeOne(b) == Decoding(Digit(b[2]).value as byte, 3)
  {
    PercentIsKeptIff(b);
  }

  // In text, such an escape becomes one control character.
  lemma PlusPassesForDigit(c: char, rest: string)
    requires c as int < 0x80 && Digit(c as int as byte).Some?
    ensures Decoded("%+" + ([c] + rest)) == [Digit(c as int as byte).value as char] + Decoded(rest)
  {
    var digit := Digit(c as int as byte).value;
    EncodeConcat(['%', '+', c], rest);
    EncodeAscii(['%', '+', c]);
    assert "%+" + ([c] + rest) == ['%', '+', c] + rest;
    var b := Encode("%+" + ([c] + rest));
    assert b[3..] == Encode(rest);
    MalformedIsSwallowedIff(b);
    var after := Unescape(Encode(rest));
    assert Unescape(b) == [digit as byte] + after;
    assert ([digit as byte] + after)[1..] == after;
  }

  // ------------------------------------------------------------------------------- the address --

  datatype Field = Field(key: string, value: string)

  datatype LinkRequest = LinkRequest(
    baseUrl: string, redirectUri: string, challenge: string, state: string, deviceName: string)

  // What the account service is told, in order
  function Fields(request: LinkRequest): seq<Field> {
    [Field("client_id", CLIENT_ID),
     Field("code_challenge_method", "S256"),
     Field("redirect_uri", request.redirectUri),
     Field("code_challenge", request.challenge),
     Field("state", request.state),
     Field("device_name", request.deviceName)]
  }

  function TrimEnd(s: string): (r: string)
    ensures r <= s && forall i | |r| <= i < |s| :: s[i] == '/'
  {
    if s != [] && s[|s| - 1] == '/' then TrimEnd(s[..|s| - 1]) else s
  }

  function PrintField(f: Field): string {
    f.key + ("=" + Escape(Encode(f.value)))
  }

  function PrintQuery(fields: seq<Field>): string {
    if fields == [] then []
    else if |fields| == 1 then PrintField(fields[0])
    else PrintField(fields[0]) + ("&" + PrintQuery(fields[1..]))
  }

  function AuthorizeUrl(request: LinkRequest): string {
    TrimEnd(request.baseUrl) + CONNECT_PAGE + ("?" + PrintQuery(Fields(request)))
  }

  predicate IsQuestionMark(c: char) { c == '?' }
  predicate IsAmpersand(c: char) { c == '&' }
  predicate IsEquals(c: char) { c == '=' }

  // A piece without an equals sign is dropped.
  function PairOf(piece: string): seq<Field> {
    var p := SplitAt(IsEquals, piece);
    if p.after == [] then [] else [Field(Decoded(p.before), Decoded(p.after[1..]))]
  }

  // The first equals sign of a piece ends its key.
  lemma PieceIsPair(key: string, value: string)
    requires '=' !in key
    ensures PairOf(key) == []
    ensures PairOf(key + ("=" + value)) == [Field(Decoded(key), Decoded(value))]
  {
    hide Decoded;
    assert Free(IsEquals, key);
    SplitIsUnique(IsEquals, key, "=" + value);
    assert ("=" + value)[1..] == value;
    assert key + [] == key;
    SplitIsUnique(IsEquals, key, []);
  }

  function Pairs(query: string): seq<Field>
    decreases |query|
  {
    var p := SplitAt(IsAmpersand, query);
    if p.after == [] then PairOf(p.before) else
    assert |p.before + p.after| == |query|;
    PairOf(p.before) + Pairs(p.after[1..])
  }

  // query_pairs
  function QueryPairs(target: string): seq<Field> {
    var p := SplitAt(IsQuestionMark, target);
    if p.after == [] then [] else Pairs(p.after[1..])
  }

  // ------------------------------------------------------------------ parsing what was printed --

  predicate IsPlain(s: string) {
    forall i | 0 <= i < |s| :: s[i] as int < 0x80 && IsUnreserved(s[i] as int as byte)
  }

  lemma {:induction false} PlainIsUnchanged(s: string)
    requires IsPlain(s)
    ensures Escape(Encode(s)) == s
  {
    if s != [] {
      PlainIsUnchanged(s[1..]);
      assert Encode(s)[1..] == Encode(s[1..]);
    }
  }

  predicate IsDelimiter(c: char) {
    c == '&' || c == '=' || c == '?' || c == '+' || c == '#' || c == '/' || c == ' '
  }

  // Nothing in an encoded value can end it.
  lemma {:induction false} EscapedHasNoDelimiter(b: Bytes)
    ensures Free(IsDelimiter, Escape(b))
  {
    if b != [] {
      EscapedHasNoDelimiter(b[1..]);
    }
  }

  lemma PlainHasNoDelimiter(s: string)
    requires IsPlain(s)
    ensures Free(IsDelimiter, s)
  {
    PlainIsUnchanged(s);
    EscapedHasNoDelimiter(Encode(s));
  }

  lemma FreeOfAll(s: string)
    requires Free(IsDelimiter, s)
    ensures Free(IsAmpersand, s) && Free(IsEquals, s) && Free(IsQuestionMark, s)
  {
    forall c | c in s ensures !IsAmpersand(c) && !IsEquals(c) && !IsQuestionMark(c) {
      assert !IsDelimiter(c);
    }
  }

  lemma FieldParses(f: Field)
    requires IsPlain(f.key)
    ensures PairOf(PrintField(f)) == [f] && Free(IsAmpersand, PrintField(f))
  {
    var value := Escape(Encode(f.value));
    PlainHasNoDelimiter(f.key);
    EscapedHasNoDelimiter(Encode(f.value));
    FreeOfAll(f.key);
    FreeOfAll(value);
    SplitIsUnique(IsEquals, f.key, "=" + value);
    assert ("=" + value)[1..] == value;
    PlainIsUnchanged(f.key);
    RoundTrip(f.key);
    RoundTrip(f.value);
  }

  // Parsing goes piece by piece.
  lemma PairsCons(piece: string, rest: string)
    requires Free(IsAmpersand, piece)
    ensures Pairs(piece) == PairOf(piece)
    ensures Pairs(piece + ("&" + rest)) == PairOf(piece) + Pairs(rest)
  {
    hide PairOf, SplitAt;
    SplitIsUnique(IsAmpersand, piece, []);
    assert piece + [] == piece;
    SplitIsUnique(IsAmpersand, piece, "&" + rest);
    assert ("&" + rest)[1..] == rest;
  }

  lemma {:induction false} PairsConcat(a: string, b: string)
    ensures Pairs(a + ("&" + b)) == Pairs(a) + Pairs(b)
    decreases |a|
  {
    hide PairOf, Pairs;
    var p := SplitAt(IsAmpersand, a);
    assert a == p.before + p.after;
    if p.after == [] {
      assert p.before == a;
      PairsCons(a, b);
    } else {
      var a' := p.after[1..];
      assert p.after == "&" + a';
      PairsCons(p.before, a');
      PairsCons(p.before, a' + ("&" + b));
      PairsConcat(a', b);
      assert a + ("&" + b) == p.before + ("&" + (a' + ("&" + b)));
    }
  }

  lemma {:induction false} QueryParses(fields: seq<Field>)
    requires fields != [] && forall f | f in fields :: IsPlain(f.key)
    ensures Pairs(PrintQuery(fields)) == fields
  {
    hide PairOf, IsPlain, Pairs;
    var first := PrintField(fields[0]);
    FieldParses(fields[0]);
    assert fields == [fields[0]] + fields[1..];
    if |fields| > 1 {
      QueryParses(fields[1..]);
      PairsCons(first, PrintQuery(fields[1..]));
    } else {
      PairsCons(first, []);
    }
  }

  lemma KeysArePlain()
    ensures IsPlain("client_id") && IsPlain("code_challenge_method") && IsPlain("redirect_uri")
  {
  }

  lemma MoreArePlain()
    ensures IsPlain("code_challenge") && IsPlain("state") && IsPlain("device_name")
    ensures IsPlain(CLIENT_ID) && IsPlain("S256")
  {
  }

  lemma FieldsArePlain(request: LinkRequest)
    ensures forall f | f in Fields(request) :: IsPlain(f.key)
  {
    hide IsPlain;
    KeysArePlain();
    MoreArePlain();
  }

  // ------------------------------------------------------------- a question mark in the base --

  lemma {:induction false} SlashStays(b: Bytes)
    requires 0x2F in b
    ensures 0x2F in Unescape(b)
  {
    var t := DecodeOne(b);
    if b[0] != 0x2F {
      assert b == b[..t.count] + b[t.count..];
      assert forall i | 0 <= i < t.count :: b[i] != 0x2F;
      SlashStays(b[t.count..]);
    }
  }

  lemma {:induction false} SlashIsEncoded(s: string)
    requires '/' in s
    ensures 0x2F in Encode(s)
  {
    if s[0] == '/' {
      assert EncodeChar('/') == [0x2F];
    } else {
      SlashIsEncoded(s[1..]);
    }
  }

  lemma SlashSurvives(s: string)
    requires '/' in s
    ensures '/' in Decoded(s)
  {
    SlashIsEncoded(s);
    SlashStays(Encode(s));
    LossyKeepsAscii(Unescape(Encode(s)), '/');
  }

  predicate HasSlash(f: Field) {
    '/' in f.key || '/' in f.value
  }

  lemma PageIsClean()
    ensures Free(IsAmpersand, CONNECT_PAGE) && Free(IsEquals, CONNECT_PAGE) && Free(IsQuestionMark, CONNECT_PAGE)
    ensures '/' in CONNECT_PAGE
  {
    assert CONNECT_PAGE[0] == '/';
  }

  // What ends up in a piece that runs into the connect page
  function RunOn(f: Field): string {
    CONNECT_PAGE + ("?" + (f.key + ("=" + f.value)))
  }

  lemma FreeConcat(p: char -> bool, s: string, t: string)
    requires Free(p, s) && Free(p, t)
    ensures Free(p, s + t)
  {
  }

  lemma RunOnCutsOnce(f: Field)
    requires IsPlain(f.key) && IsPlain(f.value)
    ensures Free(IsAmpersand, RunOn(f))
    ensures RunOn(f) == (CONNECT_PAGE + ("?" + f.key)) + ("=" + f.value)
    ensures Free(IsEquals, CONNECT_PAGE + ("?" + f.key)) && '/' in CONNECT_PAGE + ("?" + f.key)
    ensures '/' in RunOn(f)
  {
    PageIsClean();
    PlainHasNoDelimiter(f.key);
    PlainHasNoDelimiter(f.value);
    FreeOfAll(f.key);
    FreeOfAll(f.value);
    hide IsPlain, CONNECT_PAGE;
    FreeConcat(IsAmpersand, "=", f.value);
    FreeConcat(IsAmpersand, f.key, "=" + f.value);
    FreeConcat(IsAmpersand, "?", f.key + ("=" + f.value));
    FreeConcat(IsAmpersand, CONNECT_PAGE, "?" + (f.key + ("=" + f.value)));
    FreeConcat(IsEquals, "?", f.key);
    FreeConcat(IsEquals, CONNECT_PAGE, "?" + f.key);
  }

  lemma SlashInPiece(piece: string, key: string, value: string)
    requires Free(IsEquals, key) && piece == key + ("=" + value) && ('/' in key || '/' in value)
    ensures PairOf(piece) == [Field(Decoded(key), Decoded(value))] && HasSlash(PairOf(piece)[0])
  {
    SplitIsUnique(IsEquals, key, "=" + value);
    assert ("=" + value)[1..] == value;
    if '/' in key {
      SlashSurvives(key);
    } else {
      SlashSurvives(value);
    }
  }

  lemma PieceHasSlash(y: string, f: Field)
    requires IsPlain(f.key) && IsPlain(f.value)
    ensures |PairOf(y + RunOn(f))| == 1 && HasSlash(PairOf(y + RunOn(f))[0])
  {
    hide PairOf, HasSlash, SplitAt, IsPlain, RunOn, CONNECT_PAGE;
    RunOnCutsOnce(f);
    var p := SplitAt(IsEquals, y);
    assert y == p.before + p.after;
    if p.after != [] {
      var value := p.after[1..] + RunOn(f);
      assert p.after == "=" + p.after[1..];
      assert y + RunOn(f) == p.before + ("=" + value);
      SlashInPiece(y + RunOn(f), p.before, value);
    } else {
      var page := CONNECT_PAGE + ("?" + f.key);
      assert y + RunOn(f) == (y + page) + ("=" + f.value);
      FreeConcat(IsEquals, y, page);
      SlashInPiece(y + RunOn(f), y + page, f.value);
    }
  }

  lemma {:induction false} LastPairHasSlash(y: string, f: Field)
    requires IsPlain(f.key) && IsPlain(f.value)
    ensures var pairs := Pairs(y + RunOn(f)); pairs != [] && HasSlash(pairs[|pairs| - 1])
    decreases |y|
  {
    hide PairOf, HasSlash, Pairs, RunOn, IsPlain, SplitAt;
    var p := SplitAt(IsAmpersand, y);
    assert y == p.before + p.after;
    if p.after == [] {
      PieceHasSlash(y, f);
      RunOnCutsOnce(f);
      FreeConcat(IsAmpersand, y, RunOn(f));
      PairsCons(y + RunOn(f), []);
    } else {
      var y' := p.after[1..];
      LastPairHasSlash(y', f);
      PairsConcat(p.before, y' + RunOn(f));
      assert p.after == "&" + y';
      assert y + RunOn(f) == p.before + ("&" + (y' + RunOn(f)));
    }
  }

  lemma QueryRunsOn(page: string, fields: seq<Field>)
    requires |fields| > 1 && IsPlain(fields[0].value)
    ensures page + ("?" + PrintQuery(fields))
         == page + ("?" + (fields[0].key + ("=" + fields[0].value))) + ("&" + PrintQuery(fields[1..]))
  {
    var f := fields[0];
    PlainIsUnchanged(f.value);
    hide Escape, Encode, IsPlain;
    var rest := "&" + PrintQuery(fields[1..]);
    var field := f.key + ("=" + f.value);
    assert PrintQuery(fields) == field + rest;
    hide *;
    assert "?" + (field + rest) == ("?" + field) + rest;
    assert page + (("?" + field) + rest) == page + ("?" + field) + rest;
  }

  lemma PairsAfterMark(front: string, query: string)
    requires Free(IsQuestionMark, front)
    ensures QueryPairs(front + ("?" + query)) == Pairs(query)
  {
    hide Pairs, SplitAt;
    SplitIsUnique(IsQuestionMark, front, "?" + query);
    assert ("?" + query)[1..] == query;
  }

  lemma AfterMark(before: string, y: string, page: string)
    requires Free(IsQuestionMark, before)
    ensures QueryPairs(before + ("?" + y) + page) == Pairs(y + page)
  {
    PairsAfterMark(before, y + page);
    hide *;
    assert before + ("?" + y) + page == before + ("?" + (y + page));
  }

  lemma MarkFound(base: string) returns (before: string, y: string)
    requires '?' in base
    ensures base == before + ("?" + y) && Free(IsQuestionMark, before)
  {
    var p := SplitAt(IsQuestionMark, base);
    assert p.before + p.after == base;
    assert p.after == [] ==> p.before == base;
    assert IsQuestionMark('?');
    before, y := p.before, p.after[1..];
    assert p.after == "?" + y;
  }

  lemma RunsOn(y: string, fields: seq<Field>)
    requires |fields| > 1 && IsPlain(fields[0].value) && forall f | f in fields :: IsPlain(f.key)
    ensures Pairs(y + (CONNECT_PAGE + ("?" + PrintQuery(fields)))) == Pairs(y + RunOn(fields[0])) + fields[1..]
  {
    hide PrintQuery, Pairs, IsPlain, CONNECT_PAGE;
    var rest := PrintQuery(fields[1..]);
    QueryRunsOn(CONNECT_PAGE, fields);
    QueryParses(fields[1..]);
    PairsConcat(y + RunOn(fields[0]), rest);
    assert y + (RunOn(fields[0]) + ("&" + rest)) == y + RunOn(fields[0]) + ("&" + rest);
  }

  // A question mark in front makes the connect page part of the first pair.
  lemma SecondQuery(base: string, fields: seq<Field>)
    requires '?' in base && |fields| > 1 && forall f | f in fields :: IsPlain(f.key)
    requires IsPlain(fields[0].value) && !HasSlash(fields[0])
    ensures QueryPairs(base + CONNECT_PAGE + ("?" + PrintQuery(fields))) != fields
  {
    hide PrintQuery, QueryPairs, Pairs, HasSlash, SplitAt, CONNECT_PAGE, IsPlain, RunOn;
    var before, y := MarkFound(base);
    var page := CONNECT_PAGE + ("?" + PrintQuery(fields));
    AfterMark(before, y, page);
    assert base + CONNECT_PAGE + ("?" + PrintQuery(fields)) == base + page;
    RunsOn(y, fields);
    LastPairHasSlash(y, fields[0]);
    var run := Pairs(y + RunOn(fields[0]));
    assert |run| == 1 ==> (run + fields[1..])[0] != fields[0];
  }

  lemma FirstQuery(base: string, fields: seq<Field>)
    requires '?' !in base && fields != [] && forall f | f in fields :: IsPlain(f.key)
    ensures QueryPairs(base + CONNECT_PAGE + ("?" + PrintQuery(fields))) == fields
  {
    hide PrintQuery, Pairs, QueryPairs, IsPlain, CONNECT_PAGE;
    var query := PrintQuery(fields);
    QueryParses(fields);
    PageIsClean();
    FreeConcat(IsQuestionMark, base, CONNECT_PAGE);
    PairsAfterMark(base + CONNECT_PAGE, query);
  }

  // The service reads back exactly what was sent, unless the base address has a query already.
  lemma AddressRoundTrips(request: LinkRequest)
    ensures QueryPairs(AuthorizeUrl(request)) ==
              [Field("client_id", "solo-desktop"),
               Field("code_challenge_method", "S256"),
               Field("redirect_uri", request.redirectUri),
               Field("code_challenge", request.challenge),
               Field("state", request.state),
               Field("device_name", request.deviceName)]
            <==> '?' !in request.baseUrl
  {
    hide QueryPairs, PrintQuery, IsPlain, CONNECT_PAGE;
    var base := TrimEnd(request.baseUrl);
    assert '?' in base <==> '?' in request.baseUrl by {
      MarkStays(request.baseUrl);
    }
    FieldsArePlain(request);
    MoreArePlain();
    assert !HasSlash(Fields(request)[0]);
    if '?' in base {
      SecondQuery(base, Fields(request));
    } else {
      FirstQuery(base, Fields(request));
    }
  }

  // The address is the connect page under the base without its last slashes.
  lemma AddressIsConnectPage(request: LinkRequest) returns (base: string, query: string)
    ensures AuthorizeUrl(request) == base + ("/SoloCommunity/connect?" + query)
    ensures base <= request.baseUrl && (base != [] ==> base[|base| - 1] != '/')
    ensures forall i | |base| <= i < |request.baseUrl| :: request.baseUrl[i] == '/'
  {
    hide TrimEnd, PrintQuery, Fields, CONNECT_PAGE;
    base, query := TrimEnd(request.baseUrl), PrintQuery(Fields(request));
    TrimmedEnd(request.baseUrl);
    PageText();
    OnePage(base, CONNECT_PAGE, query);
  }

  lemma PageText()
    ensures CONNECT_PAGE + "?" == "/SoloCommunity/connect?"
  {
  }

  lemma OnePage(base: string, page: string, query: string)
    ensures base + page + ("?" + query) == base + ((page + "?") + query)
  {
  }

  lemma TrimmedEnd(s: string)
    ensures TrimEnd(s) != [] ==> TrimEnd(s)[|TrimEnd(s)| - 1] != '/'
  {
  }

  lemma MarkStays(s: string)
    ensures '?' in TrimEnd(s) <==> '?' in s
  {
    var base := TrimEnd(s);
    if '?' in s {
      var i: nat :| i < |s| && s[i] == '?';
      assert base[i] == s[i];
    }
  }

  // ------------------------------------------------------------------------------ the procedure --

  lemma {:induction false} PrintQuerySnoc(fields: seq<Field>, f: Field)
    requires fields != []
    ensures PrintQuery(fields + [f]) == PrintQuery(fields) + ("&" + PrintField(f))
  {
    hide PrintField;
    assert (fields + [f])[1..] == fields[1..] + [f];
    if |fields| > 1 {
      PrintQuerySnoc(fields[1..], f);
    }
  }

  lemma PlainField(f: Field)
    requires IsPlain(f.value)
    ensures PrintField(f) == f.key + ("=" + f.value)
  {
    PlainIsUnchanged(f.value);
  }

  lemma NextField(page: string, fields: seq<Field>, f: Field)
    requires fields != []
    ensures page + ("?" + PrintQuery(fields + [f])) == page + ("?" + PrintQuery(fields)) + ("&" + PrintField(f))
  {
    PrintQuerySnoc(fields, f);
    hide *;
    var query, field := PrintQuery(fields), "&" + PrintField(f);
    assert page + ("?" + (query + field)) == page + ("?" + query) + field;
  }

  lemma FixedFields(page: string, a: Field, b: Field)
    requires IsPlain(a.value) && IsPlain(b.value)
    ensures page + ("?" + PrintQuery([a, b]))
         == page + ("?" + (a.key + ("=" + a.value))) + ("&" + (b.key + ("=" + b.value)))
  {
    hide IsPlain, PrintField;
    QueryRunsOn(page, [a, b]);
    PlainField(b);
    assert [a, b][1..] == [b];
  }

  // LinkRequest::authorize_url
  method PrintAuthorizeUrl(request: LinkRequest) returns (url: string)
    ensures url == AuthorizeUrl(request)
    ensures '?' !in request.baseUrl ==>
              QueryPairs(url) ==
                [Field("client_id", "solo-desktop"),
                 Field("code_challenge_method", "S256"),
                 Field("redirect_uri", request.redirectUri),
                 Field("code_challenge", request.challenge),
                 Field("state", request.state),
                 Field("device_name", request.deviceName)]
  {
    hide TrimEnd, PrintQuery, CONNECT_PAGE, IsPlain, Escape, Encode, QueryPairs;
    AddressRoundTrips(request);
    ghost var page := TrimEnd(request.baseUrl) + CONNECT_PAGE;
    MoreArePlain();
    var known := [Field("client_id", CLIENT_ID), Field("code_challenge_method", "S256")];
    FixedFields(page, known[0], known[1]);
    url := TrimEnd(request.baseUrl) + CONNECT_PAGE + ("?" + ("client_id" + ("=" + CLIENT_ID)))
           + ("&" + ("code_challenge_method" + ("=" + "S256")));
    var pairs := [
      Field("redirect_uri", request.redirectUri),
      Field("code_challenge", request.challenge),
      Field("state", request.state),
      Field("device_name", request.deviceName)];
    assert known + pairs[..0] == [known[0], known[1]];
    for i := 0 to |pairs|
      invariant url == page + ("?" + PrintQuery(known + pairs[..i]))
    {
      var encoded := EncodeComponent(pairs[i].value);
      NextField(page, known + pairs[..i], pairs[i]);
      assert known + pairs[..i] + [pairs[i]] == known + pairs[..i + 1];
      url := url + ("&" + (pairs[i].key + ("=" + encoded)));
    }
    assert known + pairs[..4] == Fields(request);
  }
}
