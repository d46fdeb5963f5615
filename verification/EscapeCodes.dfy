/**
 Removing terminal control sequences (section 5.4 of ECMA-48) from the bytes of a line, and why the
 result is still text.
 */
module EscapeCodes {
  import opened Outcomes
  import opened Utf8
  import opened Splitting

  const ESC := '\U{1B}'

  predicate IsFinal(code: int) {
    0x40 <= code <= 0x7E
  }

  // ---------------------------------------------------------------------------- the byte scanner --

  // What is left from the first final byte on.
  function DropParameters(b: Bytes): (r: Bytes)
    ensures |r| <= |b|
  {
    if b == [] || IsFinal(b[0] as int) then b else DropParameters(b[1..])
  }

  // What is left after the sequence that an ESC starts.
  function DropSequence(b: Bytes): (r: Bytes)
    requires b != []
    ensures |r| < |b|
  {
    if |b| > 1 && b[1] == 0x5B then
      var rest := DropParameters(b[2..]);
      if rest == [] then [] else rest[1..]
    else b[1..]
  }

  function StripBytes(b: Bytes): Bytes
    decreases |b|
  {
    if b == [] then []
    else if b[0] == 0x1B then StripBytes(DropSequence(b))
    else [b[0]] + StripBytes(b[1..])
  }

  // ------------------------------------------------------------------- what a line is made of --

  datatype Token =
    | Plain(c: char)
    | Control(parameters: string, final: char)
    | Unfinished(parameters: string)
    | Lone

  function PrintOne(token: Token): string {
    match token
    case Plain(c) => [c]
    case Control(parameters, final) => [ESC, '['] + (parameters + [final])
    case Unfinished(parameters) => [ESC, '['] + parameters
    case Lone => [ESC]
  }

  function Print(tokens: seq<Token>): string {
    if tokens == [] then [] else PrintOne(tokens[0]) + Print(tokens[1..])
  }

  predicate EndsSequence(c: char) {
    IsFinal(c as int)
  }

  // A token may stand before some text.
  ghost predicate Fits(token: Token, rest: string) {
    match token
    case Plain(c) => c != ESC
    case Control(parameters, final) => Free(EndsSequence, parameters) && EndsSequence(final)
    case Unfinished(parameters) => Free(EndsSequence, parameters) && rest == []
    case Lone => !(['['] <= rest)
  }

  ghost predicate WellFormed(tokens: seq<Token>) {
    tokens != [] ==> Fits(tokens[0], Print(tokens[1..])) && WellFormed(tokens[1..])
  }

  // The characters outside every control sequence, in order.
  function Plains(tokens: seq<Token>): (s: string)
    ensures WellFormed(tokens) ==> ESC !in s
  {
    if tokens == [] then [] else PlainOne(tokens[0]) + Plains(tokens[1..])
  }

  function PlainOne(token: Token): string {
    if token.Plain? then [token.c] else []
  }

  datatype Next = Next(token: Token, rest: string)

  function NextToken(s: string): (n: Next)
    requires s != []
    ensures Fits(n.token, n.rest) && PrintOne(n.token) + n.rest == s
  {
    if s[0] != ESC then Next(Plain(s[0]), s[1..])
    else if |s| > 1 && s[1] == '[' then
      var p := SplitAt(EndsSequence, s[2..]);
      if p.after == [] then Next(Unfinished(p.before), [])
      else Next(Control(p.before, p.after[0]), p.after[1..])
    else Next(Lone, s[1..])
  }

  function Parse(s: string): seq<Token>
    decreases |s|
  {
    if s == [] then [] else
    var n := NextToken(s);
    assert |PrintOne(n.token) + n.rest| == |s|;
    [n.token] + Parse(n.rest)
  }

  // Every line is made of such tokens …
  lemma {:induction false} ParseIsWellFormed(s: string)
    ensures WellFormed(Parse(s)) && Print(Parse(s)) == s
    decreases |s|
  {
    hide Fits, NextToken;
    if s != [] {
      var n := NextToken(s);
      assert |PrintOne(n.token) + n.rest| == |s|;
      ParseIsWellFormed(n.rest);
      assert Parse(s)[1..] == Parse(n.rest);
    }
  }

  lemma NextOfPrinted(token: Token, rest: string)
    requires Fits(token, rest)
    ensures NextToken(PrintOne(token) + rest) == Next(token, rest)
  {
    var s := PrintOne(token) + rest;
    match token
    case Plain(c) =>
      assert s[1..] == rest;
    case Control(parameters, final) =>
      var tail := [final] + rest;
      assert s[2..] == parameters + tail;
      SplitIsUnique(EndsSequence, parameters, tail);
    case Unfinished(parameters) =>
      assert s[2..] == parameters + [];
      SplitIsUnique(EndsSequence, parameters, []);
    case Lone =>
      assert s[1..] == rest;
  }

  // … in exactly one way.
  lemma {:induction false} ParseIsUnique(tokens: seq<Token>)
    requires WellFormed(tokens)
    ensures Parse(Print(tokens)) == tokens
  {
    hide NextToken, Fits;
    if tokens != [] {
      ParseIsUnique(tokens[1..]);
      NextOfPrinted(tokens[0], Print(tokens[1..]));
      assert tokens == [tokens[0]] + tokens[1..];
    }
  }

  // A control sequence ends at the first character from @ to ~, and nothing of it remains.
  lemma ControlIsRemoved(parameters: string, final: char, rest: string)
    requires '@' <= final <= '~' && forall c | c in parameters :: c < '@' || c > '~'
    ensures Plains(Parse("\U{1B}[" + (parameters + [final]) + rest)) == Plains(Parse(rest))
    ensures Plains(Parse("\U{1B}[" + parameters)) == []
  {
    hide Parse, Plains, NextToken;
    var t := Control(parameters, final);
    OneTokenLess(t, rest);
    assert PrintOne(t) + rest == "\U{1B}[" + (parameters + [final]) + rest;
    OneTokenLess(Unfinished(parameters), []);
    assert PrintOne(Unfinished(parameters)) + [] == "\U{1B}[" + parameters;
    NothingParsed();
  }

  // A lone ESC is removed and what follows stays.
  lemma LoneIsRemoved(rest: string)
    requires rest != [] ==> rest[0] != '['
    ensures Plains(Parse("\U{1B}" + rest)) == Plains(Parse(rest))
  {
    hide Parse, Plains, NextToken;
    OneTokenLess(Lone, rest);
    assert PrintOne(Lone) + rest == "\U{1B}" + rest;
  }

  lemma OneTokenLess(t: Token, rest: string)
    requires Fits(t, rest)
    ensures Plains(Parse(PrintOne(t) + rest)) == PlainOne(t) + Plains(Parse(rest))
  {
    hide NextToken;
    NextOfPrinted(t, rest);
    var s := PrintOne(t) + rest;
    assert |s| > 0;
    assert Parse(s) == [t] + Parse(rest);
    assert Parse(s)[1..] == Parse(rest);
  }

  lemma NothingParsed()
    ensures Plains(Parse([])) == []
  {
  }

  // ---------------------------------------------------------- bytes against characters --

  lemma {:induction false} DropWithin(b: Bytes, rest: Bytes)
    requires forall i | 0 <= i < |b| :: !IsFinal(b[i] as int)
    ensures DropParameters(b + rest) == DropParameters(rest)
  {
    if b == [] {
      assert b + rest == rest;
    } else {
      assert (b + rest)[1..] == b[1..] + rest;
      DropWithin(b[1..], rest);
    }
  }

  lemma CharIsDropped(c: char, rest: Bytes)
    requires !IsFinal(c as int)
    ensures DropParameters(EncodeChar(c) + rest) == DropParameters(rest)
  {
    EncodedBits(c);
    DropWithin(EncodeChar(c), rest);
  }

  lemma {:induction false} DropParametersOfText(s: string)
    ensures DropParameters(Encode(s)) == Encode(SplitAt(EndsSequence, s).after)
  {
    hide EncodeChar;
    if s != [] {
      if IsFinal(s[0] as int) {
        EncodedBits(s[0]);
      } else {
        DropParametersOfText(s[1..]);
        CharIsDropped(s[0], Encode(s[1..]));
      }
    }
  }

  lemma {:induction false} KeptWhole(b: Bytes, rest: Bytes)
    requires forall i | 0 <= i < |b| :: b[i] != 0x1B
    ensures StripBytes(b + rest) == b + StripBytes(rest)
  {
    if b == [] {
      assert b + rest == rest;
    } else {
      assert (b + rest)[1..] == b[1..] + rest;
      KeptWhole(b[1..], rest);
    }
  }

  lemma ControlBytes(s: string)
    ensures Encode([ESC, '['] + s) == [0x1B, 0x5B] + Encode(s)
  {
    EncodeConcat([ESC, '['], s);
    assert EncodeChar(ESC) == [0x1B] && EncodeChar('[') == [0x5B];
    assert [ESC, '['][1..] == ['['];
    assert Encode(['[']) == [0x5B];
  }

  lemma StripAfterControl(body: string)
    ensures var left := Encode(SplitAt(EndsSequence, body).after);
            StripBytes(Encode([ESC, '['] + body)) == StripBytes(if left == [] then [] else left[1..])
  {
    DropParametersOfText(body);
    ControlBytes(body);
    assert Encode([ESC, '['] + body)[2..] == Encode(body);
  }

  lemma StripControl(token: Token, rest: string)
    requires Fits(token, rest) && (token.Control? || token.Unfinished?)
    ensures StripBytes(Encode(PrintOne(token) + rest)) == StripBytes(Encode(rest))
  {
    hide StripBytes;
    var tail := if token.Control? then [token.final] + rest else [];
    var body := token.parameters + tail;
    SplitIsUnique(EndsSequence, token.parameters, tail);
    StripAfterControl(body);
    assert PrintOne(token) + rest == [ESC, '['] + body;
    if token.Control? {
      assert Encode(tail) == EncodeChar(token.final) + Encode(rest);
    }
  }

  lemma StripLone(rest: string)
    requires Fits(Lone, rest)
    ensures StripBytes(Encode([ESC] + rest)) == StripBytes(Encode(rest))
  {
    var b := Encode([ESC] + rest);
    assert EncodeChar(ESC) == [0x1B];
    assert b[1..] == Encode(rest);
    if rest != [] {
      assert b[1] == EncodeChar(rest[0])[0];
    }
  }

  lemma StripPlain(c: char, rest: string)
    requires c != ESC
    ensures StripBytes(Encode([c] + rest)) == Encode([c]) + StripBytes(Encode(rest))
  {
    EncodeConcat([c], rest);
    assert Encode([c]) == EncodeChar(c);
    KeptWhole(EncodeChar(c), Encode(rest));
  }

  // The byte scanner removes whole characters only: on text it removes exactly the control sequences.
  lemma {:induction false} StripRemovesWholeCharacters(s: string)
    ensures StripBytes(Encode(s)) == Encode(Plains(Parse(s)))
    decreases |s|
  {
    hide StripBytes, Encode, NextToken;
    if s == [] {
      NothingLeft();
    } else {
      var n := NextToken(s);
      assert |PrintOne(n.token) + n.rest| == |s|;
      StripRemovesWholeCharacters(n.rest);
      assert Plains(Parse(s)) == PlainOne(n.token) + Plains(Parse(n.rest));
      if n.token.Plain? {
        StripPlain(s[0], n.rest);
        EncodeConcat(PlainOne(n.token), Plains(Parse(n.rest)));
      } else if n.token.Lone? {
        StripLone(n.rest);
        assert [] + Plains(Parse(n.rest)) == Plains(Parse(n.rest));
      } else {
        StripControl(n.token, n.rest);
        assert [] + Plains(Parse(n.rest)) == Plains(Parse(n.rest));
      }
    }
  }

  lemma NothingLeft()
    ensures StripBytes([]) == [] && Encode([]) == [] && Plains([]) == []
  {
  }

  lemma {:induction false} PlainText(s: string)
    requires ESC !in s
    ensures Plains(Parse(s)) == s
  {
    if s != [] {
      assert s[0] in s;
      PlainText(s[1..]);
      assert NextToken(s) == Next(Plain(s[0]), s[1..]);
    }
  }

  // The stripped bytes are valid text, so converting them replaces nothing.
  lemma StrippedIsText(s: string)
    ensures var r := Lossy(StripBytes(Encode(s)));
            Encode(r) == StripBytes(Encode(s)) && r == Plains(Parse(s)) && ESC !in r
  {
    StripRemovesWholeCharacters(s);
    LossyOfText(Plains(Parse(s)));
    ParseIsWellFormed(s);
  }

  // Once stripped, a line has no ESC left and stripping again changes nothing.
  lemma StripIsIdempotent(s: string)
    ensures var once := Lossy(StripBytes(Encode(s)));
            ESC !in once && Lossy(StripBytes(Encode(once))) == once
  {
    StrippedIsText(s);
    var once := Plains(Parse(s));
    PlainText(once);
    StrippedIsText(once);
  }

  // ---------------------------------------------------------------------------- the procedure --

  lemma StripStep(b: Bytes, i: nat)
    requires i < |b|
    ensures b[i] != 0x1B ==> StripBytes(b[i..]) == [b[i]] + StripBytes(b[i + 1..])
    ensures b[i] == 0x1B ==> StripBytes(b[i..]) == StripBytes(DropSequence(b[i..]))
  {
    assert b[i..][1..] == b[i + 1..];
  }

  // The inner loop of strip_ansi: past one sequence
  method SkipSequence(bytes: Bytes, start: nat) returns (i: nat)
    requires start < |bytes| && bytes[start] == 0x1B
    ensures start < i <= |bytes| && bytes[i..] == DropSequence(bytes[start..])
  {
    i := start;
    if i + 1 < |bytes| && bytes[i + 1] == 0x5B {
      i := i + 2;
      assert bytes[start..][2..] == bytes[start + 2..];
      while i < |bytes| && !IsFinal(bytes[i] as int)
        invariant start + 2 <= i <= |bytes|
        invariant DropParameters(bytes[start + 2..]) == DropParameters(bytes[i..])
      {
        assert bytes[i..][1..] == bytes[i + 1..];
        i := i + 1;
      }
      if i < |bytes| {
        assert bytes[i..][1..] == bytes[i + 1..];
        i := i + 1;
      }
    } else {
      assert bytes[start..][1..] == bytes[i + 1..];
      i := i + 1;
    }
  }

  // strip_ansi
  method StripAnsi(s: string) returns (r: string)
    ensures Encode(r) == StripBytes(Encode(s)) && r == Plains(Parse(s)) && ESC !in r
  {
    hide *;
    var out: Bytes := [];
    var bytes := Encode(s);
    ghost var whole := StripBytes(bytes);
    var i := 0;
    while i < |bytes|
      invariant i <= |bytes|
      invariant whole == out + StripBytes(bytes[i..])
    {
      StripStep(bytes, i);
      if bytes[i] == 0x1B {
        i := SkipSequence(bytes, i);
        continue;
      }
      out := out + [bytes[i]];
      i := i + 1;
    }
    NothingLeft();
    assert bytes[i..] == [] && out == whole;
    StrippedIsText(s);
    return Lossy(out);
  }
}
