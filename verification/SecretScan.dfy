/**
 The three scanners that hide secret values in a line of text: after the word "bearer", after a key
 and a separator, and after a command-line flag.
 */
module SecretScan {
  import opened Splitting

  const MARKER := "[redacted]"

  // char::is_whitespace
  predicate IsWhitespace(c: char) {
    || '\U{9}' <= c <= '\U{D}'
    || c == ' ' || c == '\U{85}' || c == '\U{A0}' || c == '\U{1680}'
    || '\U{2000}' <= c <= '\U{200A}'
    || c == '\U{2028}' || c == '\U{2029}' || c == '\U{202F}' || c == '\U{205F}' || c == '\U{3000}'
  }

  predicate IsNotBlank(c: char) {
    c != ' ' && c != '\t'
  }

  predicate IsQuote(c: char) {
    c == '"' || c == '\''
  }

  // Where an unquoted value ends.
  predicate EndsSecret(c: char) {
    IsWhitespace(c) || c in "&#,;\"'`<>|(){}[]"
  }

  function Lower(c: char): char {
    if 'A' <= c <= 'Z' then (c as int + 32) as char else c
  }

  predicate Matches(key: string, s: string) {
    |key| <= |s| && forall i | 0 <= i < |key| :: Lower(s[i]) == Lower(key[i])
  }

  predicate IsKeyChar(c: char) {
    'A' <= c <= 'Z' || 'a' <= c <= 'z' || '0' <= c <= '9' || c == '_' || c == '-'
  }

  // A key counts only where no longer word runs into it.
  predicate Boundary(before: string) {
    before == [] || !IsKeyChar(before[|before| - 1])
  }

  // ------------------------------------------------------------------ what follows a key --

  datatype Probed =
    | Stop
    | Advance(kept: string, value: string, rest: string)

  predicate Is(q: char, c: char) {
    c == q
  }

  function UntilQuote(q: char): char -> bool {
    c => Is(q, c)
  }

  function Whole(r: Probed): string
    requires r.Advance?
  {
    r.kept + (r.value + r.rest)
  }

  function Prefixed(lead: string, r: Probed): (p: Probed)
    ensures r.Stop? ==> p.Stop?
    ensures r.Advance? ==> p.Advance? && Whole(p) == lead + Whole(r) && p.kept == lead + r.kept
  {
    if r.Stop? then r else
    assert lead + r.kept + (r.value + r.rest) == lead + (r.kept + (r.value + r.rest));
    Advance(lead + r.kept, r.value, r.rest)
  }

  // A value without quotes, after any blanks
  function BareValue(s: string): (r: Probed)
    ensures r.Advance? && Whole(r) == s
  {
    var b := SplitAt(IsNotBlank, s);
    var v := SplitAt(EndsSecret, b.after);
    Advance(b.before, v.before, v.after)
  }

  function QuotedValue(s: string): (r: Probed)
    requires s != []
    ensures r.Advance? && Whole(r) == s
  {
    var v := SplitAt(UntilQuote(s[0]), s[1..]);
    assert s == [s[0]] + (v.before + v.after);
    Advance([s[0]], v.before, v.after)
  }

  // secret_value_range
  function ValueRange(s: string): (r: Probed)
    ensures r.Advance? && Whole(r) == s
  {
    var b := SplitAt(IsNotBlank, s);
    if b.after != [] && IsQuote(b.after[0]) then Prefixed(b.before, QuotedValue(b.after)) else BareValue(s)
  }

  function SkipQuote(s: string): (r: Split)
    requires s != []
    ensures r.before + r.after == s && r.before != []
  {
    var b := SplitAt(IsNotBlank, s[1..]);
    assert s == [s[0]] + (b.before + b.after);
    Split([s[0]] + b.before, b.after)
  }

  // Between a key and its separator there may be blanks and the quote that closes the key.
  function ToSeparator(s: string): (r: Split)
    ensures r.before + r.after == s
  {
    var b := SplitAt(IsNotBlank, s);
    if b.after == [] || !IsQuote(b.after[0]) then b else
    var q := SkipQuote(b.after);
    assert b.before + (q.before + q.after) == (b.before + q.before) + q.after;
    Split(b.before + q.before, q.after)
  }

  datatype Kind = Bearer | Assignment | Flag

  predicate Separates(kind: Kind, c: char) {
    match kind
    case Bearer => IsWhitespace(c)
    case Assignment => c == '=' || c == ':'
    case Flag => c == '=' || IsWhitespace(c)
  }

  function AfterSeparator(kind: Kind, s: string): (r: Probed)
    requires s != []
    ensures r.Advance? && Whole(r) == s && r.kept != []
  {
    assert s == [s[0]] + s[1..] == [s[0]] + ([] + ([] + s[1..]));
    Prefixed([s[0]],
             if !Separates(kind, s[0]) then Advance([], [], s[1..])
             else if kind.Bearer? then BareValue(s[1..])
             else ValueRange(s[1..]))
  }

  // What follows a key that stands alone: at the end of the text the scanner stops.
  function Probe(kind: Kind, s: string): (r: Probed)
    ensures r.Advance? ==> Whole(r) == s && r.kept != []
  {
    var b := if kind.Assignment? then ToSeparator(s) else Split([], s);
    if b.after == [] then Stop else Prefixed(b.before, AfterSeparator(kind, b.after))
  }

  // --------------------------------------------------------------------------- the scanners --

  // What one step keeps and what it hides, which may be nothing; the text before decides whether a
  // key stands alone.
  function Next(kind: Kind, key: string, before: string, s: string): (r: Probed)
    requires key != [] && s != []
    ensures r.Advance? && Whole(r) == s && r.kept != [] && |r.rest| < |s|
  {
    if !Matches(key, s) then
      assert s == [s[0]] + ([] + s[1..]);
      Advance([s[0]], [], s[1..])
    else
      var word, tail := s[..|key|], s[|key|..];
      assert s == word + tail == word + ([] + tail) == s + ([] + []);
      if !Boundary(before) then Advance(word, [], tail)
      else
        var r := Probe(kind, tail);
        if r.Stop? then Advance(s, [], []) else Prefixed(word, r)
  }

  // The text before the rest of the line
  function Past(before: string, r: Probed): string
    requires r.Advance?
  {
    before + r.kept + r.value
  }

  // A stretch of text that is kept, then a secret value, or nothing.
  datatype Piece = Piece(kept: string, secret: string)

  function Pieces(kind: Kind, key: string, before: string, s: string): seq<Piece>
    requires key != []
    decreases |s|
  {
    if s == [] then [] else
    var r := Next(kind, key, before, s);
    [Piece(r.kept, r.value)] + Pieces(kind, key, Past(before, r), r.rest)
  }

  function Original(pieces: seq<Piece>): string {
    if pieces == [] then [] else pieces[0].kept + (pieces[0].secret + Original(pieces[1..]))
  }

  function Hidden(secret: string): string {
    if secret == [] then [] else MARKER
  }

  function Redacted(pieces: seq<Piece>): string {
    if pieces == [] then [] else pieces[0].kept + (Hidden(pieces[0].secret) + Redacted(pieces[1..]))
  }

  function Scan(kind: Kind, key: string, before: string, s: string): string
    requires key != []
  {
    Redacted(Pieces(kind, key, before, s))
  }

  // ---------------------------------------------------- only secret values are ever replaced --

  predicate IsSeparator(c: char) {
    IsWhitespace(c) || IsQuote(c) || c == '=' || c == ':'
  }

  // Some text ends with a key, standing alone, and separators.
  ghost predicate EndsWithKey(key: string, s: string) {
    exists i: nat, j: nat | i + |key| == j < |s| ::
      Boundary(s[..i]) && Matches(key, s[i..j]) && forall c | c in s[j..] :: IsSeparator(c)
  }

  ghost predicate IsBare(value: string, after: string) {
    Free(EndsSecret, value) && (after != [] ==> EndsSecret(after[0]))
  }

  ghost predicate IsEnclosed(before: string, value: string, after: string) {
    && before != []
    && var q := before[|before| - 1];
       IsQuote(q) && q !in value && (after != [] ==> after[0] == q)
  }

  ghost predicate IsSecret(key: string, before: string, secret: string, after: string) {
    && EndsWithKey(key, before)
    && (IsBare(secret, after) || IsEnclosed(before, secret, after))
  }

  // All that is replaced follows a key and runs exactly to the end of the value.
  ghost predicate OnlySecrets(key: string, before: string, pieces: seq<Piece>)
    decreases |pieces|
  {
    pieces != [] ==>
      var Piece(kept, secret) := pieces[0];
      && (secret != [] ==> IsSecret(key, before + kept, secret, Original(pieces[1..])))
      && OnlySecrets(key, before + kept + secret, pieces[1..])
  }

  ghost predicate FindsValue(r: Probed) {
    r.Advance? && r.value != [] ==>
      && (forall c | c in r.kept :: IsSeparator(c))
      && (IsBare(r.value, r.rest) || IsEnclosed(r.kept, r.value, r.rest))
  }

  lemma PrefixedFinds(lead: string, r: Probed)
    requires FindsValue(r) && forall c | c in lead :: IsSeparator(c)
    ensures FindsValue(Prefixed(lead, r))
  {
    if r.Advance? && r.value != [] && !IsBare(r.value, r.rest) {
      assert (lead + r.kept)[|lead + r.kept| - 1] == r.kept[|r.kept| - 1];
    }
  }

  lemma BlanksSeparate(s: string)
    requires Free(IsNotBlank, s)
    ensures forall c | c in s :: IsSeparator(c)
  {
    forall c | c in s ensures IsSeparator(c) {
      assert !IsNotBlank(c);
    }
  }

  lemma ValueRangeFinds(s: string)
    ensures FindsValue(ValueRange(s)) && FindsValue(BareValue(s))
  {
    var b := SplitAt(IsNotBlank, s);
    BlanksSeparate(b.before);
    if b.after != [] && IsQuote(b.after[0]) {
      var r := QuotedValue(b.after);
      var q := b.after[0];
      assert q !in r.value by {
        assert UntilQuote(q)(q);
      }
      PrefixedFinds(b.before, r);
    }
  }

  lemma ToSeparatorSeparates(s: string)
    ensures forall c | c in ToSeparator(s).before :: IsSeparator(c)
  {
    var b := SplitAt(IsNotBlank, s);
    BlanksSeparate(b.before);
    if b.after != [] && IsQuote(b.after[0]) {
      BlanksSeparate(SplitAt(IsNotBlank, b.after[1..]).before);
    }
  }

  lemma ProbeFinds(kind: Kind, s: string)
    ensures FindsValue(Probe(kind, s))
  {
    hide ToSeparator, ValueRange, BareValue, FindsValue, Prefixed;
    var b := if kind.Assignment? then ToSeparator(s) else Split([], s);
    ToSeparatorSeparates(s);
    if b.after == [] {
      StopFinds();
    } else {
      AfterSeparatorFinds(kind, b.after);
      PrefixedFinds(b.before, AfterSeparator(kind, b.after));
    }
  }

  lemma StopFinds()
    ensures FindsValue(Stop)
  {
  }

  lemma AfterSeparatorFinds(kind: Kind, s: string)
    requires s != []
    ensures FindsValue(AfterSeparator(kind, s))
  {
    hide ValueRange, BareValue;
    if Separates(kind, s[0]) {
      ValueRangeFinds(s[1..]);
      PrefixedFinds([s[0]], if kind.Bearer? then BareValue(s[1..]) else ValueRange(s[1..]));
    }
  }

  // Nothing but the values is lost: the pieces are the line, cut up.
  lemma {:induction false} PiecesAreTheLine(kind: Kind, key: string, before: string, s: string)
    requires key != []
    ensures Original(Pieces(kind, key, before, s)) == s
    decreases |s|
  {
    hide Next;
    if s != [] {
      var r := Next(kind, key, before, s);
      PiecesAreTheLine(kind, key, Past(before, r), r.rest);
    }
  }

  lemma KeyThenSeparators(key: string, before: string, word: string, kept: string)
    requires Boundary(before) && |word| == |key| && Matches(key, word)
    requires kept != [] && forall c | c in kept :: IsSeparator(c)
    ensures EndsWithKey(key, before + (word + kept))
  {
    var s := before + (word + kept);
    var i: nat, j: nat := |before|, |before| + |key|;
    assert s[..i] == before && s[i..j] == word && s[j..] == kept;
  }

  lemma EnclosedAfter(before: string, kept: string, value: string, after: string)
    requires IsEnclosed(kept, value, after)
    ensures IsEnclosed(before + kept, value, after)
  {
    assert (before + kept)[|before + kept| - 1] == kept[|kept| - 1];
  }

  lemma NextFindsSecret(kind: Kind, key: string, before: string, s: string)
    requires key != [] && s != []
    ensures var r := Next(kind, key, before, s);
            r.value != [] ==> IsSecret(key, before + r.kept, r.value, r.rest)
  {
    var r := Next(kind, key, before, s);
    if r.value != [] {
      var word, tail := s[..|key|], s[|key|..];
      var p := Probe(kind, tail);
      assert r == Prefixed(word, p) && r.kept == word + p.kept && Matches(key, word);
      hide Probe, Next, Prefixed, EndsWithKey, IsEnclosed, IsBare, Matches, IsSeparator, Boundary;
      ProbeFinds(kind, tail);
      KeyThenSeparators(key, before, word, p.kept);
      if IsEnclosed(p.kept, r.value, r.rest) {
        EnclosedAfter(word, p.kept, r.value, r.rest);
        EnclosedAfter(before, r.kept, r.value, r.rest);
      }
    }
  }

  lemma {:induction false} OnlySecretsAreHidden(kind: Kind, key: string, before: string, s: string)
    requires key != []
    ensures OnlySecrets(key, before, Pieces(kind, key, before, s))
    decreases |s|
  {
    hide Next, IsSecret, Original;
    if s != [] {
      var r := Next(kind, key, before, s);
      NextFindsSecret(kind, key, before, s);
      PiecesAreTheLine(kind, key, Past(before, r), r.rest);
      OnlySecretsAreHidden(kind, key, Past(before, r), r.rest);
    }
  }
}
