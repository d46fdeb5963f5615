/**
 What the scanners do hide: the value after the first key that stands alone, whatever follows the line.
 */
module SecretHiding {
  import opened Splitting
  import opened SecretScan
  import opened SecretRescan

  predicate IsBlank(c: char) {
    c == ' ' || c == '\t'
  }

  ghost predicate AllBlank(s: string) {
    forall c | c in s :: IsBlank(c)
  }

  // Between an assignment's key and its separator there may be blanks, and a closing quote among them.
  ghost predicate IsGap(kind: Kind, gap: string, lead: string, quote: string, trail: string) {
    && gap == lead + (quote + trail) && AllBlank(lead) && AllBlank(trail)
    && (quote == "" || quote == "\"" || quote == "'") && (quote == "" ==> trail == "")
    && (!kind.Assignment? ==> gap == "")
  }

  predicate Introduces(kind: Kind, c: char) {
    match kind
    case Bearer => IsWhitespace(c)
    case Assignment => c == '=' || c == ':'
    case Flag => c == '=' || IsWhitespace(c)
  }

  // A bare value up to where it ends, or a quoted one up to the same quote.
  ghost predicate IsValue(kind: Kind, open: string, value: string, rest: string) {
    && value != ""
    && if open == "" then Free(EndsSecret, value) && (rest != "" ==> EndsSecret(rest[0]))
       else
         && !kind.Bearer? && (open == "\"" || open == "'")
         && open[0] !in value && (rest != "" ==> rest[0] == open[0])
  }

  // Nothing that a token is made of ends it.
  lemma TokensAreWhole(c: char)
    requires || 'a' <= c <= 'z' || 'A' <= c <= 'Z' || '0' <= c <= '9' || c == '-' || c == '_' || c == '.' || c == '~'
             || c == '+' || c == '/' || c == '=' || c == ':' || c == '@' || c == '%'
    ensures !EndsSecret(c)
  {
  }

  lemma PunctuationEnds(c: char)
    requires c in "&#,;\"'`<>|(){}[]" || c == ' ' || '\t' <= c <= '\r'
    ensures EndsSecret(c)
  {
  }

  // A key stands alone unless a letter, a digit, an underscore or a hyphen runs into it.
  lemma StandsAloneIff(before: string)
    ensures Boundary(before) <==>
            before == "" ||
            var c := before[|before| - 1];
            !('a' <= c <= 'z' || 'A' <= c <= 'Z' || '0' <= c <= '9' || c == '_' || c == '-')
  {
  }

  // Case does not matter.
  lemma AnyCaseMatches(key: string, word: string)
    requires |key| == |word|
    requires forall i | 0 <= i < |key| ::
               word[i] == key[i] || ('a' <= key[i] <= 'z' && word[i] as int == key[i] as int - 32)
    ensures Matches(key, word)
  {
  }

  lemma BlanksThen(blanks: string, after: string)
    requires AllBlank(blanks) && (after != "" ==> !IsBlank(after[0]))
    ensures SplitAt(IsNotBlank, blanks + after) == Split(blanks, after)
  {
    assert Free(IsNotBlank, blanks);
    SplitIsUnique(IsNotBlank, blanks, after);
  }

  lemma BareIsFound(blanks: string, value: string, rest: string)
    requires AllBlank(blanks) && IsValue(Bearer, "", value, rest)
    ensures BareValue(blanks + (value + rest)) == Advance(blanks, value, rest)
    ensures (value + rest)[0] == value[0] && !IsBlank(value[0]) && !IsQuote(value[0])
  {
    assert value[0] in value;
    BlanksThen(blanks, value + rest);
    SplitIsUnique(EndsSecret, value, rest);
  }

  lemma RangeIsFound(kind: Kind, blanks: string, open: string, value: string, rest: string)
    requires AllBlank(blanks) && IsValue(kind, open, value, rest)
    ensures ValueRange(blanks + (open + (value + rest))) == Advance(blanks + open, value, rest)
  {
    var s := open + (value + rest);
    if open == "" {
      BareIsFound(blanks, value, rest);
      assert s == value + rest && blanks + open == blanks;
      BlanksThen(blanks, s);
    } else {
      assert s[0] == open[0] && s[1..] == value + rest && [s[0]] == open;
      BlanksThen(blanks, s);
      assert Free(UntilQuote(open[0]), value);
      SplitIsUnique(UntilQuote(open[0]), value, rest);
    }
  }

  lemma GapIsSkipped(kind: Kind, gap: string, lead: string, quote: string, trail: string, sep: char, after: string)
    requires kind.Assignment? && IsGap(kind, gap, lead, quote, trail) && Introduces(kind, sep)
    ensures ToSeparator(gap + ([sep] + after)) == Split(gap, [sep] + after)
  {
    var s := [sep] + after;
    if quote == "" {
      assert gap == lead;
      BlanksThen(lead, s);
    } else {
      var t := quote + (trail + s);
      assert gap + s == lead + t;
      assert t[0] == quote[0] && t[1..] == trail + s && [t[0]] == quote;
      BlanksThen(lead, t);
      BlanksThen(trail, s);
    }
  }

  // What follows a key that stands alone
  function Lead(gap: string, sep: char, blanks: string, open: string): string {
    gap + ([sep] + (blanks + open))
  }

  lemma SeparatorFinds(kind: Kind, sep: char, blanks: string, open: string, value: string, rest: string)
    requires Introduces(kind, sep) && AllBlank(blanks) && IsValue(kind, open, value, rest)
    ensures AfterSeparator(kind, [sep] + (blanks + (open + (value + rest)))) == Advance([sep] + (blanks + open), value, rest)
  {
    var x := blanks + (open + (value + rest));
    var s := [sep] + x;
    assert s[0] == sep && s[1..] == x;
    hide ValueRange, BareValue, IsValue, IsWhitespace;
    if kind.Bearer? {
      BearerIsBare(open, value, rest);
      assert x == blanks + (value + rest) && blanks + open == blanks;
      BareIsFound(blanks, value, rest);
    } else {
      RangeIsFound(kind, blanks, open, value, rest);
    }
  }

  lemma ProbeFindsValue(
    kind: Kind, gap: string, lead: string, quote: string, trail: string,
    sep: char, blanks: string, open: string, value: string, rest: string)
    requires IsGap(kind, gap, lead, quote, trail) && Introduces(kind, sep)
    requires AllBlank(blanks) && IsValue(kind, open, value, rest)
    ensures Probe(kind, Lead(gap, sep, blanks, open) + (value + rest)) == Advance(Lead(gap, sep, blanks, open), value, rest)
  {
    hide ToSeparator, IsValue, AfterSeparator, Introduces, AllBlank;
    var s := [sep] + (blanks + (open + (value + rest)));
    var tail := Lead(gap, sep, blanks, open) + (value + rest);
    assert tail == gap + s;
    SeparatorFinds(kind, sep, blanks, open, value, rest);
    if kind.Assignment? {
      GapIsSkipped(kind, gap, lead, quote, trail, sep, blanks + (open + (value + rest)));
    } else {
      assert gap == "" && tail == s;
    }
  }

  lemma BearerIsBare(open: string, value: string, rest: string)
    requires IsValue(Bearer, open, value, rest)
    ensures open == ""
  {
  }

  // One step of a scanner, at a key that stands alone.
  lemma StepHides(kind: Kind, key: string, front: string, word: string, middle: string, value: string, rest: string)
    requires |key| == |word| > 0 && Matches(key, word) && Boundary(front) && value != ""
    requires Probe(kind, middle + (value + rest)) == Advance(middle, value, rest)
    ensures Scan(kind, key, front, word + (middle + (value + rest)))
            == (word + middle) + (MARKER + Scan(kind, key, front + (word + middle) + value, rest))
  {
    var tail := middle + (value + rest);
    var s := word + tail;
    assert s[..|key|] == word && s[|key|..] == tail;
    assert Matches(key, s);
    hide Scan, Probe, Boundary, Matches;
    ScanStep(kind, key, front, s);
  }

  lemma SameLine(front: string, word: string, middle: string, after: string)
    ensures front + (word + (middle + after)) == front + (word + middle) + after
  {
  }

  // The value after the first occurrence of a key is hidden if the key stands alone there; everything
  // else up to the end of that value is kept, and the rest of the line is scanned on.
  lemma FirstIsHidden(
    kind: Kind, key: string, front: string, word: string, gap: string, lead: string, quote: string, trail: string,
    sep: char, blanks: string, open: string, value: string, rest: string)
    requires |key| == |word| > 0 && Matches(key, word) && Boundary(front)
    requires IsGap(kind, gap, lead, quote, trail) && Introduces(kind, sep)
    requires AllBlank(blanks) && IsValue(kind, open, value, rest)
    requires var after := word + (Lead(gap, sep, blanks, open) + (value + rest));
             forall i | 0 <= i < |front| :: !Matches(key, front[i..] + after)
    ensures var kept := front + (word + Lead(gap, sep, blanks, open));
            Scan(kind, key, "", kept + (value + rest)) == kept + (MARKER + Scan(kind, key, kept + value, rest))
  {
    hide Scan, Probe, Lead, IsGap, AllBlank, Introduces, Matches, Boundary;
    var middle := Lead(gap, sep, blanks, open);
    ProbeFindsValue(kind, gap, lead, quote, trail, sep, blanks, open, value, rest);
    StepHides(kind, key, front, word, middle, value, rest);
    UnmatchedIsKept(kind, key, "", front, word + (middle + (value + rest)));
    SameLine(front, word, middle, value + rest);
    var w := MARKER + Scan(kind, key, front + (word + middle) + value, rest);
    assert "" + front == front;
    hide *;
    assert front + ((word + middle) + w) == front + (word + middle) + w;
  }
}
