/**
 The redacting loops, which work with positions in the line, do what the scanners say.
 */
module RedactLoops {
  import opened Outcomes
  import opened Splitting
  import opened SecretScan
  import opened SecretRescan

  // ------------------------------------------------------------------------ searching for a key --

  // str::find from some position on, ignoring case
  function Find(key: string, input: string, cursor: nat): (r: Option<nat>)
    requires cursor <= |input|
    ensures r.Some? ==> cursor <= r.value && r.value + |key| <= |input| && Matches(key, input[r.value..])
    ensures forall k | cursor <= k < (if r.Some? then r.value else |input|) :: !Matches(key, input[k..])
    decreases |input| - cursor
  {
    if Matches(key, input[cursor..]) then Some(cursor)
    else if cursor == |input| then None
    else Find(key, input, cursor + 1)
  }

  // What the scanner makes of a line from some position on
  ghost function From(kind: Kind, key: string, input: string, i: nat): string
    requires key != [] && i <= |input|
  {
    Scan(kind, key, input[..i], input[i..])
  }

  lemma UnmatchedStretch(kind: Kind, key: string, input: string, i: nat, j: nat)
    requires key != [] && i <= j <= |input| && forall k | i <= k < j :: !Matches(key, input[k..])
    ensures From(kind, key, input, i) == input[i..j] + From(kind, key, input, j)
  {
    hide Scan, Matches;
    var t, w := input[i..j], input[j..];
    assert t + w == input[i..] && input[..i] + t == input[..j];
    forall k | 0 <= k < |t| ensures !Matches(key, t[k..] + w) {
      assert t[k..] + w == input[i + k..];
    }
    UnmatchedIsKept(kind, key, input[..i], t, w);
  }

  // ------------------------------------------------------------------- positions and slices --

  ghost predicate Slices(r: Probed, input: string, i: nat, a: nat, b: nat) {
    i <= a <= b <= |input| && r == Advance(input[i..a], input[a..b], input[b..])
  }

  lemma PrefixedSlices(r: Probed, input: string, i: nat, j: nat, a: nat, b: nat)
    requires i <= j && Slices(r, input, j, a, b)
    ensures Slices(Prefixed(input[i..j], r), input, i, a, b)
  {
    assert input[i..j] + input[j..a] == input[i..a];
  }

  lemma SplitSlices(p: char -> bool, input: string, i: nat, j: nat)
    requires i <= j <= |input|
    requires Free(p, input[i..j]) && (j < |input| ==> p(input[j]))
    ensures SplitAt(p, input[i..]) == Split(input[i..j], input[j..])
  {
    assert input[i..] == input[i..j] + input[j..];
    SplitIsUnique(p, input[i..j], input[j..]);
  }

  // One step of a scanner, between positions of the line
  lemma Jump(kind: Kind, key: string, input: string, i: nat, a: nat, b: nat)
    requires key != [] && i < |input| && Slices(Next(kind, key, input[..i], input[i..]), input, i, a, b)
    ensures From(kind, key, input, i) == input[i..a] + (Hidden(input[a..b]) + From(kind, key, input, b))
  {
    hide Scan, Next;
    ScanStep(kind, key, input[..i], input[i..]);
    assert input[..i] + input[i..a] + input[a..b] == input[..b];
  }

  // What the loop has written, and what is still to come, after one step
  lemma Resume(kind: Kind, key: string, input: string, cursor: nat, start: nat, a: nat, b: nat,
               out: string, whole: string)
    requires key != [] && cursor <= start < |input|
    requires whole == out + From(kind, key, input, cursor)
    requires From(kind, key, input, cursor) == input[cursor..start] + From(kind, key, input, start)
    requires Slices(Next(kind, key, input[..start], input[start..]), input, start, a, b)
    ensures start < a <= b <= |input|
    ensures whole == out + input[cursor..a] + Hidden(input[a..b]) + From(kind, key, input, b)
  {
    hide From, Next, Hidden;
    Jump(kind, key, input, start, a, b);
    assert input[cursor..start] + input[start..a] == input[cursor..a];
  }

  lemma ResumeKept(kind: Kind, key: string, input: string, cursor: nat, start: nat, a: nat,
                   out: string, whole: string)
    requires key != [] && cursor <= start < |input|
    requires whole == out + From(kind, key, input, cursor)
    requires From(kind, key, input, cursor) == input[cursor..start] + From(kind, key, input, start)
    requires Slices(Next(kind, key, input[..start], input[start..]), input, start, a, a)
    ensures start < a && whole == out + input[cursor..a] + From(kind, key, input, a)
  {
    hide From, Next;
    Resume(kind, key, input, cursor, start, a, a, out, whole);
    assert input[a..a] == [] && out + input[cursor..a] + [] == out + input[cursor..a];
  }

  // A key inside a longer word is kept.
  lemma JumpWord(kind: Kind, key: string, input: string, i: nat)
    requires key != [] && i < |input| && Matches(key, input[i..]) && !Boundary(input[..i])
    ensures Slices(Next(kind, key, input[..i], input[i..]), input, i, i + |key|, i + |key|)
  {
    var s := input[i..];
    assert s[..|key|] == input[i..i + |key|] && s[|key|..] == input[i + |key|..];
    assert input[i + |key|..i + |key|] == [];
  }

  lemma JumpKey(kind: Kind, key: string, input: string, i: nat, a: nat, b: nat)
    requires key != [] && i < |input| && Matches(key, input[i..]) && Boundary(input[..i])
    requires Slices(Probe(kind, input[i + |key|..]), input, i + |key|, a, b)
    ensures Slices(Next(kind, key, input[..i], input[i..]), input, i, a, b)
  {
    hide Probe;
    var s, k := input[i..], i + |key|;
    assert s[..|key|] == input[i..k] && s[|key|..] == input[k..];
    PrefixedSlices(Probe(kind, input[k..]), input, i, k, a, b);
  }

  lemma JumpEnd(kind: Kind, key: string, input: string, i: nat)
    requires key != [] && i < |input| && Matches(key, input[i..]) && Boundary(input[..i])
    requires Probe(kind, input[i + |key|..]).Stop?
    ensures From(kind, key, input, i) == input[i..]
  {
    hide Probe;
    var s := input[i..];
    assert s[|key|..] == input[i + |key|..];
    assert Slices(Next(kind, key, input[..i], s), input, i, |input|, |input|);
    Jump(kind, key, input, i, |input|, |input|);
    EmptyScan(kind, key, input[..|input|]);
    assert input[|input|..|input|] == [];
  }

  // -------------------------------------------------------------------------- the small readers --

  // skip_horizontal_whitespace
  method SkipHorizontalWhitespace(input: string, index: nat) returns (cursor: nat)
    requires index <= |input|
    ensures index <= cursor <= |input|
    ensures SplitAt(IsNotBlank, input[index..]) == Split(input[index..cursor], input[cursor..])
  {
    cursor := index;
    while cursor < |input| && (input[cursor] == ' ' || input[cursor] == '\t')
      invariant index <= cursor <= |input| && Free(IsNotBlank, input[index..cursor])
    {
      assert input[index..cursor + 1] == input[index..cursor] + [input[cursor]];
      cursor := cursor + 1;
    }
    SplitSlices(IsNotBlank, input, index, cursor);
  }

  // secret_value_end
  method SecretValueEnd(input: string, start: nat) returns (end: nat)
    requires start <= |input|
    ensures start <= end <= |input|
    ensures SplitAt(EndsSecret, input[start..]) == Split(input[start..end], input[end..])
  {
    end := start;
    while end < |input|
      invariant start <= end <= |input| && Free(EndsSecret, input[start..end])
    {
      if EndsSecret(input[end]) {
        break;
      }
      assert input[start..end + 1] == input[start..end] + [input[end]];
      end := end + 1;
    }
    SplitSlices(EndsSecret, input, start, end);
  }

  lemma AfterQuoteSlices(input: string, i: nat)
    requires i < |input|
    ensures var end := i + 1 + |SplitAt(UntilQuote(input[i]), input[i + 1..]).before|;
            Slices(QuotedValue(input[i..]), input, i, i + 1, end)
  {
    var found := SplitAt(UntilQuote(input[i]), input[i + 1..]);
    hide SplitAt;
    var end := i + 1 + |found.before|;
    assert input[i..][1..] == input[i + 1..];
    assert input[i + 1..] == found.before + found.after;
    assert input[i + 1..end] == found.before && input[end..] == found.after;
    assert input[i..i + 1] == [input[i]];
  }

  lemma QuotedSlices(input: string, start: nat, i: nat)
    requires start <= i < |input| && IsQuote(input[i])
    requires SplitAt(IsNotBlank, input[start..]) == Split(input[start..i], input[i..])
    ensures var end := i + 1 + |SplitAt(UntilQuote(input[i]), input[i + 1..]).before|;
            Slices(ValueRange(input[start..]), input, start, i + 1, end)
  {
    hide SplitAt, QuotedValue;
    AfterQuoteSlices(input, i);
    var end := i + 1 + |SplitAt(UntilQuote(input[i]), input[i + 1..]).before|;
    PrefixedSlices(QuotedValue(input[i..]), input, start, i, i + 1, end);
  }

  // secret_value_range
  method SecretValueRange(input: string, start: nat) returns (valueStart: nat, valueEnd: nat)
    requires start <= |input|
    ensures Slices(ValueRange(input[start..]), input, start, valueStart, valueEnd)
  {
    hide SplitAt;
    valueStart := SkipHorizontalWhitespace(input, start);
    if valueStart < |input| && IsQuote(input[valueStart]) {
      QuotedSlices(input, start, valueStart);
      var quote, quotedStart := input[valueStart], valueStart + 1;
      return quotedStart, quotedStart + |SplitAt(UntilQuote(quote), input[quotedStart..]).before|;
    }
    valueEnd := SecretValueEnd(input, valueStart);
  }

  // ------------------------------------------------------------------------------- the loops --

  lemma BearerSlices(input: string, k: nat, a: nat, b: nat)
    requires k < a <= b <= |input| && IsWhitespace(input[k])
    requires SplitAt(IsNotBlank, input[k + 1..]) == Split(input[k + 1..a], input[a..])
    requires SplitAt(EndsSecret, input[a..]) == Split(input[a..b], input[b..])
    ensures Slices(Probe(Bearer, input[k..]), input, k, a, b)
  {
    assert input[k..][1..] == input[k + 1..] && input[k..k + 1] == [input[k]];
    PrefixedSlices(BareValue(input[k + 1..]), input, k, k + 1, a, b);
    PrefixedNothing(Prefixed([input[k]], BareValue(input[k + 1..])));
  }

  lemma PrefixedNothing(r: Probed)
    ensures Prefixed([], r) == r
  {
    if r.Advance? {
      assert [] + r.kept == r.kept;
    }
  }

  lemma UnseparatedSlices(kind: Kind, input: string, k: nat)
    requires !kind.Assignment? && k < |input| && !Separates(kind, input[k])
    ensures Slices(Probe(kind, input[k..]), input, k, k + 1, k + 1)
  {
    NoSeparatorSlices(kind, input, k);
    PrefixedNothing(AfterSeparator(kind, input[k..]));
  }

  lemma Starts(kind: Kind, key: string, input: string)
    requires key != []
    ensures Redacting(kind, key, input, 0, [])
  {
    hide Scan;
    assert [] + From(kind, key, input, 0) == From(kind, key, input, 0);
    assert input[..0] == [] && input[0..] == input;
  }

  lemma NothingAfter(kind: Kind, key: string, input: string)
    requires key != []
    ensures From(kind, key, input, |input|) == []
  {
    EmptyScan(kind, key, input[..|input|]);
  }

  lemma StopsAtEnd(kind: Kind, input: string)
    requires !kind.Assignment?
    ensures Probe(kind, input[|input|..]).Stop?
  {
  }

  lemma FlagSlices(input: string, k: nat, i: nat, a: nat, b: nat)
    requires k < i <= |input| && Separates(Flag, input[k])
    requires SplitAt(IsNotBlank, input[k + 1..]) == Split(input[k + 1..i], input[i..])
    requires Slices(ValueRange(input[i..]), input, i, a, b)
    ensures Slices(Probe(Flag, input[k..]), input, k, a, b)
  {
    hide ValueRange, SplitAt, IsWhitespace;
    BlanksBeforeRange(input, k + 1, i, a, b);
    var range := ValueRange(input[k + 1..]);
    PrefixedSlices(range, input, k, k + 1, a, b);
    PrefixedNothing(Prefixed([input[k]], range));
    assert input[k..][1..] == input[k + 1..] && input[k..k + 1] == [input[k]];
  }

  // Blanks skipped beforehand make no difference.
  lemma BlanksBeforeRange(input: string, k: nat, i: nat, a: nat, b: nat)
    requires k <= i <= |input|
    requires SplitAt(IsNotBlank, input[k..]) == Split(input[k..i], input[i..])
    requires Slices(ValueRange(input[i..]), input, i, a, b)
    ensures Slices(ValueRange(input[k..]), input, k, a, b)
  {
    SplitSlices(IsNotBlank, input, i, i);
    assert input[i..i] == [];
    hide SplitAt;
    if i < |input| && IsQuote(input[i]) {
      PrefixedNothing(QuotedValue(input[i..]));
      PrefixedSlices(QuotedValue(input[i..]), input, k, i, a, b);
    } else {
      assert a == i;
    }
  }

  lemma ToSeparatorSlices(input: string, k: nat, i: nat, j: nat)
    requires k <= i <= j <= |input|
    requires SplitAt(IsNotBlank, input[k..]) == Split(input[k..i], input[i..])
    requires if i < |input| && IsQuote(input[i])
             then i < j && SplitAt(IsNotBlank, input[i + 1..]) == Split(input[i + 1..j], input[j..])
             else j == i
    ensures ToSeparator(input[k..]) == Split(input[k..j], input[j..])
  {
    hide SplitAt;
    if i < |input| && IsQuote(input[i]) {
      assert input[i..][1..] == input[i + 1..];
      assert [input[i]] + input[i + 1..j] == input[i..j];
      assert input[k..i] + input[i..j] == input[k..j];
    }
  }

  lemma AssignmentStops(input: string, k: nat)
    requires k <= |input| && ToSeparator(input[k..]) == Split(input[k..], [])
    ensures Probe(Assignment, input[k..]).Stop?
  {
  }

  lemma NoSeparatorSlices(kind: Kind, input: string, j: nat)
    requires j < |input| && !Separates(kind, input[j])
    ensures Slices(AfterSeparator(kind, input[j..]), input, j, j + 1, j + 1)
  {
    assert input[j..][1..] == input[j + 1..] && input[j..j + 1] == [input[j]];
    assert input[j + 1..j + 1] == [];
  }

  lemma NoAssignmentSlices(input: string, k: nat, j: nat)
    requires k <= j < |input| && ToSeparator(input[k..]) == Split(input[k..j], input[j..])
    requires !Separates(Assignment, input[j])
    ensures Slices(Probe(Assignment, input[k..]), input, k, j + 1, j + 1)
  {
    hide ToSeparator, AfterSeparator;
    NoSeparatorSlices(Assignment, input, j);
    PrefixedSlices(AfterSeparator(Assignment, input[j..]), input, k, j, j + 1, j + 1);
  }

  lemma AssignmentSlices(input: string, k: nat, j: nat, a: nat, b: nat)
    requires k <= j < |input| && ToSeparator(input[k..]) == Split(input[k..j], input[j..])
    requires Separates(Assignment, input[j]) && Slices(ValueRange(input[j + 1..]), input, j + 1, a, b)
    ensures Slices(Probe(Assignment, input[k..]), input, k, a, b)
  {
    hide ToSeparator, ValueRange;
    var r := AfterSeparator(Assignment, input[j..]);
    assert input[j..][1..] == input[j + 1..] && input[j..j + 1] == [input[j]];
    PrefixedSlices(ValueRange(input[j + 1..]), input, j, j + 1, a, b);
    PrefixedSlices(r, input, k, j, a, b);
  }

  // The state of a loop: what is written and what the scanner makes of the rest is the whole result.
  ghost predicate Redacting(kind: Kind, key: string, input: string, cursor: nat, out: string) {
    && key != [] && cursor <= |input|
    && out + From(kind, key, input, cursor) == Scan(kind, key, [], input)
  }

  // The search has found a key.
  ghost predicate Found(kind: Kind, key: string, input: string, cursor: nat, start: nat) {
    && key != [] && cursor <= start && start + |key| <= |input| && Matches(key, input[start..])
    && From(kind, key, input, cursor) == input[cursor..start] + From(kind, key, input, start)
  }

  lemma Search(kind: Kind, key: string, input: string, cursor: nat, out: string)
    requires Redacting(kind, key, input, cursor, out)
    ensures var r := Find(key, input, cursor);
            if r.Some? then Found(kind, key, input, cursor, r.value)
            else out + input[cursor..] == Scan(kind, key, [], input)
  {
    hide From, Scan, Find, Matches;
    var r := Find(key, input, cursor);
    if r.Some? {
      UnmatchedStretch(kind, key, input, cursor, r.value);
    } else {
      RestIsKept(kind, key, input, cursor);
    }
  }

  lemma RestIsKept(kind: Kind, key: string, input: string, cursor: nat)
    requires key != [] && cursor <= |input| && forall k | cursor <= k < |input| :: !Matches(key, input[k..])
    ensures From(kind, key, input, cursor) == input[cursor..]
  {
    hide From, Matches;
    UnmatchedStretch(kind, key, input, cursor, |input|);
    NothingAfter(kind, key, input);
  }

  lemma WordIsKept(kind: Kind, key: string, input: string, cursor: nat, start: nat, out: string)
    requires Redacting(kind, key, input, cursor, out) && Found(kind, key, input, cursor, start)
    requires !Boundary(input[..start])
    ensures cursor < start + |key| && Redacting(kind, key, input, start + |key|, out + input[cursor..start + |key|])
  {
    hide From, Scan, Next, Matches, Boundary;
    JumpWord(kind, key, input, start);
    ResumeKept(kind, key, input, cursor, start, start + |key|, out, Scan(kind, key, [], input));
  }

  lemma KeyIsKept(kind: Kind, key: string, input: string, cursor: nat, start: nat, a: nat, out: string)
    requires Redacting(kind, key, input, cursor, out) && Found(kind, key, input, cursor, start)
    requires Boundary(input[..start]) && Slices(Probe(kind, input[start + |key|..]), input, start + |key|, a, a)
    ensures cursor < a <= |input| && Redacting(kind, key, input, a, out + input[cursor..a])
  {
    hide From, Scan, Next, Probe, Matches, Boundary;
    JumpKey(kind, key, input, start, a, a);
    ResumeKept(kind, key, input, cursor, start, a, out, Scan(kind, key, [], input));
  }

  lemma ValueIsHidden(kind: Kind, key: string, input: string, cursor: nat, start: nat, a: nat, b: nat, out: string)
    requires Redacting(kind, key, input, cursor, out) && Found(kind, key, input, cursor, start)
    requires Boundary(input[..start]) && Slices(Probe(kind, input[start + |key|..]), input, start + |key|, a, b)
    requires a != b
    ensures cursor <= a < b <= |input|
    ensures Redacting(kind, key, input, b, out + input[cursor..a] + MARKER)
  {
    hide From, Scan, Next, Probe, Matches, Boundary;
    JumpKey(kind, key, input, start, a, b);
    Resume(kind, key, input, cursor, start, a, b, out, Scan(kind, key, [], input));
  }

  lemma ScanStops(kind: Kind, key: string, input: string, cursor: nat, start: nat, out: string)
    requires Redacting(kind, key, input, cursor, out) && Found(kind, key, input, cursor, start)
    requires Boundary(input[..start]) && Probe(kind, input[start + |key|..]).Stop?
    ensures out + input[cursor..] == Scan(kind, key, [], input)
  {
    hide From, Scan, Next, Probe, Matches, Boundary;
    JumpEnd(kind, key, input, start);
    assert input[cursor..start] + input[start..] == input[cursor..];
  }

  // What each loop does after a key: nothing more to do at the end of the line, or the value found.
  method ProbeBearer(input: string, keyEnd: nat) returns (stop: bool, valueStart: nat, valueEnd: nat)
    requires keyEnd <= |input|
    ensures stop == Probe(Bearer, input[keyEnd..]).Stop?
    ensures !stop ==> Slices(Probe(Bearer, input[keyEnd..]), input, keyEnd, valueStart, valueEnd)
  {
    hide Slices, SplitAt, EndsSecret, IsWhitespace, BareValue;
    if keyEnd == |input| {
      StopsAtEnd(Bearer, input);
      return true, 0, 0;
    }
    if !IsWhitespace(input[keyEnd]) {
      UnseparatedSlices(Bearer, input, keyEnd);
      return false, keyEnd + 1, keyEnd + 1;
    }
    stop := false;
    valueStart := SkipHorizontalWhitespace(input, keyEnd + 1);
    valueEnd := SecretValueEnd(input, valueStart);
    BearerSlices(input, keyEnd, valueStart, valueEnd);
  }

  method FindSeparator(input: string, keyEnd: nat) returns (sepIndex: nat)
    requires keyEnd <= |input|
    ensures keyEnd <= sepIndex <= |input|
    ensures ToSeparator(input[keyEnd..]) == Split(input[keyEnd..sepIndex], input[sepIndex..])
  {
    hide SplitAt, ToSeparator;
    sepIndex := SkipHorizontalWhitespace(input, keyEnd);
    ghost var blanks := sepIndex;
    if sepIndex < |input| && IsQuote(input[sepIndex]) {
      sepIndex := SkipHorizontalWhitespace(input, sepIndex + 1);
    }
    ToSeparatorSlices(input, keyEnd, blanks, sepIndex);
  }

  method ProbeAssignment(input: string, keyEnd: nat) returns (stop: bool, valueStart: nat, valueEnd: nat)
    requires keyEnd <= |input|
    ensures stop == Probe(Assignment, input[keyEnd..]).Stop?
    ensures !stop ==> Slices(Probe(Assignment, input[keyEnd..]), input, keyEnd, valueStart, valueEnd)
  {
    hide SplitAt, Probe, ToSeparator, ValueRange, AfterSeparator;
    var sepIndex := FindSeparator(input, keyEnd);
    if sepIndex == |input| {
      AssignmentStops(input, keyEnd);
      return true, 0, 0;
    }
    if input[sepIndex] != '=' && input[sepIndex] != ':' {
      NoAssignmentSlices(input, keyEnd, sepIndex);
      return false, sepIndex + 1, sepIndex + 1;
    }
    stop := false;
    valueStart, valueEnd := SecretValueRange(input, sepIndex + 1);
    AssignmentSlices(input, keyEnd, sepIndex, valueStart, valueEnd);
  }

  method ProbeFlag(input: string, keyEnd: nat) returns (stop: bool, valueStart: nat, valueEnd: nat)
    requires keyEnd <= |input|
    ensures stop == Probe(Flag, input[keyEnd..]).Stop?
    ensures !stop ==> Slices(Probe(Flag, input[keyEnd..]), input, keyEnd, valueStart, valueEnd)
  {
    hide Slices, SplitAt, IsWhitespace, ValueRange;
    if keyEnd == |input| {
      StopsAtEnd(Flag, input);
      return true, 0, 0;
    }
    if !(input[keyEnd] == '=' || IsWhitespace(input[keyEnd])) {
      UnseparatedSlices(Flag, input, keyEnd);
      return false, keyEnd + 1, keyEnd + 1;
    }
    var rawValueStart := SkipHorizontalWhitespace(input, keyEnd + 1);
    stop := false;
    valueStart, valueEnd := SecretValueRange(input, rawValueStart);
    FlagSlices(input, keyEnd, rawValueStart, valueStart, valueEnd);
  }

  // redact_bearer_tokens, redact_assignment_values and redact_flag_values: one loop, three probes
  method Redact(kind: Kind, key: string, input: string) returns (out: string)
    requires key != []
    ensures out == Scan(kind, key, [], input)
  {
    hide Redacting, Found, Probe, Find, Boundary, Slices, Scan, Matches;
    var cursor := 0;
    out := [];
    Starts(kind, key, input);
    while true
      invariant cursor <= |input| && Redacting(kind, key, input, cursor, out)
      decreases |input| - cursor
    {
      Search(kind, key, input, cursor, out);
      var found := Find(key, input, cursor);
      if found.None? {
        break;
      }
      var start := found.value;
      var keyEnd := start + |key|;
      if !Boundary(input[..start]) {
        WordIsKept(kind, key, input, cursor, start, out);
        out := out + input[cursor..keyEnd];
        cursor := keyEnd;
        continue;
      }
      var stop, valueStart, valueEnd;
      match kind {
        case Bearer => stop, valueStart, valueEnd := ProbeBearer(input, keyEnd);
        case Assignment => stop, valueStart, valueEnd := ProbeAssignment(input, keyEnd);
        case Flag => stop, valueStart, valueEnd := ProbeFlag(input, keyEnd);
      }
      if stop {
        ScanStops(kind, key, input, cursor, start, out);
        break;
      }
      if valueEnd == valueStart {
        KeyIsKept(kind, key, input, cursor, start, valueStart, out);
        out := out + input[cursor..valueStart];
        cursor := valueStart;
        continue;
      }
      ValueIsHidden(kind, key, input, cursor, start, valueStart, valueEnd, out);
      out := out + input[cursor..valueStart] + MARKER;
      cursor := valueEnd;
    }
    out := out + input[cursor..];
  }
}
