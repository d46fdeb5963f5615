/**
 The log view: sanitizing and bounding a line, and the last few lines of a file.
 */
module LogTail {
  import opened Outcomes
  import opened Ranking
  import opened SecretScan
  import opened SecretRescan
  import opened RedactLoops
  import Utf8
  import EscapeCodes

  // -------------------------------------------------------------------------- the whole line --

  type Key = key: string | key != [] witness "key"

  const KEYS: seq<Key> := [
    "solo_passphrase", "passphrase", "password", "bearer_token", "access_token", "refresh_token",
    "api_key", "apikey", "token", "secret"]

  const FLAGS: seq<Key> := [
    "--bearer-token", "--access-token", "--refresh-token", "--api-key", "--token", "--passphrase",
    "--password", "--secret"]

  function ScanAll(kind: Kind, keys: seq<Key>, s: string): string {
    if keys == [] then s else ScanAll(kind, keys[1..], Scan(kind, keys[0], [], s))
  }

  function Sanitized(s: string): string {
    ScanAll(Flag, FLAGS, ScanAll(Assignment, KEYS, Scan(Bearer, "bearer", [], s)))
  }

  method RedactAll(kind: Kind, keys: seq<Key>, input: string) returns (text: string)
    ensures text == ScanAll(kind, keys, input)
  {
    text := input;
    for i := 0 to |keys|
      invariant ScanAll(kind, keys[i..], text) == ScanAll(kind, keys, input)
    {
      assert keys[i..][1..] == keys[i + 1..];
      text := Redact(kind, keys[i], text);
    }
    assert keys[|keys|..] == [];
  }

  // sanitize_log_text
  method SanitizeLogText(input: string) returns (text: string)
    ensures text == Sanitized(input)
  {
    text := Redact(Bearer, "bearer", input);
    text := RedactAll(Assignment, KEYS, text);
    text := RedactAll(Flag, FLAGS, text);
  }

  // Three letters in a row in the marker
  predicate InMarker(a: char, b: char, c: char) {
    || (a == 'r' && b == 'e' && c == 'd') || (a == 'e' && b == 'd' && c == 'a')
    || (a == 'd' && b == 'a' && c == 'c') || (a == 'a' && b == 'c' && c == 't')
    || (a == 'c' && b == 't' && c == 'e') || (a == 't' && b == 'e' && c == 'd')
  }

  predicate Unlike(key: string) {
    && |key| >= 3 && !InMarker(key[0], key[1], key[2])
    && forall i | 0 <= i < |key| :: IsKeyChar(key[i]) && Lower(key[i]) == key[i]
  }

  lemma UnlikeIsSound(key: string)
    requires Unlike(key)
    ensures SoundKey(key)
  {
    forall i | 0 <= i <= |MARKER| ensures !Matches(key, MARKER[i..]) {
      if i <= |MARKER| - 3 {
        var s := MARKER[i..];
        assert Lower(key[0]) == key[0] && Lower(key[1]) == key[1] && Lower(key[2]) == key[2];
        assert Lower(s[0]) == s[0] && Lower(s[1]) == s[1] && Lower(s[2]) == s[2];
      }
    }
  }

  lemma WordsAreUnlike()
    ensures Unlike("bearer") && Unlike("solo_passphrase") && Unlike("passphrase") && Unlike("password")
    ensures Unlike("token") && Unlike("secret")
  {
  }

  lemma TokenWordsAreUnlike()
    ensures Unlike("bearer_token") && Unlike("access_token") && Unlike("refresh_token")
    ensures Unlike("api_key") && Unlike("apikey")
  {
  }

  lemma FlagsAreUnlike()
    ensures Unlike("--bearer-token") && Unlike("--access-token") && Unlike("--refresh-token")
    ensures Unlike("--api-key") && Unlike("--token")
    ensures Unlike("--passphrase") && Unlike("--password") && Unlike("--secret")
  {
  }

  lemma KeysAreSound(key: string)
    requires key == "bearer" || key in KEYS || key in FLAGS
    ensures SoundKey(key)
  {
    hide Unlike, SoundKey;
    WordsAreUnlike();
    TokenWordsAreUnlike();
    FlagsAreUnlike();
    UnlikeIsSound(key);
  }

  // Once a key's values are hidden, looking for that key again changes nothing.
  lemma PassesAreIdempotent(kind: Kind, key: string, s: string)
    requires key == "bearer" || key in KEYS || key in FLAGS
    ensures key != []
    ensures var once := Scan(kind, key, [], s); Scan(kind, key, [], once) == once
  {
    KeysAreSound(key);
    RescanChangesNothing(kind, key, [], [], s);
  }

  // Every character of a sanitized line comes from the line or from the marker.
  lemma {:induction false} ScanInventsNothing(kind: Kind, key: string, before: string, s: string, c: char)
    requires key != [] && c in Scan(kind, key, before, s)
    ensures c in s || c in MARKER
    decreases |s|
  {
    hide Scan, Next;
    if s == [] {
      EmptyScan(kind, key, before);
    } else {
      var r := Next(kind, key, before, s);
      ScanStep(kind, key, before, s);
      assert forall d | d in Whole(r) :: d in s;
      var w := Scan(kind, key, Past(before, r), r.rest);
      if c in w {
        ScanInventsNothing(kind, key, Past(before, r), r.rest, c);
      }
    }
  }

  lemma {:induction false} ScanAllInventsNothing(kind: Kind, keys: seq<Key>, s: string, c: char)
    requires c in ScanAll(kind, keys, s)
    ensures c in s || c in MARKER
    decreases |keys|
  {
    hide Scan;
    if keys != [] {
      ScanAllInventsNothing(kind, keys[1..], Scan(kind, keys[0], [], s), c);
      if c !in MARKER {
        ScanInventsNothing(kind, keys[0], [], s, c);
      }
    }
  }

  // ------------------------------------------------------------------------ one line of the log --

  const MAX_LINE_LEN: nat := 4096
  const TRUNCATED_MARKER := " ...[truncated]"

  // How many characters fit into a number of bytes
  function Fitting(limit: nat, s: string): (k: nat)
    ensures k <= |s|
  {
    if s == [] || |Utf8.EncodeChar(s[0])| > limit then 0
    else 1 + Fitting(limit - |Utf8.EncodeChar(s[0])|, s[1..])
  }

  lemma {:induction false} FittingIsLongest(limit: nat, s: string, k: nat)
    requires k <= |s|
    ensures |Utf8.Encode(s[..k])| <= limit <==> k <= Fitting(limit, s)
  {
    if k > 0 {
      assert s[..k][1..] == s[1..][..k - 1];
      var n := |Utf8.EncodeChar(s[0])|;
      if n <= limit {
        FittingIsLongest(limit - n, s[1..], k - 1);
      }
    }
  }

  function Bounded(s: string): string {
    if |Utf8.Encode(s)| <= MAX_LINE_LEN then s else s[..Fitting(MAX_LINE_LEN, s)] + TRUNCATED_MARKER
  }

  function Normalized(raw: string): string {
    Bounded(Sanitized(EscapeCodes.Plains(EscapeCodes.Parse(raw))))
  }

  // The last character boundary within the limit is where the longest fitting prefix ends.
  lemma LastBoundary(s: string, limit: nat, cut: nat)
    requires cut <= limit <= |Utf8.Encode(s)| && Utf8.IsBoundary(Utf8.Encode(s), cut)
    requires forall i: nat | cut < i <= limit :: !Utf8.IsBoundary(Utf8.Encode(s), i)
    ensures Utf8.Lossy(Utf8.Encode(s)[..cut]) == s[..Fitting(limit, s)]
  {
    hide Utf8.Encode, Utf8.IsBoundary, Utf8.Lossy;
    var k := Utf8.BoundaryIsBetweenChars(s, cut);
    Utf8.LossyOfText(s[..k]);
    FittingIsLongest(limit, s, k);
    var f := Fitting(limit, s);
    FittingIsLongest(limit, s, f);
    assert s[..f][..k] == s[..k];
    Utf8.BetweenCharsIsBoundary(s[..f], k);
    assert |Utf8.Encode(s[..f])| >= cut + (f - k);
    Utf8.BetweenCharsIsBoundary(s, f);
  }

  method TruncateLine(line: string) returns (text: string)
    ensures text == Bounded(line)
  {
    hide Utf8.Encode, Utf8.IsBoundary, Utf8.Lossy;
    text := line;
    var bytes := Utf8.Encode(line);
    if |bytes| > MAX_LINE_LEN {
      var cut := MAX_LINE_LEN;
      ZeroIsBoundary(bytes);
      while !Utf8.IsBoundary(bytes, cut)
        invariant cut <= MAX_LINE_LEN
        invariant forall i: nat | cut < i <= MAX_LINE_LEN :: !Utf8.IsBoundary(bytes, i)
        decreases cut
      {
        cut := cut - 1;
      }
      LastBoundary(line, MAX_LINE_LEN, cut);
      text := Utf8.Lossy(bytes[..cut]) + TRUNCATED_MARKER;
    }
  }

  // normalize_log_line
  method NormalizeLogLine(raw: string) returns (text: string)
    ensures text == Normalized(raw)
  {
    hide Bounded, Sanitized;
    text := EscapeCodes.StripAnsi(raw);
    text := SanitizeLogText(text);
    text := TruncateLine(text);
  }

  lemma ZeroIsBoundary(b: Bytes)
    ensures Utf8.IsBoundary(b, 0)
  {
  }

  // Whatever the log holds, a shown line is short and has no terminal control character.
  lemma ShownLineIsSafe(raw: string)
    ensures |Utf8.Encode(Normalized(raw))| <= 4096 + |" ...[truncated]"|
    ensures EscapeCodes.ESC !in Normalized(raw)
  {
    hide Utf8.Encode, Scan, ScanAll, Fitting, EscapeCodes.Plains, EscapeCodes.Parse;
    var plain := EscapeCodes.Plains(EscapeCodes.Parse(raw));
    EscapeCodes.StrippedIsText(raw);
    var s := Sanitized(plain);
    if EscapeCodes.ESC in s {
      var s1 := Scan(Bearer, "bearer", [], plain);
      var s2 := ScanAll(Assignment, KEYS, s1);
      ScanAllInventsNothing(Flag, FLAGS, s2, EscapeCodes.ESC);
      ScanAllInventsNothing(Assignment, KEYS, s1, EscapeCodes.ESC);
      ScanInventsNothing(Bearer, "bearer", [], plain, EscapeCodes.ESC);
      assert false;
    }
    var k := Fitting(MAX_LINE_LEN, s);
    FittingIsLongest(MAX_LINE_LEN, s, k);
    Utf8.EncodeConcat(s[..k], TRUNCATED_MARKER);
    Utf8.EncodeAscii(TRUNCATED_MARKER);
  }

  // ------------------------------------------------------------------------------ the last lines --

  function TrimStart(s: string): string {
    if s != [] && IsWhitespace(s[0]) then TrimStart(s[1..]) else s
  }

  // infer_level
  function InferLevel(line: string): string {
    var trimmed := TrimStart(line);
    if "ERROR" <= trimmed then "error"
    else if "WARN" <= trimmed then "warn"
    else if "DEBUG" <= trimmed then "debug"
    else if "TRACE" <= trimmed then "trace"
    else "info"
  }

  // The level is the word that a line starts with, blanks aside.
  lemma LevelIff(blanks: string, text: string)
    requires (forall c | c in blanks :: IsWhitespace(c)) && (text != [] ==> !IsWhitespace(text[0]))
    ensures InferLevel(blanks + text) == "error" <==> "ERROR" <= text
    ensures InferLevel(blanks + text) == "warn" <==> "WARN" <= text
    ensures InferLevel(blanks + text) == "debug" <==> "DEBUG" <= text
    ensures InferLevel(blanks + text) == "trace" <==> "TRACE" <= text
    ensures InferLevel(blanks + text) in ["error", "warn", "debug", "trace", "info"]
  {
    TrimmedStart(blanks, text);
    hide TrimStart;
    assert "ERROR" <= text ==> text[0] == 'E';
    assert "WARN" <= text ==> text[0] == 'W';
    assert "DEBUG" <= text ==> text[0] == 'D';
    assert "TRACE" <= text ==> text[0] == 'T';
  }

  lemma {:induction false} TrimmedStart(blanks: string, text: string)
    requires (forall c | c in blanks :: IsWhitespace(c)) && (text != [] ==> !IsWhitespace(text[0]))
    ensures TrimStart(blanks + text) == text
  {
    if blanks == [] {
      assert blanks + text == text;
    } else {
      assert blanks[0] in blanks;
      assert (blanks + text)[1..] == blanks[1..] + text;
      TrimmedStart(blanks[1..], text);
    }
  }

  datatype TailLine = TailLine(level: string, text: string)

  function Shown(raw: string): TailLine {
    TailLine(InferLevel(Normalized(raw)), Normalized(raw))
  }

  function Last<T>(limit: nat, s: seq<T>): seq<T> {
    if |s| <= limit then s else s[|s| - limit..]
  }

  // The lines held are the last of those read.
  ghost predicate Holds(limit: nat, tail: seq<TailLine>, texts: seq<string>) {
    tail == Last(limit, Map(Shown, texts))
  }

  lemma HoldsNext(limit: nat, tail: seq<TailLine>, texts: seq<string>, raw: string)
    requires limit > 0 && Holds(limit, tail, texts)
    ensures |tail| <= limit
    ensures Holds(limit, (if |tail| == limit then tail[1..] else tail) + [Shown(raw)], texts + [raw])
  {
    hide Shown, Map;
    MapSnoc(Shown, texts, raw);
  }

  lemma HoldsNothing(limit: nat)
    ensures Holds(limit, [], [])
  {
  }

  type IoError = string

  // The lines of a file, up to the first read error
  function ReadAll(lines: seq<Result<string, IoError>>): Result<seq<string>, IoError> {
    if lines == [] then Ok([])
    else
      var n := |lines| - 1;
      var texts := ReadAll(lines[..n]);
      if texts.Err? then texts
      else if lines[n].Err? then Err(lines[n].error)
      else Ok(texts.value + [lines[n].value])
  }

  lemma ReadAllNext(lines: seq<Result<string, IoError>>, i: nat)
    requires i < |lines| && ReadAll(lines[..i]).Ok?
    ensures ReadAll(lines[..i + 1]) ==
            if lines[i].Err? then Err(lines[i].error) else Ok(ReadAll(lines[..i]).value + [lines[i].value])
  {
    assert lines[..i + 1][..i] == lines[..i];
  }

  lemma {:induction false} FirstErrorStays(lines: seq<Result<string, IoError>>, i: nat)
    requires i <= |lines| && ReadAll(lines[..i]).Err?
    ensures ReadAll(lines) == ReadAll(lines[..i])
    decreases |lines|
  {
    var n := |lines| - 1;
    if i <= n {
      assert lines[..n][..i] == lines[..i];
      FirstErrorStays(lines[..n], i);
    } else {
      assert lines[..i] == lines;
    }
  }

  // The last lines of those read, or the first error among them
  function Tail(lines: seq<Result<string, IoError>>, limit: nat): Result<seq<TailLine>, IoError> {
    match ReadAll(lines)
    case Ok(texts) => Ok(Last(limit, Map(Shown, texts)))
    case Err(e) => Err(e)
  }

  // Of a file without read errors the last lines are shown, each normalised, in order.
  lemma TailIff(lines: seq<Result<string, IoError>>, limit: nat)
    requires forall line | line in lines :: line.Ok?
    ensures var n := if |lines| <= limit then |lines| else limit;
            var r := Tail(lines, limit);
            && r.Ok? && |r.value| == n
            && forall i | 0 <= i < n :: r.value[i].text == Normalized(lines[|lines| - n + i].value)
                                        && r.value[i].level == InferLevel(r.value[i].text)
  {
    hide Normalized, InferLevel;
    AllRead(lines);
  }

  lemma {:induction false} AllRead(lines: seq<Result<string, IoError>>)
    requires forall line | line in lines :: line.Ok?
    ensures ReadAll(lines).Ok? && |ReadAll(lines).value| == |lines|
    ensures forall i | 0 <= i < |lines| :: ReadAll(lines).value[i] == lines[i].value
    decreases |lines|
  {
    if lines != [] {
      var n := |lines| - 1;
      assert lines[n] in lines;
      AllRead(lines[..n]);
    }
  }

  // A line that fits is shown whole; one that does not, as far as it fits.
  lemma BoundedIff(s: string)
    ensures |Utf8.Encode(s)| <= 4096 ==> Bounded(s) == s
    ensures |Utf8.Encode(s)| > 4096 ==>
              exists k :: 0 <= k < |s| && Bounded(s) == s[..k] + " ...[truncated]"
                          && |Utf8.Encode(s[..k])| <= 4096 < |Utf8.Encode(s[..k + 1])|
  {
    hide Utf8.Encode;
    if |Utf8.Encode(s)| > 4096 {
      var k := Fitting(4096, s);
      FittingIsLongest(4096, s, k);
      FittingIsLongest(4096, s, |s|);
      assert s[..|s|] == s;
      FittingIsLongest(4096, s, k + 1);
      assert Bounded(s) == s[..k] + " ...[truncated]";
    }
  }

  // read_tail_lines; a limit of zero answers before the file is even opened
  method ReadTailLines(file: Result<seq<Result<string, IoError>>, IoError>, limit: nat)
    returns (r: Result<seq<TailLine>, IoError>)
    ensures r == if limit == 0 then Ok([])
                 else match file case Ok(lines) => Tail(lines, limit) case Err(e) => Err(e)
  {
    if limit == 0 {
      return Ok([]);
    }
    if file.Err? {
      return Err(file.error);
    }
    r := TailOf(file.value, limit);
  }

  method TailOf(lines: seq<Result<string, IoError>>, limit: nat) returns (r: Result<seq<TailLine>, IoError>)
    requires limit > 0
    ensures r == Tail(lines, limit)
  {
    hide Shown, ReadAll, Map, Last, Holds;
    ghost var texts: seq<string> := [];
    var tail: seq<TailLine> := [];
    HoldsNothing(limit);
    NothingRead(lines);
    for i := 0 to |lines|
      invariant ReadAll(lines[..i]) == Ok(texts) && Holds(limit, tail, texts)
    {
      ReadAllNext(lines, i);
      if lines[i].Err? {
        FirstErrorStays(lines, i + 1);
        return Err(lines[i].error);
      }
      HoldsNext(limit, tail, texts, lines[i].value);
      if |tail| == limit {
        tail := tail[1..];
      }
      var line := ShowLine(lines[i].value);
      tail := tail + [line];
      texts := texts + [lines[i].value];
    }
    assert lines[..|lines|] == lines;
    HoldsTail(limit, tail, texts);
    return Ok(tail);
  }

  lemma NothingRead(lines: seq<Result<string, IoError>>)
    ensures ReadAll(lines[..0]) == Ok([])
  {
  }

  lemma HoldsTail(limit: nat, tail: seq<TailLine>, texts: seq<string>)
    requires Holds(limit, tail, texts)
    ensures tail == Last(limit, Map(Shown, texts))
  {
  }

  method ShowLine(raw: string) returns (line: TailLine)
    ensures line == Shown(raw)
  {
    var text := NormalizeLogLine(raw);
    line := TailLine(InferLevel(text), text);
  }
}
