/**
 Scanning a line a second time with the same key changes nothing.
 */
module SecretRescan {
  import opened Splitting
  import opened SecretScan

  // The marker cannot be mistaken for a key, nor can the end of a value start one.
  ghost predicate SoundKey(key: string) {
    && key != []
    && '[' !in key && ']' !in key
    && !EndsSecret(key[0])
    && forall i | 0 <= i <= |MARKER| :: !Matches(key, MARKER[i..])
  }

  // Two texts are both empty or start alike.
  predicate SameStart(s: string, t: string) {
    if s == [] then t == [] else t != [] && t[0] == s[0]
  }

  // What a first step left behind
  function Left(r: Probed, w: string): string
    requires r.Advance?
  {
    r.kept + (Hidden(r.value) + w)
  }

  function PastHidden(before: string, r: Probed): string
    requires r.Advance?
  {
    before + r.kept + Hidden(r.value)
  }

  // A second step keeps as much, and then meets the marker or takes it for the value.
  ghost predicate Again(r: Probed, w: string, p: Probed)
    requires r.Advance?
  {
    || p == Advance(r.kept, [], Hidden(r.value) + w)
    || (r.value != [] && p == Advance(r.kept, MARKER, w))
  }

  lemma PrefixedAgain(lead: string, r: Probed, w: string, p: Probed)
    requires r.Advance? && Again(r, w, p)
    ensures Again(Prefixed(lead, r), w, Prefixed(lead, p))
    ensures Left(Prefixed(lead, r), w) == lead + Left(r, w)
  {
  }

  lemma AfterBlanks(s: string, after: string)
    requires SameStart(SplitAt(IsNotBlank, s).after, after) || (after != [] && after[0] == '[')
    ensures SplitAt(IsNotBlank, SplitAt(IsNotBlank, s).before + after) == Split(SplitAt(IsNotBlank, s).before, after)
  {
    SplitIsUnique(IsNotBlank, SplitAt(IsNotBlank, s).before, after);
  }

  lemma BareAgain(s: string, w: string)
    requires SameStart(BareValue(s).rest, w)
    ensures Again(BareValue(s), w, BareValue(Left(BareValue(s), w)))
  {
    var r := BareValue(s);
    var after := Hidden(r.value) + w;
    assert r.value == [] ==> after == w && [] + r.rest == r.rest;
    AfterBlanks(s, after);
    SplitIsUnique(EndsSecret, [], after);
    assert [] + after == after;
  }

  lemma QuotedAgain(s: string, w: string)
    requires s != [] && IsQuote(s[0]) && SameStart(QuotedValue(s).rest, w)
    ensures Again(QuotedValue(s), w, QuotedValue(Left(QuotedValue(s), w)))
  {
    var r := QuotedValue(s);
    var p := UntilQuote(s[0]);
    SplitIsUnique(p, Hidden(r.value), w);
    assert Left(r, w)[1..] == Hidden(r.value) + w;
    assert [] + w == w;
  }

  lemma ValueRangeAgain(s: string, w: string)
    requires SameStart(ValueRange(s).rest, w)
    ensures Again(ValueRange(s), w, ValueRange(Left(ValueRange(s), w)))
  {
    var r := ValueRange(s);
    var b := SplitAt(IsNotBlank, s);
    if b.after != [] && IsQuote(b.after[0]) {
      var quoted := QuotedValue(b.after);
      QuotedAgain(b.after, w);
      PrefixedAgain(b.before, quoted, w, QuotedValue(Left(quoted, w)));
      AfterBlanks(s, Left(quoted, w));
    } else {
      BareAgain(s, w);
      var after := Hidden(r.value) + w;
      assert r.value == [] ==> after == w && [] + r.rest == r.rest;
      AfterBlanks(s, after);
    }
  }

  lemma AfterSeparatorAgain(kind: Kind, s: string, w: string)
    requires s != [] && SameStart(AfterSeparator(kind, s).rest, w)
    ensures var r := AfterSeparator(kind, s);
            Again(r, w, AfterSeparator(kind, Left(r, w)))
  {
    var r := AfterSeparator(kind, s);
    hide BareValue, ValueRange;
    if !Separates(kind, s[0]) {
      assert Left(r, w)[1..] == w == [] + w;
    } else {
      var inner := if kind.Bearer? then BareValue(s[1..]) else ValueRange(s[1..]);
      var left := Left(inner, w);
      BareOrRangeAgain(kind, s[1..], w);
      PrefixedAgain([s[0]], inner, w, if kind.Bearer? then BareValue(left) else ValueRange(left));
      assert Left(r, w)[1..] == left;
    }
  }

  lemma BareOrRangeAgain(kind: Kind, s: string, w: string)
    requires var r := if kind.Bearer? then BareValue(s) else ValueRange(s); SameStart(r.rest, w)
    ensures kind.Bearer? ==> Again(BareValue(s), w, BareValue(Left(BareValue(s), w)))
    ensures !kind.Bearer? ==> Again(ValueRange(s), w, ValueRange(Left(ValueRange(s), w)))
  {
    if kind.Bearer? {
      BareAgain(s, w);
    } else {
      ValueRangeAgain(s, w);
    }
  }

  lemma SkipQuoteAgain(s: string, after: string)
    requires s != [] && SameStart(SkipQuote(s).after, after)
    ensures SkipQuote(SkipQuote(s).before + after) == Split(SkipQuote(s).before, after)
  {
    var q := SkipQuote(s);
    AfterBlanks(s[1..], after);
    assert (q.before + after)[1..] == SplitAt(IsNotBlank, s[1..]).before + after;
  }

  lemma ToSeparatorAgain(s: string, after: string)
    requires ToSeparator(s).after != [] && SameStart(ToSeparator(s).after, after)
    ensures ToSeparator(ToSeparator(s).before + after) == Split(ToSeparator(s).before, after)
  {
    hide SplitAt, SkipQuote;
    var b := SplitAt(IsNotBlank, s);
    if b.after == [] || !IsQuote(b.after[0]) {
      AfterBlanks(s, after);
    } else {
      var q := SkipQuote(b.after);
      var quoted := q.before + after;
      SkipQuoteAgain(b.after, after);
      assert quoted[0] == q.before[0] == b.after[0];
      AfterBlanks(s, quoted);
      assert ToSeparator(b.before + quoted) == Split(b.before + q.before, after);
      assert (b.before + q.before) + after == b.before + quoted;
    }
  }

  lemma ProbeAgain(kind: Kind, s: string, w: string)
    requires Probe(kind, s).Advance? && SameStart(Probe(kind, s).rest, w)
    ensures var r := Probe(kind, s); Again(r, w, Probe(kind, Left(r, w)))
  {
    hide AfterSeparator, ToSeparator;
    var b := if kind.Assignment? then ToSeparator(s) else Split([], s);
    var r := AfterSeparator(kind, b.after);
    var left := Left(r, w);
    AfterSeparatorAgain(kind, b.after, w);
    PrefixedAgain(b.before, r, w, AfterSeparator(kind, left));
    assert left[0] == b.after[0] by {
      assert Whole(r)[0] == r.kept[0];
    }
    if kind.Assignment? {
      ToSeparatorAgain(s, left);
    } else {
      assert [] + left == left;
    }
  }

  lemma NextAgain(kind: Kind, key: string, before: string, before': string, s: string, w: string)
    requires key != [] && s != [] && (Boundary(before) == Boundary(before') || !Matches(key, s))
    requires SameStart(Next(kind, key, before, s).rest, w)
    requires Matches(key, Left(Next(kind, key, before, s), w)) ==> Matches(key, s)
    ensures var r := Next(kind, key, before, s);
            Left(r, w) != [] && Again(r, w, Next(kind, key, before', Left(r, w)))
  {
    hide Probe;
    var r := Next(kind, key, before, s);
    var left := Left(r, w);
    if !Matches(key, s) {
      assert left[1..] == w == [] + w;
    } else {
      var word, tail := s[..|key|], s[|key|..];
      var p := Probe(kind, tail);
      if Boundary(before) && p.Advance? {
        ProbeAgain(kind, tail, w);
        PrefixedAgain(word, p, w, Probe(kind, Left(p, w)));
        assert left == word + Left(p, w);
        assert left[|key|..] == Left(p, w);
      } else if Boundary(before) {
        assert left == s;
      } else {
        assert left[|key|..] == w == [] + w;
      }
    }
  }

  // -------------------------------------------------------- what the text before can change --

  lemma BoundaryOfConcat(a: string, b: string)
    requires b != []
    ensures Boundary(a + b) == Boundary(b)
  {
  }

  lemma {:induction false} OnlyBoundaryMatters(kind: Kind, key: string, before: string, before': string, s: string)
    requires key != [] && (Boundary(before) == Boundary(before') || !Matches(key, s))
    ensures Scan(kind, key, before, s) == Scan(kind, key, before', s)
    decreases |s|
  {
    if s != [] {
      var r := Next(kind, key, before, s);
      assert r == Next(kind, key, before', s);
      hide Next, Boundary, Matches;
      BoundaryOfConcat(before, r.kept);
      BoundaryOfConcat(before', r.kept);
      SameBoundary(before + r.kept, before' + r.kept, r.value);
      OnlyBoundaryMatters(kind, key, before + r.kept + r.value, Past(before', r), r.rest);
    }
  }

  lemma SameBoundary(a: string, b: string, t: string)
    requires Boundary(a) == Boundary(b)
    ensures Boundary(a + t) == Boundary(b + t)
  {
    if t == [] {
      assert a + t == a && b + t == b;
    }
  }

  lemma ScanStep(kind: Kind, key: string, before: string, s: string)
    requires key != [] && s != []
    ensures var r := Next(kind, key, before, s);
            Scan(kind, key, before, s) == Left(r, Scan(kind, key, Past(before, r), r.rest))
  {
  }

  lemma UnmatchedStep(kind: Kind, key: string, before: string, s: string)
    requires key != [] && s != [] && !Matches(key, s)
    ensures Scan(kind, key, before, s) == [s[0]] + Scan(kind, key, before + [s[0]], s[1..])
  {
    hide Scan;
    ScanStep(kind, key, before, s);
    assert before + [s[0]] + [] == before + [s[0]];
    var w := Scan(kind, key, before + [s[0]], s[1..]);
    assert [] + w == w;
  }

  lemma EmptyScan(kind: Kind, key: string, before: string)
    requires key != []
    ensures Scan(kind, key, before, []) == []
  {
  }

  // A result follows the line for j characters, up to the first marker.
  ghost predicate Follows(s: string, u: string, j: nat) {
    && j <= |s| && j <= |u| && s[..j] == u[..j] && (s != [] ==> j > 0)
    && (if j < |u| then u[j] == '[' else u == s)
  }

  lemma FollowsStep(r: Probed, w: string, j: nat)
    requires r.Advance? && r.kept != [] && Follows(r.rest, w, j)
    ensures Follows(Whole(r), Left(r, w), |r.kept| + if r.value != [] then 0 else j)
  {
    if r.value == [] {
      assert Whole(r) == r.kept + r.rest && Left(r, w) == r.kept + w;
      assert (r.kept + w)[..|r.kept| + j] == r.kept + w[..j];
      assert (r.kept + r.rest)[..|r.kept| + j] == r.kept + r.rest[..j];
    } else {
      assert Left(r, w)[|r.kept|] == MARKER[0];
    }
  }

  lemma {:induction false} CommonPrefix(kind: Kind, key: string, before: string, s: string) returns (j: nat)
    requires key != []
    ensures Follows(s, Scan(kind, key, before, s), j)
    decreases |s|
  {
    j := 0;
    if s == [] {
      EmptyScan(kind, key, before);
    } else {
      hide *;
      var r := Next(kind, key, before, s);
      ScanStep(kind, key, before, s);
      j := CommonPrefix(kind, key, Past(before, r), r.rest);
      FollowsStep(r, Scan(kind, key, Past(before, r), r.rest), j);
      j := |r.kept| + if r.value != [] then 0 else j;
    }
  }

  lemma NoNewMatch(kind: Kind, key: string, before: string, s: string)
    requires key != [] && '[' !in key
    ensures var u := Scan(kind, key, before, s);
            SameStart(s, u) && (Matches(key, u) ==> Matches(key, s))
  {
    hide Scan;
    var u := Scan(kind, key, before, s);
    var j := CommonPrefix(kind, key, before, s);
    assert s != [] ==> s[..j][0] == u[..j][0];
    assert s == [] ==> |u| == 0 by {
      EmptyScan(kind, key, before);
    }
    if !Matches(key, s) && |key| <= |u| {
      if j < |key| {
        assert key[j] in key;
        assert Lower(u[j]) != Lower(key[j]);
      } else {
        var k: nat :| k < |key| && Lower(s[k]) != Lower(key[k]);
        assert s[..j][k] == u[..j][k];
      }
    }
  }

  lemma NoMatchAcrossMarker(key: string, i: nat, w: string)
    requires SoundKey(key) && i < |MARKER|
    ensures !Matches(key, MARKER[i..] + w)
  {
    var s := MARKER[i..] + w;
    var last := |MARKER| - 1 - i;
    if last < |key| <= |s| {
      assert key[last] in key;
      assert Lower(s[last]) != Lower(key[last]);
    } else if |key| <= last {
      assert !Matches(key, MARKER[i..]);
      var k: nat :| k < |key| && Lower(MARKER[i..][k]) != Lower(key[k]);
      assert s[k] == MARKER[i..][k];
    }
  }

  lemma {:induction false} UnmatchedIsKept(kind: Kind, key: string, before: string, t: string, w: string)
    requires key != [] && forall i | 0 <= i < |t| :: !Matches(key, t[i..] + w)
    ensures Scan(kind, key, before, t + w) == t + Scan(kind, key, before + t, w)
    decreases |t|
  {
    hide Scan, Matches;
    if t == [] {
      assert t + w == w && before + t == before;
    } else {
      assert t[0..] == t;
      UnmatchedStep(kind, key, before, t + w);
      assert (t + w)[1..] == t[1..] + w;
      assert before + [t[0]] + t[1..] == before + t;
      forall i | 0 <= i < |t[1..]| ensures !Matches(key, t[1..][i..] + w) {
        assert t[1..][i..] == t[i + 1..];
      }
      UnmatchedIsKept(kind, key, before + [t[0]], t[1..], w);
    }
  }

  lemma MarkerIsKept(kind: Kind, key: string, before: string, w: string)
    requires SoundKey(key)
    ensures Scan(kind, key, before, MARKER + w) == MARKER + Scan(kind, key, before + MARKER, w)
  {
    forall i | 0 <= i < |MARKER| ensures !Matches(key, MARKER[i..] + w) {
      NoMatchAcrossMarker(key, i, w);
    }
    UnmatchedIsKept(kind, key, before, MARKER, w);
  }

  lemma EndStartsNoKey(key: string, s: string)
    requires SoundKey(key) && (s != [] ==> EndsSecret(s[0]))
    ensures !Matches(key, s)
  {
    if s != [] {
      assert Lower(s[0]) != Lower(key[0]);
    }
  }

  lemma ValueEndsAtEnd(kind: Kind, key: string, before: string, s: string)
    requires key != [] && s != []
    ensures var r := Next(kind, key, before, s); r.value != [] && r.rest != [] ==> EndsSecret(r.rest[0])
  {
    NextFindsSecret(kind, key, before, s);
  }

  // The line after the first step's marker is scanned as it was, whatever came before.
  lemma RescanRest(kind: Kind, key: string, before: string, r: Probed, w: string, p: Probed)
    requires SoundKey(key) && r.Advance? && r.kept != [] && Again(r, w, p)
    requires Scan(kind, key, PastHidden(before, r), w) == w
    ensures Left(p, Scan(kind, key, Past(before, p), p.rest)) == Left(r, w)
  {
    hide Scan, SoundKey;
    if p == Advance(r.kept, [], Hidden(r.value) + w) {
      assert before + r.kept + [] == before + r.kept;
      if r.value == [] {
        assert before + r.kept + Hidden(r.value) == before + r.kept;
        assert Hidden(r.value) + w == w;
      } else {
        MarkerIsKept(kind, key, before + r.kept, w);
        assert [] + (MARKER + w) == MARKER + w;
      }
    }
  }

  lemma NextBoundary(kind: Kind, key: string, before: string, before': string, s: string)
    requires SoundKey(key) && s != [] && (Boundary(before) == Boundary(before') || !Matches(key, s))
    ensures var r := Next(kind, key, before, s);
            && r == Next(kind, key, before', s)
            && (Boundary(Past(before, r)) == Boundary(PastHidden(before', r))
                || !Matches(key, r.rest))
  {
    var r := Next(kind, key, before, s);
    if r.value == [] {
      BoundaryOfConcat(before, r.kept);
      BoundaryOfConcat(before', r.kept);
      assert before + r.kept + r.value == before + r.kept;
      assert before' + r.kept + Hidden(r.value) == before' + r.kept;
    } else {
      ValueEndsAtEnd(kind, key, before, s);
      EndStartsNoKey(key, r.rest);
    }
  }

  lemma {:induction false} RescanChangesNothing(
    kind: Kind, key: string, before: string, before': string, s: string)
    requires SoundKey(key) && (Boundary(before) == Boundary(before') || !Matches(key, s))
    ensures Scan(kind, key, before', Scan(kind, key, before, s)) == Scan(kind, key, before, s)
    decreases |s|
  {
    assert key != [];
    hide Scan, SoundKey, Matches, Boundary, Next, Again, Left, Past, PastHidden;
    if s == [] {
      EmptyScan(kind, key, before);
      EmptyScan(kind, key, before');
    } else {
      var r := Next(kind, key, before, s);
      NextBoundary(kind, key, before, before', s);
      RescanChangesNothing(kind, key, before + r.kept + r.value, PastHidden(before', r), r.rest);
      SecondStep(kind, key, before, before', s);
    }
  }

  lemma SecondStep(kind: Kind, key: string, before: string, before': string, s: string)
    requires SoundKey(key) && s != [] && (Boundary(before) == Boundary(before') || !Matches(key, s))
    requires var r := Next(kind, key, before, s);
             var w := Scan(kind, key, Past(before, r), r.rest);
             Scan(kind, key, PastHidden(before', r), w) == w
    ensures Scan(kind, key, before', Scan(kind, key, before, s)) == Scan(kind, key, before, s)
  {
    hide Scan, Matches, Boundary, Next, Again, Left, Past, PastHidden;
    var r := Next(kind, key, before, s);
    var w := Scan(kind, key, Past(before, r), r.rest);
    ScanStep(kind, key, before, s);
    NoNewMatch(kind, key, before, s);
    NoNewMatch(kind, key, Past(before, r), r.rest);
    NextAgain(kind, key, before, before', s, w);
    var u := Left(r, w);
    var p := Next(kind, key, before', u);
    ScanStep(kind, key, before', u);
    RescanRest(kind, key, before', r, w, p);
  }
}
