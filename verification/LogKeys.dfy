/**
 Which secrets the log view hides: the sanitizer has a pass for every key and every flag, and no pass
 spoils the work of another.
 */
module LogKeys {
  import opened Splitting
  import opened SecretScan
  import opened SecretRescan
  import opened SecretHiding
  import opened LogTail

  predicate IsName(kind: Kind, key: string) {
    match kind
    case Bearer => key == "bearer"
    case Assignment =>
      || key == "solo_passphrase" || key == "passphrase" || key == "password" || key == "bearer_token"
      || key == "access_token" || key == "refresh_token" || key == "api_key" || key == "apikey" || key == "token"
      || key == "secret"
    case Flag =>
      || key == "--bearer-token" || key == "--access-token" || key == "--refresh-token" || key == "--api-key"
      || key == "--token" || key == "--passphrase" || key == "--password" || key == "--secret"
  }

  ghost predicate IsNumber(s: string) {
    s != "" && forall c | c in s :: '0' <= c <= '9'
  }

  // A number, or what stands in its place once it is hidden
  ghost predicate IsShown(x: string) {
    IsNumber(x) || x == MARKER
  }

  function Sep(kind: Kind): char {
    if kind.Bearer? then ' ' else '='
  }

  function Line(kind: Kind, name: string, x: string): string {
    name + ([Sep(kind)] + x)
  }

  lemma NamesAreUnlike(kind: Kind, key: string)
    requires IsName(kind, key)
    ensures Unlike(key) && SoundKey(key)
  {
    hide Unlike, SoundKey;
    WordsAreUnlike();
    TokenWordsAreUnlike();
    FlagsAreUnlike();
    UnlikeIsSound(key);
  }

  // ----------------------------------------------------------------------- no name starts another --

  lemma NamesOfOneKind(kind: Kind, a: string, b: string)
    requires IsName(kind, a) && IsName(kind, b) && a <= b
    ensures a == b
  {
    match kind
    case Bearer =>
    case Assignment => assert a[0] == b[0] && a[1] == b[1] && a[4] == b[4];
    case Flag => assert a[2] == b[2] && a[3] == b[3] && a[6] == b[6];
  }

  lemma FirstLetters(kind: Kind, key: string)
    requires IsName(kind, key)
    ensures |key| >= 5 && (kind.Flag? <==> key[0] == '-') && ('a' <= key[0] <= 'z' || key[0] == '-')
    ensures key[0] == 'b' && key[1] == 'e' ==> key == "bearer" || key == "bearer_token"
  {
  }

  lemma NoNameStartsAnother(kind: Kind, a: string, kind': Kind, b: string)
    requires IsName(kind, a) && IsName(kind', b) && a <= b
    ensures a == b || (a == "bearer" && b == "bearer_token")
  {
    FirstLetters(kind, a);
    FirstLetters(kind', b);
    assert a[0] == b[0] && a[1] == b[1];
    if kind == kind' {
      NamesOfOneKind(kind, a, b);
    }
  }

  lemma UnlikePrefix(a: string, b: string, sep: char, x: string)
    requires Unlike(a) && Unlike(b) && (sep == '=' || sep == ' ') && Matches(a, b + ([sep] + x))
    ensures a <= b
  {
    var s := b + ([sep] + x);
    assert s[|b|] == sep;
    forall i | 0 <= i < |a| && i < |b| ensures a[i] == b[i] {
      assert s[i] == b[i];
    }
  }

  lemma MatchIsPrefix(kind: Kind, a: string, kind': Kind, b: string, x: string)
    requires IsName(kind, a) && IsName(kind', b) && Matches(a, Line(kind', b, x))
    ensures a <= b
  {
    hide IsName, Unlike, Matches;
    NamesAreUnlike(kind, a);
    NamesAreUnlike(kind', b);
    UnlikePrefix(a, b, Sep(kind'), x);
  }

  // ------------------------------------------------------------------------- what a pass leaves --

  lemma StepKeeps(kind: Kind, key: string, before: string, s: string)
    requires key != "" && s != "" && (Matches(key, s) ==> !Boundary(before))
    ensures var n := if Matches(key, s) then |key| else 1;
            Scan(kind, key, before, s) == s[..n] + Scan(kind, key, before + s[..n], s[n..])
  {
    var n := if Matches(key, s) then |key| else 1;
    var r := Next(kind, key, before, s);
    assert r == Advance(s[..n], "", s[n..]);
    hide Scan, Matches, Next, Boundary;
    ScanStep(kind, key, before, s);
    assert Past(before, r) == before + s[..n];
    var w := Scan(kind, key, before + s[..n], s[n..]);
    assert "" + w == w;
  }

  // Where no key stands alone, nothing is hidden.
  lemma {:induction false} NoStandingIsKept(kind: Kind, key: string, before: string, s: string)
    requires key != ""
    requires forall i | 0 <= i < |s| :: Matches(key, s[i..]) ==> !Boundary(before + s[..i])
    ensures Scan(kind, key, before, s) == s
    decreases |s|
  {
    hide Scan, Boundary;
    if s == "" {
      EmptyScan(kind, key, before);
    } else {
      assert s[0..] == s && before + s[..0] == before;
      var n := if Matches(key, s) then |key| else 1;
      StepKeeps(kind, key, before, s);
      assert 0 < n <= |s|;
      hide Matches;
      var t, front := s[n..], before + s[..n];
      forall i | 0 <= i < |t| ensures Matches(key, t[i..]) ==> !Boundary(front + t[..i]) {
        assert t[i..] == s[n + i..] && front + t[..i] == before + s[..n + i];
      }
      NoStandingIsKept(kind, key, front, t);
      assert s[..n] + s[n..] == s;
    }
  }

  lemma NoMatchInValue(kind: Kind, a: string, x: string, j: nat)
    requires IsName(kind, a) && IsShown(x) && j < |x|
    ensures !Matches(a, x[j..])
  {
    NamesAreUnlike(kind, a);
    FirstLetters(kind, a);
    if x != MARKER {
      assert x[j] in x && x[j..][0] == x[j];
      assert Lower(x[j]) != Lower(a[0]);
    }
  }

  // A name stands alone in such a line at most at its front.
  lemma NamesAtFront(kind: Kind, a: string, kind': Kind, b: string, x: string, i: nat)
    requires IsName(kind, a) && IsName(kind', b) && IsShown(x) && 0 < i < |Line(kind', b, x)|
    ensures Matches(a, Line(kind', b, x)[i..]) ==> !Boundary(Line(kind', b, x)[..i])
  {
    hide IsName, IsShown;
    NamesAreUnlike(kind, a);
    NamesAreUnlike(kind', b);
    var s := Line(kind', b, x);
    if i < |b| {
      assert s[..i][i - 1] == b[i - 1] && IsKeyChar(b[i - 1]);
    } else if i == |b| {
      assert s[i..][0] == Sep(kind') && Lower(a[0]) == a[0] && IsKeyChar(a[0]);
      assert Lower(Sep(kind')) != Lower(a[0]);
    } else {
      assert s[i..] == x[i - |b| - 1..];
      NoMatchInValue(kind, a, x, i - |b| - 1);
    }
  }

  lemma OtherPassKeeps(kind: Kind, a: string, kind': Kind, b: string, x: string)
    requires IsName(kind, a) && IsName(kind', b) && IsShown(x) && a != b && !(a == "bearer" && b == "bearer_token")
    ensures Scan(kind, a, "", Line(kind', b, x)) == Line(kind', b, x)
  {
    var s := Line(kind', b, x);
    if Matches(a, s) {
      MatchIsPrefix(kind, a, kind', b, x);
      NoNameStartsAnother(kind, a, kind', b);
    }
    hide Scan, Matches, Boundary, Line, IsName;
    forall i | 0 <= i < |s| ensures Matches(a, s[i..]) ==> !Boundary("" + s[..i]) {
      assert "" + s[..i] == s[..i];
      if i == 0 {
        assert s[0..] == s;
      } else {
        NamesAtFront(kind, a, kind', b, x, i);
      }
    }
    NamesAreUnlike(kind, a);
    NoStandingIsKept(kind, a, "", s);
  }

  lemma NextRunsOn(key: string, c: char, tail: string)
    requires key != "" && !IsWhitespace(c)
    ensures Next(Bearer, key, "", key + ([c] + tail)) == Advance(key + [c], "", tail)
  {
    var rest := [c] + tail;
    var s := key + rest;
    assert s[..|key|] == key && s[|key|..] == rest && rest[1..] == tail && rest[0] == c;
    hide IsWhitespace;
    assert AfterSeparator(Bearer, rest) == Advance([c], "", tail);
    hide AfterSeparator;
    assert Probe(Bearer, rest) == Advance([c], "", tail);
    hide Probe;
    assert Matches(key, s);
  }

  // A key that runs on is passed over.
  lemma RunsOn(key: string, c: char, tail: string)
    requires key != "" && !IsWhitespace(c)
    ensures Scan(Bearer, key, "", key + ([c] + tail)) == (key + [c]) + Scan(Bearer, key, key + [c], tail)
  {
    hide Scan, Next, IsWhitespace;
    NextRunsOn(key, c, tail);
    ScanStep(Bearer, key, "", key + ([c] + tail));
    assert "" + (key + [c]) + "" == key + [c];
    var w := Scan(Bearer, key, key + [c], tail);
    assert "" + w == w;
  }

  lemma BearerTokenLine(x: string)
    ensures Line(Assignment, "bearer_token", x) == "bearer" + (['_'] + Line(Assignment, "token", x))
    ensures ("bearer" + ['_']) + Line(Assignment, "token", x) == Line(Assignment, "bearer_token", x)
  {
    var rest := ['='] + x;
    assert "bearer_token" == "bearer" + (['_'] + "token");
    ThreeParts("bearer", ['_'], "token", rest);
  }

  lemma ThreeParts(a: string, b: string, c: string, rest: string)
    ensures (a + (b + c)) + rest == a + (b + (c + rest)) == (a + b) + (c + rest)
  {
  }

  lemma BearerTokenIsKept(x: string)
    requires IsShown(x)
    ensures Scan(Bearer, "bearer", "", Line(Assignment, "bearer_token", x)) == Line(Assignment, "bearer_token", x)
  {
    hide Scan, Line, IsShown;
    var tail := Line(Assignment, "token", x);
    BearerTokenLine(x);
    RunsOn("bearer", '_', tail);
    OnlyMatchesMatter(x);
    OtherPassKeeps(Bearer, "bearer", Assignment, "token", x);
  }

  lemma OnlyMatchesMatter(x: string)
    ensures Scan(Bearer, "bearer", "bearer" + ['_'], Line(Assignment, "token", x))
            == Scan(Bearer, "bearer", "", Line(Assignment, "token", x))
  {
    var tail := Line(Assignment, "token", x);
    assert tail[0] == 't';
    assert !Matches("bearer", tail) by {
      assert Lower(tail[0]) != Lower("bearer"[0]);
    }
    OnlyBoundaryMatters(Bearer, "bearer", "bearer" + ['_'], "", tail);
  }

  // The pass for a name hides its value.
  lemma OwnPassHides(kind: Kind, key: string, x: string)
    requires IsName(kind, key) && IsShown(x)
    ensures Scan(kind, key, "", Line(kind, key, x)) == Line(kind, key, MARKER)
  {
    NamesAreUnlike(kind, key);
    var n := if x == MARKER then "0" else x;
    HidesNumber(kind, key, n);
    if x == MARKER {
      RescanChangesNothing(kind, key, "", "", Line(kind, key, n));
    }
  }

  lemma LeadIsSeparator(c: char)
    ensures Lead("", c, "", "") == [c]
  {
  }

  lemma NumberIsValue(kind: Kind, x: string)
    requires IsNumber(x)
    ensures IsValue(kind, "", x, "") && IsGap(kind, "", "", "", "") && Introduces(kind, Sep(kind))
  {
  }

  lemma HidesNumber(kind: Kind, key: string, x: string)
    requires IsName(kind, key) && IsNumber(x)
    ensures Scan(kind, key, "", Line(kind, key, x)) == Line(kind, key, MARKER)
  {
    NamesAreUnlike(kind, key);
    NumberIsValue(kind, x);
    MatchesItself(key);
    LeadIsSeparator(Sep(kind));
    hide Scan, Lead, IsValue, IsGap, Introduces, Sep;
    var kept := "" + (key + [Sep(kind)]);
    FirstIsHidden(kind, key, "", key, "", "", "", "", Sep(kind), "", "", x, "");
    EmptyScan(kind, key, kept + x);
    Joined(key, [Sep(kind)], x);
    Joined(key, [Sep(kind)], MARKER);
  }

  lemma MatchesItself(key: string)
    ensures Matches(key, key)
  {
  }

  lemma Joined(a: string, b: string, c: string)
    ensures "" + (a + b) + (c + "") == a + (b + c)
  {
  }

  // Every pass of one kind, over a line with one name.
  lemma {:induction false} PassesOver(kind: Kind, keys: seq<Key>, kind': Kind, b: string, x: string)
    requires (forall k | k in keys :: IsName(kind, k)) && IsName(kind', b) && IsShown(x) && !kind.Bearer?
    requires kind != kind' ==> b !in keys
    ensures ScanAll(kind, keys, Line(kind', b, x)) ==
            Line(kind', b, if kind == kind' && b in keys then MARKER else x)
    decreases |keys|
  {
    if keys != [] {
      var k := keys[0];
      hide Scan, Line, IsName, IsShown;
      if k == b {
        OwnPassHides(kind, b, x);
        MarkerIsShown();
        PassesOver(kind, keys[1..], kind', b, MARKER);
      } else {
        KindOfBearer(kind, k);
        OtherPassKeeps(kind, k, kind', b, x);
        PassesOver(kind, keys[1..], kind', b, x);
      }
    }
  }

  lemma MarkerIsShown()
    ensures IsShown(MARKER)
  {
  }

  lemma KindOfBearer(kind: Kind, k: string)
    requires IsName(kind, k) && !kind.Bearer?
    ensures k != "bearer"
  {
  }

  lemma NamesAreListed(kind: Kind, key: string)
    ensures kind.Assignment? ==> (IsName(kind, key) <==> key in KEYS)
    ensures kind.Flag? ==> (IsName(kind, key) <==> key in FLAGS)
  {
  }

  lemma OneKindOnly(kind: Kind, kind': Kind, b: string)
    requires IsName(kind', b) && kind != kind'
    ensures !IsName(kind, b)
  {
  }

  // A line with any of the nineteen names before a number is shown without the number, and otherwise as
  // it is.
  lemma NamedSecretsAreHidden(kind: Kind, name: string, number: string)
    requires IsName(kind, name) && IsNumber(number)
    ensures Sanitized(Line(kind, name, number)) == Line(kind, name, "[redacted]")
  {
    hide Scan, Line, IsName, ScanAll, IsNumber;
    var x := if kind.Bearer? then MARKER else number;
    MarkerIsShown();
    if kind.Bearer? {
      BearerOnly(name);
      OwnPassHides(kind, name, number);
    } else if name == "bearer_token" {
      OneKindOnly(Flag, Assignment, "bearer_token");
      KindOfName(kind, name);
      BearerTokenIsKept(number);
    } else {
      BearerIsName();
      KindOfBearer(kind, name);
      OtherPassKeeps(Bearer, "bearer", kind, name, number);
    }
    ListedNames(kind, name);
    PassesOver(Assignment, KEYS, kind, name, x);
    var x' := if kind.Assignment? then MARKER else x;
    PassesOver(Flag, FLAGS, kind, name, x');
  }

  lemma BearerOnly(name: string)
    requires IsName(Bearer, name)
    ensures name == "bearer"
  {
  }

  lemma BearerIsName()
    ensures IsName(Bearer, "bearer")
  {
  }

  lemma KindOfName(kind: Kind, name: string)
    requires IsName(kind, name) && name == "bearer_token"
    ensures kind.Assignment?
  {
  }

  lemma ListedNames(kind: Kind, name: string)
    requires IsName(kind, name)
    ensures forall k | k in KEYS :: IsName(Assignment, k)
    ensures forall k | k in FLAGS :: IsName(Flag, k)
    ensures kind.Assignment? <==> name in KEYS
    ensures kind.Flag? <==> name in FLAGS
  {
    hide IsName;
    forall k: Key ensures (k in KEYS <==> IsName(Assignment, k)) && (k in FLAGS <==> IsName(Flag, k)) {
      NamesAreListed(Assignment, k);
      NamesAreListed(Flag, k);
    }
    NamesAreListed(Assignment, name);
    NamesAreListed(Flag, name);
    if !kind.Assignment? { OneKindOnly(Assignment, kind, name); }
    if !kind.Flag? { OneKindOnly(Flag, kind, name); }
  }
}
