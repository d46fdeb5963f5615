/**
 UTF-8 text as bytes, and the lossy conversion of arbitrary bytes to text: each maximal malformed
 part becomes one U+FFFD (section 3.9 of the Unicode Standard).
 */
module Utf8 {
  import opened Outcomes

  function EncodeChar(c: char): (b: Bytes)
    ensures 1 <= |b| <= 4
    ensures |b| == 1 <==> c as int < 0x80
    ensures |b| > 1 ==> forall i | 0 <= i < |b| :: b[i] >= 0x80
    ensures !IsContinuation(b[0]) && forall i | 1 <= i < |b| :: IsContinuation(b[i])
  {
    var n := c as int;
    if n < 0x80 then [n as byte]
    else if n < 0x800 then [(0xC0 + n / 64) as byte, Tail(n)]
    else if n < 0x1_0000 then [(0xE0 + n / 4096) as byte, Tail(n / 64), Tail(n)]
    else [(0xF0 + n / 262144) as byte, Tail(n / 4096), Tail(n / 64), Tail(n)]
  }

  function Tail(n: nat): (b: byte)
    ensures IsContinuation(b)
  {
    (0x80 + n % 64) as byte
  }

  predicate IsContinuation(b: byte) {
    0x80 <= b < 0xC0
  }

  // Table 3-6 of the Unicode Standard
  lemma EncodedBits(c: char)
    ensures var b, n := EncodeChar(c), c as int;
            if |b| == 1 then n < 0x80 && n == b[0] as int
            else if |b| == 2 then 0x80 <= n < 0x800 && n == (b[0] as int - 0xC0) * 64 + (b[1] as int - 0x80)
            else if |b| == 3 then
              && 0x800 <= n < 0x1_0000
              && n == (b[0] as int - 0xE0) * 4096 + (b[1] as int - 0x80) * 64 + (b[2] as int - 0x80)
            else
              && 0x1_0000 <= n && |b| == 4
              && n == (b[0] as int - 0xF0) * 262144 + (b[1] as int - 0x80) * 4096 + (b[2] as int - 0x80) * 64
                      + (b[3] as int - 0x80)
  {
    Digits(c as int);
  }

  function Encode(s: string): (b: Bytes)
    ensures |b| >= |s|
  {
    if s == [] then [] else EncodeChar(s[0]) + Encode(s[1..])
  }

  // What the decoder takes from the front of some bytes: a character or U+FFFD, and how many bytes.
  datatype Taken = Taken(decoded: char, count: nat)

  const REPLACEMENT := '\U{FFFD}'

  function ByteAt(b: Bytes, i: nat): byte {
    if i < |b| then b[i] else 0
  }

  // The bytes that may follow the first byte of a sequence of three or four.
  predicate SecondFits(first: byte, second: byte) {
    if first == 0xE0 then 0xA0 <= second <= 0xBF
    else if first == 0xED then 0x80 <= second <= 0x9F
    else if first == 0xF0 then 0x90 <= second <= 0xBF
    else if first == 0xF4 then 0x80 <= second <= 0x8F
    else IsContinuation(second)
  }

  function TakeOne(b: Bytes): (t: Taken)
    requires b != []
    ensures 1 <= t.count <= |b|
    ensures b[0] < 0x80 ==> t == Taken(b[0] as int as char, 1)
    ensures forall i | 1 <= i < t.count :: b[i] >= 0x80
  {
    var first, second, third, fourth := b[0], ByteAt(b, 1), ByteAt(b, 2), ByteAt(b, 3);
    if first < 0x80 then
      Taken(first as int as char, 1)
    else if 0xC2 <= first <= 0xDF then
      if !IsContinuation(second) then Taken(REPLACEMENT, 1)
      else Taken(((first as int - 0xC0) * 64 + (second as int - 0x80)) as char, 2)
    else if 0xE0 <= first <= 0xEF then
      if !SecondFits(first, second) then Taken(REPLACEMENT, 1)
      else if !IsContinuation(third) then Taken(REPLACEMENT, 2)
      else Taken(((first as int - 0xE0) * 4096 + (second as int - 0x80) * 64 + (third as int - 0x80)) as char, 3)
    else if 0xF0 <= first <= 0xF4 then
      if !SecondFits(first, second) then Taken(REPLACEMENT, 1)
      else if !IsContinuation(third) then Taken(REPLACEMENT, 2)
      else if !IsContinuation(fourth) then Taken(REPLACEMENT, 3)
      else
        Taken(((first as int - 0xF0) * 262144 + (second as int - 0x80) * 4096
               + (third as int - 0x80) * 64 + (fourth as int - 0x80)) as char, 4)
    else
      Taken(REPLACEMENT, 1)
  }

  // String::from_utf8_lossy
  function Lossy(b: Bytes): string {
    if b == [] then [] else
    var t := TakeOne(b);
    [t.decoded] + Lossy(b[t.count..])
  }

  // The digits of a number in base 64.
  lemma Digits(n: nat)
    ensures n == n / 64 * 64 + n % 64
    ensures n == n / 4096 * 4096 + n / 64 % 64 * 64 + n % 64
    ensures n == n / 262144 * 262144 + n / 4096 % 64 * 4096 + n / 64 % 64 * 64 + n % 64
  {
    assert n / 4096 == n / 64 / 64;
    assert n / 262144 == n / 4096 / 64;
  }

  lemma TakeTwo(c: char, b: Bytes)
    requires 0x80 <= c as int < 0x800 && EncodeChar(c) <= b
    ensures TakeOne(b) == Taken(c, 2)
  {
    var n := c as int;
    Digits(n);
    assert b[0] == EncodeChar(c)[0] && b[1] == EncodeChar(c)[1];
    assert b[1] as int == 0x80 + n % 64;
  }

  lemma TakeThree(c: char, b: Bytes)
    requires 0x800 <= c as int < 0x1_0000 && EncodeChar(c) <= b
    ensures TakeOne(b) == Taken(c, 3)
  {
    var n := c as int;
    Digits(n);
    assert b[0] == EncodeChar(c)[0] && b[1] == EncodeChar(c)[1] && b[2] == EncodeChar(c)[2];
    assert b[0] as int == 0xE0 + n / 4096;
    assert b[1] as int == 0x80 + n / 64 % 64 && b[2] as int == 0x80 + n % 64;
    hide EncodeChar, Tail;
  }

  lemma TakeFour(c: char, b: Bytes)
    requires 0x1_0000 <= c as int && EncodeChar(c) <= b
    ensures TakeOne(b) == Taken(c, 4)
  {
    var n := c as int;
    Digits(n);
    assert forall i | 0 <= i < 4 :: b[i] == EncodeChar(c)[i];
    assert b[0] as int == 0xF0 + n / 262144;
    assert b[1] as int == 0x80 + n / 4096 % 64;
    assert b[2] as int == 0x80 + n / 64 % 64 && b[3] as int == 0x80 + n % 64;
    hide EncodeChar, Tail;
  }

  lemma TakeOneOfEncoded(c: char, rest: Bytes)
    ensures TakeOne(EncodeChar(c) + rest) == Taken(c, |EncodeChar(c)|)
  {
    var b := EncodeChar(c) + rest;
    if c as int < 0x80 {
    } else if c as int < 0x800 {
      TakeTwo(c, b);
    } else if c as int < 0x1_0000 {
      TakeThree(c, b);
    } else {
      TakeFour(c, b);
    }
  }

  // Text survives the conversion to bytes and back.
  lemma {:induction false} LossyOfText(s: string)
    ensures Lossy(Encode(s)) == s
  {
    if s != [] {
      TakeOneOfEncoded(s[0], Encode(s[1..]));
      assert Encode(s)[|EncodeChar(s[0])|..] == Encode(s[1..]);
      LossyOfText(s[1..]);
    }
  }

  // No byte below 128 is ever swallowed by a malformed sequence before it, and none is invented.
  lemma {:induction false} LossyKeepsAscii(b: Bytes, c: char)
    requires c as int < 0x80
    ensures c in Lossy(b) <==> c as int as byte in b
  {
    if b != [] {
      var t := TakeOne(b);
      LossyKeepsAscii(b[t.count..], c);
      assert b == b[..t.count] + b[t.count..];
      assert c as int as byte in b[..t.count] <==> t.decoded == c by {
        if b[0] >= 0x80 {
          TakesNoAscii(b);
          assert forall i | 0 <= i < t.count :: b[i] >= 0x80;
        } else {
          assert b[..1] == [b[0]];
        }
      }
    }
  }

  lemma TakesNoAscii(b: Bytes)
    requires b != [] && b[0] >= 0x80
    ensures TakeOne(b).decoded as int >= 0x80
  {
  }

  lemma {:induction false} EncodeConcat(s: string, t: string)
    ensures Encode(s + t) == Encode(s) + Encode(t)
  {
    if s == [] {
      assert s + t == t;
    } else {
      assert (s + t)[1..] == s[1..] + t;
      EncodeConcat(s[1..], t);
    }
  }

  predicate IsAscii(s: string) {
    forall c | c in s :: c as int < 0x80
  }

  lemma {:induction false} EncodeAscii(s: string)
    requires IsAscii(s)
    ensures |Encode(s)| == |s| && forall i | 0 <= i < |s| :: Encode(s)[i] as int == s[i] as int
  {
    if s != [] {
      assert s[0] in s;
      assert forall c | c in s[1..] :: c in s;
      EncodeAscii(s[1..]);
    }
  }

  // Character boundaries are the positions that do not hold a continuation byte.
  predicate IsBoundary(b: Bytes, i: nat)
    requires i <= |b|
  {
    i == 0 || i == |b| || !IsContinuation(b[i])
  }

  lemma {:induction false} BoundaryIsBetweenChars(s: string, i: nat) returns (k: nat)
    requires i <= |Encode(s)| && IsBoundary(Encode(s), i)
    ensures k <= |s| && Encode(s[..k]) == Encode(s)[..i]
  {
    if i == 0 {
      k := 0;
    } else {
      var n := |EncodeChar(s[0])|;
      var rest := Encode(s[1..]);
      assert i >= n;
      assert i < |Encode(s)| ==> Encode(s)[i] == rest[i - n];
      k := BoundaryIsBetweenChars(s[1..], i - n);
      k := k + 1;
      assert s[..k][1..] == s[1..][..k - 1];
      assert Encode(s)[..i] == EncodeChar(s[0]) + rest[..i - n];
    }
  }

  lemma {:induction false} BetweenCharsIsBoundary(s: string, k: nat)
    requires k <= |s|
    ensures Encode(s) == Encode(s[..k]) + Encode(s[k..])
    ensures IsBoundary(Encode(s), |Encode(s[..k])|)
  {
    assert s == s[..k] + s[k..];
    EncodeConcat(s[..k], s[k..]);
    if k < |s| {
      assert Encode(s)[|Encode(s[..k])|] == EncodeChar(s[k])[0];
    }
  }
}
