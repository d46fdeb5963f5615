/**
 The order of strings by their characters, first difference first, as both SQLite's binary collation
 and the comparison of UTF-8 strings have it.
 */
module TextOrder {

  predicate LexLe(a: string, b: string) {
    a == [] || (b != [] && (a[0] < b[0] || (a[0] == b[0] && LexLe(a[1..], b[1..]))))
  }

  lemma {:induction false} LexTotal(a: string, b: string)
    ensures LexLe(a, b) || LexLe(b, a)
    ensures LexLe(a, b) && LexLe(b, a) ==> a == b
    ensures LexLe(a, a)
    decreases |a|
  {
    if a != [] && b != [] {
      LexTotal(a[1..], b[1..]);
      assert a == [a[0]] + a[1..] && b == [b[0]] + b[1..];
    }
    if a != [] {
      LexTotal(a[1..], a[1..]);
    }
  }

  lemma {:induction false} LexTransitive(a: string, b: string, c: string)
    requires LexLe(a, b) && LexLe(b, c)
    ensures LexLe(a, c)
    decreases |a|
  {
    if a != [] && a[0] == b[0] && b[0] == c[0] {
      LexTransitive(a[1..], b[1..], c[1..]);
    }
  }

  lemma LexIsPreorder()
    ensures forall a, b :: LexLe(a, b) || LexLe(b, a)
    ensures forall a, b, c :: LexLe(a, b) && LexLe(b, c) ==> LexLe(a, c)
  {
    forall a: string, b: string ensures LexLe(a, b) || LexLe(b, a) {
      LexTotal(a, b);
    }
    forall a: string, b: string, c: string | LexLe(a, b) && LexLe(b, c) ensures LexLe(a, c) {
      LexTransitive(a, b, c);
    }
  }

  // How pairs rank: by the first, then by the second.
  predicate PairLe(a: string, b: string, c: string, d: string) {
    if a == c then LexLe(b, d) else LexLe(a, c)
  }

  // One text continues the other with a character that does not rank after the separator.
  predicate Collides(separator: char, a: string, c: string) {
    a < c && c[|a|] <= separator
  }

  lemma SharedStart(x: char, s: string, t: string)
    ensures LexLe([x] + s, [x] + t) == LexLe(s, t)
  {
    assert ([x] + s)[1..] == s && ([x] + t)[1..] == t;
  }

  // Joining with a separator keeps the order of pairs when the first texts do not collide.
  lemma {:induction false} JoinedOrder(separator: char, a: string, b: string, c: string, d: string)
    requires !Collides(separator, a, c) && !Collides(separator, c, a)
    ensures PairLe(a, b, c, d) == LexLe(a + ([separator] + b), c + ([separator] + d))
  {
    if a == [] && c == [] {
      assert a + ([separator] + b) == [separator] + b && c + ([separator] + d) == [separator] + d;
      SharedStart(separator, b, d);
    } else if a == [] {
      assert a + ([separator] + b) == [separator] + b;
      assert (c + ([separator] + d))[0] == c[0];
    } else if c == [] {
      assert c + ([separator] + d) == [separator] + d;
      assert (a + ([separator] + b))[0] == a[0];
    } else if a[0] == c[0] {
      JoinedTail(separator, a, c);
      JoinedOrder(separator, a[1..], b, c[1..], d);
      assert a == [a[0]] + a[1..] && c == [c[0]] + c[1..];
      assert a + ([separator] + b) == [a[0]] + (a[1..] + ([separator] + b));
      assert c + ([separator] + d) == [c[0]] + (c[1..] + ([separator] + d));
      SharedStart(a[0], a[1..], c[1..]);
      SharedStart(a[0], a[1..] + ([separator] + b), c[1..] + ([separator] + d));
    } else {
      assert (a + ([separator] + b))[0] == a[0] && (c + ([separator] + d))[0] == c[0];
    }
  }

  lemma JoinedTail(separator: char, a: string, c: string)
    requires a != [] && c != [] && a[0] == c[0]
    ensures Collides(separator, a, c) == Collides(separator, a[1..], c[1..])
    ensures Collides(separator, c, a) == Collides(separator, c[1..], a[1..])
  {
    assert a == [a[0]] + a[1..] && c == [c[0]] + c[1..];
    assert a < c <==> a[1..] < c[1..];
    assert c < a <==> c[1..] < a[1..];
  }

  lemma {:induction false} SharedPrefix(a: string, s: string, t: string)
    ensures LexLe(a + s, a + t) == LexLe(s, t)
  {
    if a == [] {
      assert a + s == s && a + t == t;
    } else {
      assert a + s == [a[0]] + (a[1..] + s) && a + t == [a[0]] + (a[1..] + t);
      SharedStart(a[0], a[1..] + s, a[1..] + t);
      SharedPrefix(a[1..], s, t);
    }
  }

  // The first difference decides.
  lemma FirstDifference(a: string, x: char, s: string, y: char, t: string)
    requires x != y
    ensures LexLe(a + ([x] + s), a + ([y] + t)) <==> x < y
  {
    SharedPrefix(a, [x] + s, [y] + t);
  }

  // A text does not rank after itself continued, and the continued one does not rank before.
  lemma LongerIsLater(a: string, x: string)
    requires x != []
    ensures LexLe(a, a + x) && !LexLe(a + x, a)
  {
    SharedPrefix(a, [], x);
    SharedPrefix(a, x, []);
    assert a + [] == a;
  }

  // For texts that collide there are second texts for which the order is lost, as long as one likes.
  lemma CollisionReorders(separator: char, a: string, c: string) returns (b: string, d: string)
    requires Collides(separator, a, c)
    ensures |c| < |d| < |b|
    ensures LexLe(a, c) && a != c && !LexLe(a + ([separator] + b), c + ([separator] + d))
  {
    var rest := c[|a|..];
    assert c == a + rest;
    LongerIsLater(a, rest);
    d := c + [separator];
    b := rest[1..] + ([separator] + d) + [separator];
    LateSecond(separator, rest, d);
    SharedPrefix(a, [separator] + b, rest + ([separator] + d));
    assert c + ([separator] + d) == a + (rest + ([separator] + d));
  }

  lemma LateSecond(separator: char, rest: string, d: string)
    requires rest != [] && rest[0] <= separator
    ensures !LexLe([separator] + (rest[1..] + ([separator] + d) + [separator]), rest + ([separator] + d))
  {
    var second := rest[1..] + ([separator] + d);
    LongerIsLater(second, [separator]);
    assert rest + ([separator] + d) == [rest[0]] + second;
    if rest[0] == separator {
      SharedStart(separator, second + [separator], second);
    } else {
      assert ([rest[0]] + second)[0] == rest[0];
    }
  }

  // The order of pairs survives joining, whatever the second texts, exactly when the first do not collide.
  lemma JoinedOrderIff(separator: char, a: string, c: string)
    ensures (forall b, d ::
               && PairLe(a, b, c, d) == LexLe(a + ([separator] + b), c + ([separator] + d))
               && PairLe(c, d, a, b) == LexLe(c + ([separator] + d), a + ([separator] + b)))
            <==> !Collides(separator, a, c) && !Collides(separator, c, a)
  {
    if Collides(separator, a, c) {
      var b, d := CollisionReorders(separator, a, c);
      assert PairLe(a, b, c, d) != LexLe(a + ([separator] + b), c + ([separator] + d));
    } else if Collides(separator, c, a) {
      var d, b := CollisionReorders(separator, c, a);
      assert PairLe(c, d, a, b) != LexLe(c + ([separator] + d), a + ([separator] + b));
    } else {
      forall b, d
        ensures && PairLe(a, b, c, d) == LexLe(a + ([separator] + b), c + ([separator] + d))
                && PairLe(c, d, a, b) == LexLe(c + ([separator] + d), a + ([separator] + b))
      {
        JoinedOrder(separator, a, b, c, d);
        JoinedOrder(separator, c, d, a, b);
      }
    }
  }
}
