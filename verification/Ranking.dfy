/**
 Stable sorting under a total preorder, and taking the first few of a sorted sequence.
 */
module Ranking {

  ghost predicate Preorder<T(!new)>(le: (T, T) -> bool) {
    && (forall a, b :: le(a, b) || le(b, a))
    && (forall a, b, c :: le(a, b) && le(b, c) ==> le(a, c))
  }

  ghost predicate Sorted<T>(le: (T, T) -> bool, s: seq<T>) {
    forall i, j | 0 <= i < j < |s| :: le(s[i], s[j])
  }

  // Equal elements keep their order: x goes before the first element that it does not exceed.
  function Insert<T>(le: (T, T) -> bool, x: T, s: seq<T>): seq<T> {
    if s == [] || le(x, s[0]) then [x] + s else [s[0]] + Insert(le, x, s[1..])
  }

  function Sort<T>(le: (T, T) -> bool, s: seq<T>): seq<T> {
    if s == [] then [] else Insert(le, s[0], Sort(le, s[1..]))
  }

  function Take<T>(k: nat, s: seq<T>): seq<T> {
    if k <= |s| then s[..k] else s
  }

  function Map<A, B>(f: A -> B, s: seq<A>): (r: seq<B>)
    ensures |r| == |s| && forall i | 0 <= i < |s| :: r[i] == f(s[i])
  {
    if s == [] then [] else [f(s[0])] + Map(f, s[1..])
  }

  function Filter<T>(p: T -> bool, s: seq<T>): (r: seq<T>)
    ensures forall x | x in r :: x in s && p(x)
    ensures forall x | x in s && p(x) :: x in r
  {
    if s == [] then [] else (if p(s[0]) then [s[0]] else []) + Filter(p, s[1..])
  }

  lemma MapContains<A, B>(f: A -> B, s: seq<A>, x: A)
    requires x in s
    ensures f(x) in Map(f, s)
  {
    var i :| 0 <= i < |s| && s[i] == x;
    assert Map(f, s)[i] == f(x);
  }

  lemma MapOrigin<A, B>(f: A -> B, s: seq<A>, y: B) returns (x: A)
    requires y in Map(f, s)
    ensures x in s && f(x) == y
  {
    var i :| 0 <= i < |s| && Map(f, s)[i] == y;
    x := s[i];
  }

  lemma MapSnoc<A, B>(f: A -> B, s: seq<A>, x: A)
    ensures Map(f, s + [x]) == Map(f, s) + [f(x)]
  {
  }

  // ------------------------------------------------------------- sorting is what it should be --

  lemma {:induction false} InsertPermutes<T>(le: (T, T) -> bool, x: T, s: seq<T>)
    ensures multiset(Insert(le, x, s)) == multiset{x} + multiset(s)
  {
    if s != [] && !le(x, s[0]) {
      InsertPermutes(le, x, s[1..]);
      assert s == [s[0]] + s[1..];
    }
  }

  lemma {:induction false} InsertSorts<T(!new)>(le: (T, T) -> bool, x: T, s: seq<T>)
    requires Preorder(le) && Sorted(le, s)
    ensures Sorted(le, Insert(le, x, s))
    ensures multiset(Insert(le, x, s)) == multiset{x} + multiset(s)
  {
    InsertPermutes(le, x, s);
    if s != [] && !le(x, s[0]) {
      var rest := Insert(le, x, s[1..]);
      InsertSorts(le, x, s[1..]);
      forall y | y in rest ensures le(s[0], y) {
        assert y in multiset(rest);
        assert y == x || y in s[1..];
      }
    }
  }

  lemma {:induction false} SortSorts<T(!new)>(le: (T, T) -> bool, s: seq<T>)
    requires Preorder(le)
    ensures Sorted(le, Sort(le, s))
    ensures multiset(Sort(le, s)) == multiset(s)
    ensures |Sort(le, s)| == |s|
    ensures forall x :: x in Sort(le, s) <==> x in s
  {
    if s != [] {
      SortSorts(le, s[1..]);
      InsertSorts(le, s[0], Sort(le, s[1..]));
      assert s == [s[0]] + s[1..];
    }
    assert |multiset(Sort(le, s))| == |Sort(le, s)|;
    forall x ensures x in Sort(le, s) <==> x in s {
      assert x in Sort(le, s) <==> x in multiset(Sort(le, s));
      assert x in s <==> x in multiset(s);
    }
  }

  lemma {:induction false} SortOfSorted<T(!new)>(le: (T, T) -> bool, s: seq<T>)
    requires Sorted(le, s)
    ensures Sort(le, s) == s
  {
    if s != [] {
      SortOfSorted(le, s[1..]);
      assert s == [s[0]] + s[1..];
    }
  }

  // Two orders that agree through f sort alike.
  lemma {:induction false} SortThroughMap<A, B>(leA: (A, A) -> bool, leB: (B, B) -> bool, f: A -> B, s: seq<A>)
    requires forall x, y | x in s && y in s :: leA(x, y) == leB(f(x), f(y))
    ensures Sort(leB, Map(f, s)) == Map(f, Sort(leA, s))
    ensures forall x :: x in Sort(leA, s) ==> x in s
  {
    if s != [] {
      assert forall x | x in s[1..] :: x in s;
      SortThroughMap(leA, leB, f, s[1..]);
      InsertThroughMap(leA, leB, f, s[0], Sort(leA, s[1..]));
      assert Map(f, s)[1..] == Map(f, s[1..]);
    }
  }

  lemma {:induction false} InsertThroughMap<A, B>(
    leA: (A, A) -> bool, leB: (B, B) -> bool, f: A -> B, x: A, s: seq<A>)
    requires forall y | y in s :: leA(x, y) == leB(f(x), f(y))
    ensures Insert(leB, f(x), Map(f, s)) == Map(f, Insert(leA, x, s))
    ensures forall y :: y in Insert(leA, x, s) ==> y == x || y in s
  {
    if s == [] {
    } else if leA(x, s[0]) {
      assert ([x] + s)[1..] == s;
    } else {
      assert forall y | y in s[1..] :: y in s;
      InsertThroughMap(leA, leB, f, x, s[1..]);
      assert Map(f, s)[1..] == Map(f, s[1..]);
      assert ([s[0]] + Insert(leA, x, s[1..]))[1..] == Insert(leA, x, s[1..]);
    }
  }

  // --------------------------------------------------------------- merging two limited lists --

  function Merge<T>(le: (T, T) -> bool, a: seq<T>, b: seq<T>): seq<T>
    decreases |a| + |b|
  {
    if a == [] then b
    else if b == [] then a
    else if le(a[0], b[0]) then [a[0]] + Merge(le, a[1..], b)
    else [b[0]] + Merge(le, a, b[1..])
  }

  lemma {:induction false} InsertIntoMerge<T(!new)>(le: (T, T) -> bool, x: T, a: seq<T>, b: seq<T>)
    requires Preorder(le)
    ensures Insert(le, x, Merge(le, a, b)) == Merge(le, Insert(le, x, a), b)
    decreases |a| + |b|
  {
    if b == [] {
    } else if a == [] {
      if !le(x, b[0]) {
        InsertIntoMerge(le, x, a, b[1..]);
      } else {
        assert ([x] + a)[1..] == a;
      }
    } else if le(a[0], b[0]) {
      if le(x, a[0]) {
        assert ([x] + a)[1..] == a;
      } else {
        InsertIntoMerge(le, x, a[1..], b);
        assert ([a[0]] + Insert(le, x, a[1..]))[1..] == Insert(le, x, a[1..]);
        assert ([a[0]] + Merge(le, a[1..], b))[1..] == Merge(le, a[1..], b);
      }
    } else {
      if le(x, b[0]) {
        assert le(x, a[0]);
        assert ([x] + a)[1..] == a;
      } else {
        InsertIntoMerge(le, x, a, b[1..]);
        assert ([b[0]] + Merge(le, a, b[1..]))[1..] == Merge(le, a, b[1..]);
      }
    }
  }

  lemma {:induction false} SortOfConcat<T(!new)>(le: (T, T) -> bool, a: seq<T>, b: seq<T>)
    requires Preorder(le)
    ensures Sort(le, a + b) == Merge(le, Sort(le, a), Sort(le, b))
  {
    if a == [] {
      assert a + b == b;
    } else {
      assert (a + b)[1..] == a[1..] + b;
      SortOfConcat(le, a[1..], b);
      InsertIntoMerge(le, a[0], Sort(le, a[1..]), Sort(le, b));
    }
  }

  // Merging step by step, from lists of which only the first k are known
  lemma TakeOfMergeStep<T>(k: nat, x: T, rest: seq<T>, rest': seq<T>)
    requires k > 0 && Take(k - 1, rest) == Take(k - 1, rest')
    ensures Take(k, [x] + rest) == Take(k, [x] + rest')
  {
    TakeCons(k, x, rest);
    TakeCons(k, x, rest');
  }

  lemma {:induction false} TakeOfMerge<T>(le: (T, T) -> bool, k: nat, a: seq<T>, b: seq<T>)
    ensures Take(k, Merge(le, a, b)) == Take(k, Merge(le, Take(k, a), Take(k, b)))
    decreases k
  {
    if k == 0 {
    } else if a == [] || b == [] {
      TakeOfOne(le, k, a, b);
    } else {
      hide Take;
      TakeAgain(k, a);
      TakeAgain(k, b);
      if le(a[0], b[0]) {
        TakeOfMergeLeft(le, k, a, b);
      } else {
        TakeOfMergeRight(le, k, a, b);
      }
    }
  }

  lemma TakeOfOne<T>(le: (T, T) -> bool, k: nat, a: seq<T>, b: seq<T>)
    requires a == [] || b == []
    ensures Take(k, Merge(le, a, b)) == Take(k, Merge(le, Take(k, a), Take(k, b)))
  {
  }

  lemma {:induction false} TakeOfMergeLeft<T>(le: (T, T) -> bool, k: nat, a: seq<T>, b: seq<T>)
    requires k > 0 && a != [] && b != [] && le(a[0], b[0])
    ensures Take(k, Merge(le, a, b)) == Take(k, Merge(le, Take(k, a), Take(k, b)))
    decreases k, 0
  {
    var a', b' := Take(k, a), Take(k, b);
    TakeAgain(k, a);
    TakeAgain(k, b);
    TakeOfMerge(le, k - 1, a[1..], b);
    TakeOfMerge(le, k - 1, a'[1..], b');
    hide Take;
    TakeOfMergeStep(k, a[0], Merge(le, a[1..], b), Merge(le, a'[1..], b'));
  }

  lemma {:induction false} TakeOfMergeRight<T>(le: (T, T) -> bool, k: nat, a: seq<T>, b: seq<T>)
    requires k > 0 && a != [] && b != [] && !le(a[0], b[0])
    ensures Take(k, Merge(le, a, b)) == Take(k, Merge(le, Take(k, a), Take(k, b)))
    decreases k, 0
  {
    var a', b' := Take(k, a), Take(k, b);
    TakeAgain(k, a);
    TakeAgain(k, b);
    TakeOfMerge(le, k - 1, a, b[1..]);
    TakeOfMerge(le, k - 1, a', b'[1..]);
    hide Take;
    TakeOfMergeStep(k, b[0], Merge(le, a, b[1..]), Merge(le, a', b'[1..]));
  }

  lemma TakeCons<T>(k: nat, x: T, s: seq<T>)
    requires k > 0
    ensures Take(k, [x] + s) == [x] + Take(k - 1, s)
  {
  }

  lemma TakeAgain<T>(k: nat, s: seq<T>)
    requires k > 0 && s != []
    ensures Take(k, s) != [] && Take(k, s)[0] == s[0]
    ensures Take(k - 1, Take(k, s)) == Take(k - 1, s)
    ensures Take(k - 1, Take(k, s)[1..]) == Take(k - 1, s[1..])
  {
  }

  // The best k of two lists are found among the best k of each.
  lemma BestOfTwo<T(!new)>(le: (T, T) -> bool, k: nat, a: seq<T>, b: seq<T>)
    requires Preorder(le)
    ensures Take(k, Sort(le, Take(k, Sort(le, a)) + Take(k, Sort(le, b)))) == Take(k, Sort(le, a + b))
  {
    var best, best' := Take(k, Sort(le, a)), Take(k, Sort(le, b));
    SortSorts(le, a);
    SortSorts(le, b);
    SortOfSorted(le, best);
    SortOfSorted(le, best');
    SortOfConcat(le, best, best');
    SortOfConcat(le, a, b);
    TakeOfMerge(le, k, Sort(le, a), Sort(le, b));
  }

  // What taking the first k of a sorted list means for every element of the list.
  lemma TakeIsBest<T(!new)>(le: (T, T) -> bool, k: nat, s: seq<T>, x: T)
    requires Preorder(le) && x in s
    ensures var best := Take(k, Sort(le, s));
            x in best || (|best| == k && forall y | y in best :: le(y, x))
  {
    SortSorts(le, s);
    var sorted := Sort(le, s);
    var i :| 0 <= i < |sorted| && sorted[i] == x;
    if k <= i {
      assert forall y | y in sorted[..k] :: le(y, x);
    } else {
      assert Take(k, sorted)[i] == x;
    }
  }

  lemma TakenFrom<T(!new)>(le: (T, T) -> bool, k: nat, s: seq<T>, x: T)
    requires Preorder(le) && x in Take(k, Sort(le, s))
    ensures x in s
  {
    SortSorts(le, s);
    assert x in Sort(le, s);
  }

  // Of two kinds of elements, only the one that ranks strictly first is taken first.
  lemma FirstIsFirst<T(!new)>(le: (T, T) -> bool, s: seq<T>, p: T, q: T, x: T)
    requires Preorder(le) && p in s && !le(q, p) && forall y | y in s :: y == p || y == q
    requires x in Take(1, Sort(le, s))
    ensures x == p
  {
    TakenFrom(le, 1, s, x);
    TakeIsBest(le, 1, s, p);
    assert p in Take(1, Sort(le, s)) ==> Take(1, Sort(le, s)) == [p];
  }
}
