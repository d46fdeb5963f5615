/**
 Cutting text at the first character of a given kind.
 */
module Splitting {

  datatype Split = Split(before: string, after: string)

  ghost predicate Free(p: char -> bool, s: string) {
    forall c | c in s :: !p(c)
  }

  function SplitAt(p: char -> bool, s: string): (r: Split)
    ensures r.before + r.after == s && Free(p, r.before)
    ensures r.after != [] ==> p(r.after[0])
  {
    if s == [] || p(s[0]) then Split([], s) else
    var r := SplitAt(p, s[1..]);
    Split([s[0]] + r.before, r.after)
  }

  lemma {:induction false} SplitIsUnique(p: char -> bool, before: string, after: string)
    requires Free(p, before) && (after != [] ==> p(after[0]))
    ensures SplitAt(p, before + after) == Split(before, after)
  {
    if before == [] {
      assert before + after == after;
    } else {
      assert before[0] in before;
      assert forall c | c in before[1..] :: c in before;
      assert (before + after)[1..] == before[1..] + after;
      SplitIsUnique(p, before[1..], after);
    }
  }
}
