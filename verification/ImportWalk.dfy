/**
 The bounded directory walk of `memory_import_documents`: two budgets, one on files and one on
 directory entries looked at, shared by the whole recursion, and a flag that says whether anything may
 have been left out.
 */
module ImportWalk {
  import opened Outcomes
  import opened Ranking
  import opened TextOrder

  const MAX_IMPORT_VISITED_ENTRIES: nat := 20_000

  // `children` are in the order in which the operating system lists them. Symbolic links and the like
  // are Other. What the operating system may refuse: to list an entry (Unlisted), to say what it is
  // (Broken), or how long a file is (None).
  datatype Kind =
    | Directory(dir: Dir)
    | File(extensionAllowed: bool, bytes: Option<nat>)
    | Other
    | Broken
    | Unlisted

  datatype Dir = Dir(readable: bool, children: seq<Entry>)

  datatype Entry = Entry(path: string, hidden: bool, kind: Kind)

  datatype ImportFile = ImportFile(path: string, bytes: nat)

  predicate EntryLe(a: Entry, b: Entry) {
    LexLe(a.path, b.path)
  }

  // -------------------------------------------------------------------------- how big a tree is --

  function Weight(e: Entry): (w: nat)
    ensures w > 0
    decreases e, 0
  {
    1 + match e.kind
        case Directory(dir) => WeightOf(dir.children)
        case _ => 0
  }

  function WeightOf(entries: seq<Entry>): nat
    decreases entries, 1
  {
    if entries == [] then 0 else Weight(entries[0]) + WeightOf(entries[1..])
  }

  lemma {:induction false} InsertWeight(e: Entry, entries: seq<Entry>)
    ensures WeightOf(Insert(EntryLe, e, entries)) == Weight(e) + WeightOf(entries)
    decreases |entries|
  {
    if entries == [] || EntryLe(e, entries[0]) {
      assert ([e] + entries)[1..] == entries;
    } else {
      InsertWeight(e, entries[1..]);
      assert ([entries[0]] + Insert(EntryLe, e, entries[1..]))[1..] == Insert(EntryLe, e, entries[1..]);
    }
  }

  lemma {:induction false} SortWeight(entries: seq<Entry>)
    ensures WeightOf(Sort(EntryLe, entries)) == WeightOf(entries)
    decreases |entries|
  {
    if entries != [] {
      SortWeight(entries[1..]);
      InsertWeight(entries[0], Sort(EntryLe, entries[1..]));
    }
  }

  lemma {:induction false} TakeWeight(k: nat, entries: seq<Entry>)
    ensures WeightOf(Take(k, entries)) <= WeightOf(entries)
    decreases |entries|
  {
    if entries != [] && k > 0 {
      TakeWeight(k - 1, entries[1..]);
      assert Take(k, entries)[1..] == Take(k - 1, entries[1..]);
    }
  }

  // ------------------------------------------------------------------------- the simple listing --

  // The eligible files of a directory, depth first, siblings by path.
  function Listing(dir: Dir, recursive: bool): seq<ImportFile>
    decreases WeightOf(dir.children), 2
  {
    if !dir.readable then []
    else
      SortWeight(dir.children);
      ListingOf(Sort(EntryLe, dir.children), recursive)
  }

  function ListingOf(entries: seq<Entry>, recursive: bool): seq<ImportFile>
    decreases WeightOf(entries), 1
  {
    if entries == [] then [] else Eligible(entries[0], recursive) + ListingOf(entries[1..], recursive)
  }

  function Eligible(e: Entry, recursive: bool): seq<ImportFile>
    decreases Weight(e), 0
  {
    if e.hidden then []
    else
      match e.kind
      case Directory(dir) => if recursive then Listing(dir, recursive) else []
      case File(allowed, bytes) => if allowed && bytes.Some? then [ImportFile(e.path, bytes.value)] else []
      case _ => []
  }

  // --------------------------------------------------------------------------------- the walk --

  // `capped` says that the entry budget stopped the reading of some directory.
  datatype Walk =
    | Failed
    | Walked(visited: nat, out: seq<ImportFile>, truncated: bool, capped: bool)

  function Room(visited: nat): nat {
    if visited < MAX_IMPORT_VISITED_ENTRIES then MAX_IMPORT_VISITED_ENTRIES - visited else 0
  }

  predicate AllListed(entries: seq<Entry>) {
    forall e | e in entries :: !e.kind.Unlisted?
  }

  function WalkDir(
    dir: Dir, recursive: bool, maxFiles: nat, visited: nat, out: seq<ImportFile>): Walk
    decreases WeightOf(dir.children), 1
  {
    if !dir.readable then Failed
    else
      var read := Take(Room(visited), dir.children);
      var capped := |dir.children| > Room(visited);
      SortWeight(read);
      TakeWeight(Room(visited), dir.children);
      if !AllListed(read) then Failed
      else WalkEntries(Sort(EntryLe, read), recursive, maxFiles, Walked(visited + |read|, out, capped, capped))
  }

  function WalkEntries(entries: seq<Entry>, recursive: bool, maxFiles: nat, w: Walk): Walk
    requires w.Walked?
    decreases WeightOf(entries), 0
  {
    if entries == [] then w
    else if |w.out| >= maxFiles then w.(truncated := true)
    else
      var e := entries[0];
      if e.hidden then WalkEntries(entries[1..], recursive, maxFiles, w)
      else
        match e.kind
        case Directory(dir) =>
          if !recursive then WalkEntries(entries[1..], recursive, maxFiles, w)
          else
            assert Weight(e) == 1 + WeightOf(dir.children);
            var sub := WalkDir(dir, recursive, maxFiles, w.visited, w.out);
            if sub.Failed? then Failed
            else
              var w' := Walked(sub.visited, sub.out, w.truncated || sub.truncated, w.capped || sub.capped);
              if sub.truncated && |sub.out| >= maxFiles then w'
              else WalkEntries(entries[1..], recursive, maxFiles, w')
        case File(allowed, bytes) =>
          if !allowed then WalkEntries(entries[1..], recursive, maxFiles, w)
          else if bytes.None? then Failed
          else
            var w' := w.(out := w.out + [ImportFile(e.path, bytes.value)]);
            if |w'.out| >= maxFiles then w'.(truncated := true)
            else WalkEntries(entries[1..], recursive, maxFiles, w')
        case Other => WalkEntries(entries[1..], recursive, maxFiles, w)
        case _ => Failed
  }

  // ------------------------------------------------------------------------- what the walk keeps --

  ghost predicate Budgeted(maxFiles: nat, w: Walk) {
    w.Walked? ==>
      && |w.out| <= maxFiles && w.visited <= MAX_IMPORT_VISITED_ENTRIES
      && (w.capped ==> w.truncated)
  }

  // From w to w', over entries whose eligible files are `listing`.
  ghost predicate Walks(maxFiles: nat, w: Walk, listing: seq<ImportFile>, w': Walk)
    requires w.Walked?
  {
    w'.Walked? ==>
      && w.out <= w'.out
      && (w.truncated ==> w'.truncated) && (w.capped ==> w'.capped)
      && (forall f | f in w'.out :: f in w.out || f in listing)
      && (!w'.capped ==> w'.out == Take(maxFiles, w.out + listing))
      && (!w'.capped && |w.out| < maxFiles ==>
           (w'.truncated <==> w.truncated || |w.out| + |listing| >= maxFiles))
  }

  lemma {:induction false} EntriesWalk(entries: seq<Entry>, recursive: bool, maxFiles: nat, w: Walk)
    requires w.Walked? && Budgeted(maxFiles, w)
    ensures var w' := WalkEntries(entries, recursive, maxFiles, w);
            Budgeted(maxFiles, w') && Walks(maxFiles, w, ListingOf(entries, recursive), w')
    decreases WeightOf(entries), 0
  {
    if entries == [] || |w.out| >= maxFiles {
      assert w.out + [] == w.out;
    } else {
      var e := entries[0];
      var rest := ListingOf(entries[1..], recursive);
      var mine := Eligible(e, recursive);
      if e.hidden || e.kind.Other? || (e.kind.File? && !e.kind.extensionAllowed)
         || (e.kind.Directory? && !recursive) {
        EntriesWalk(entries[1..], recursive, maxFiles, w);
        assert mine + rest == rest;
      } else if e.kind.File? && e.kind.bytes.Some? {
        var w1 := w.(out := w.out + mine);
        assert w.out + (mine + rest) == w1.out + rest;
        if |w1.out| < maxFiles {
          EntriesWalk(entries[1..], recursive, maxFiles, w1);
        } else {
          assert Take(maxFiles, w1.out + rest) == w1.out;
        }
      } else if e.kind.Directory? {
        SubdirectoryWalk(entries, maxFiles, w);
      }
    }
  }

  lemma {:induction false} SubdirectoryWalk(entries: seq<Entry>, maxFiles: nat, w: Walk)
    requires w.Walked? && Budgeted(maxFiles, w) && |w.out| < maxFiles
    requires entries != [] && !entries[0].hidden && entries[0].kind.Directory?
    ensures var w' := WalkEntries(entries, true, maxFiles, w);
            Budgeted(maxFiles, w') && Walks(maxFiles, w, ListingOf(entries, true), w')
    decreases WeightOf(entries), 0, 0
  {
    var e := entries[0];
    var rest := ListingOf(entries[1..], true);
    var mine := Listing(e.kind.dir, true);
    assert Weight(e) == 1 + WeightOf(e.kind.dir.children);
    DirectoryWalk(e.kind.dir, true, maxFiles, w.visited, w.out);
    var sub := WalkDir(e.kind.dir, true, maxFiles, w.visited, w.out);
    if sub.Walked? {
      var w1 := Walked(sub.visited, sub.out, w.truncated || sub.truncated, w.capped || sub.capped);
      assert w.out + (mine + rest) == (w.out + mine) + rest;
      if sub.truncated && |sub.out| >= maxFiles {
        assert !w1.capped ==> Take(maxFiles, w.out + mine + rest) == Take(maxFiles, w.out + mine);
      } else {
        EntriesWalk(entries[1..], true, maxFiles, w1);
        assert !w1.capped ==> |w.out| + |mine| < maxFiles && w1.out == w.out + mine;
      }
    }
  }

  lemma {:induction false} DirectoryWalk(
    dir: Dir, recursive: bool, maxFiles: nat, visited: nat, out: seq<ImportFile>)
    requires |out| <= maxFiles && visited <= MAX_IMPORT_VISITED_ENTRIES
    ensures var w' := WalkDir(dir, recursive, maxFiles, visited, out);
            && Budgeted(maxFiles, w')
            && Walks(maxFiles, Walked(visited, out, false, false), Listing(dir, recursive), w')
    decreases WeightOf(dir.children), 1
  {
    if dir.readable {
      var read := Take(Room(visited), dir.children);
      var capped := |dir.children| > Room(visited);
      SortWeight(read);
      TakeWeight(Room(visited), dir.children);
      EntriesWalk(Sort(EntryLe, read), recursive, maxFiles, Walked(visited + |read|, out, capped, capped));
      PrefixListing(dir.children, Room(visited), recursive);
      assert !capped ==> read == dir.children;
    }
  }

  // A part of a directory lists a part of its files.
  lemma {:induction false} PrefixListing(children: seq<Entry>, k: nat, recursive: bool)
    ensures forall f | f in ListingOf(Sort(EntryLe, Take(k, children)), recursive) ::
              f in Listing(Dir(true, children), recursive)
  {
    LexIsPreorder();
    var some := Sort(EntryLe, Take(k, children));
    SortSorts(EntryLe, Take(k, children));
    SortSorts(EntryLe, children);
    forall f | f in ListingOf(some, recursive) ensures f in ListingOf(Sort(EntryLe, children), recursive) {
      var e := ListedBy(some, recursive, f);
      assert e in children;
      ListsEach(Sort(EntryLe, children), recursive, e);
    }
  }

  lemma {:induction false} ListedBy(entries: seq<Entry>, recursive: bool, f: ImportFile) returns (e: Entry)
    requires f in ListingOf(entries, recursive)
    ensures e in entries && f in Eligible(e, recursive)
    decreases |entries|
  {
    if f in Eligible(entries[0], recursive) {
      e := entries[0];
    } else {
      e := ListedBy(entries[1..], recursive, f);
    }
  }

  lemma {:induction false} ListsEach(entries: seq<Entry>, recursive: bool, e: Entry)
    requires e in entries
    ensures forall f | f in Eligible(e, recursive) :: f in ListingOf(entries, recursive)
    decreases |entries|
  {
    if e != entries[0] {
      ListsEach(entries[1..], recursive, e);
    }
  }

  // The walk refines the listing: when the entry budget is not hit it returns the longest prefix that
  // fits the file budget, and says `truncated` exactly when that budget is used up. In every run both
  // budgets hold, every file returned is eligible, and an untruncated result leaves nothing out.
  lemma WalkRefinesListing(dir: Dir, recursive: bool, maxFiles: nat)
    requires maxFiles > 0
    ensures var w := WalkDir(dir, recursive, maxFiles, 0, []);
            w.Walked? ==>
              && |w.out| <= maxFiles && w.visited <= 20_000
              && (forall f | f in w.out :: f in Listing(dir, recursive))
              && (!w.capped ==>
                   && w.out == Take(maxFiles, Listing(dir, recursive))
                   && (w.truncated <==> |Listing(dir, recursive)| >= maxFiles))
              && (!w.truncated ==> w.out == Listing(dir, recursive))
  {
    DirectoryWalk(dir, recursive, maxFiles, 0, []);
    assert [] + Listing(dir, recursive) == Listing(dir, recursive);
  }

  // ------------------------------------------------------------------------- what is eligible --

  // The last entry is a file to import, and the others are the directories that lead to it.
  ghost predicate Reaches(dir: Dir, recursive: bool, chain: seq<Entry>, f: ImportFile)
    decreases |chain|
  {
    && dir.readable && chain != [] && chain[0] in dir.children && !chain[0].hidden
    && if |chain| == 1 then
         chain[0].kind.File? && chain[0].kind.extensionAllowed && chain[0].kind.bytes == Some(f.bytes)
         && chain[0].path == f.path
       else
         recursive && chain[0].kind.Directory? && Reaches(chain[0].kind.dir, recursive, chain[1..], f)
  }

  ghost predicate IsReached(dir: Dir, recursive: bool, f: ImportFile) {
    exists chain :: Reaches(dir, recursive, chain, f)
  }

  lemma PathPreorder()
    ensures Preorder(EntryLe)
  {
    LexIsPreorder();
  }

  lemma {:induction false} MemberWeight(entries: seq<Entry>, e: Entry)
    requires e in entries
    ensures Weight(e) <= WeightOf(entries)
    decreases |entries|
  {
    if e != entries[0] {
      MemberWeight(entries[1..], e);
    }
  }

  lemma {:induction false} ListedIsReached(dir: Dir, recursive: bool, f: ImportFile) returns (chain: seq<Entry>)
    requires f in Listing(dir, recursive)
    ensures Reaches(dir, recursive, chain, f)
    decreases WeightOf(dir.children)
  {
    PathPreorder();
    SortSorts(EntryLe, dir.children);
    var e := ListedBy(Sort(EntryLe, dir.children), recursive, f);
    MemberWeight(dir.children, e);
    if e.kind.File? {
      chain := [e];
    } else {
      var rest := ListedIsReached(e.kind.dir, recursive, f);
      chain := [e] + rest;
      assert chain[1..] == rest;
    }
  }

  lemma {:induction false} ReachedIsListed(dir: Dir, recursive: bool, chain: seq<Entry>, f: ImportFile)
    requires Reaches(dir, recursive, chain, f)
    ensures f in Listing(dir, recursive)
    decreases |chain|
  {
    PathPreorder();
    SortSorts(EntryLe, dir.children);
    ListsEach(Sort(EntryLe, dir.children), recursive, chain[0]);
    if |chain| > 1 {
      ReachedIsListed(chain[0].kind.dir, recursive, chain[1..], f);
    }
  }

  // A file is listed if and only if it has an allowed extension and neither it nor any directory on the
  // way to it is hidden.
  lemma ListedIff(dir: Dir, recursive: bool, f: ImportFile)
    ensures f in Listing(dir, recursive) <==> IsReached(dir, recursive, f)
  {
    hide Reaches, Listing;
    if f in Listing(dir, recursive) {
      var chain := ListedIsReached(dir, recursive, f);
      assert Reaches(dir, recursive, chain, f);
    } else if IsReached(dir, recursive, f) {
      var chain :| Reaches(dir, recursive, chain, f);
      ReachedIsListed(dir, recursive, chain, f);
      assert false;
    }
  }

  lemma {:induction false} ListingConcat(a: seq<Entry>, b: seq<Entry>, recursive: bool)
    ensures ListingOf(a + b, recursive) == ListingOf(a, recursive) + ListingOf(b, recursive)
    decreases |a|
  {
    if a == [] {
      assert a + b == b;
    } else {
      assert (a + b)[1..] == a[1..] + b;
      ListingConcat(a[1..], b, recursive);
    }
  }

  lemma SplitSorted(sorted: seq<Entry>, e: Entry) returns (before: seq<Entry>, after: seq<Entry>)
    requires Sorted(EntryLe, sorted) && e in sorted
    ensures sorted == before + ([e] + after)
    ensures (forall x | x in before :: LexLe(x.path, e.path)) && (forall x | x in after :: LexLe(e.path, x.path))
  {
    var i :| 0 <= i < |sorted| && sorted[i] == e;
    before, after := sorted[..i], sorted[i + 1..];
    forall x | x in before ensures LexLe(x.path, e.path) {
      var j :| 0 <= j < i && sorted[j] == x;
      assert EntryLe(sorted[j], sorted[i]);
    }
    forall x | x in after ensures LexLe(e.path, x.path) {
      var j :| i < j < |sorted| && sorted[j] == x;
      assert EntryLe(sorted[i], sorted[j]);
    }
  }

  lemma ListingOfSplit(before: seq<Entry>, e: Entry, after: seq<Entry>, recursive: bool)
    ensures ListingOf(before + ([e] + after), recursive)
            == ListingOf(before, recursive) + (Eligible(e, recursive) + ListingOf(after, recursive))
  {
    ListingConcat(before, [e] + after, recursive);
    assert ([e] + after)[1..] == after;
  }

  // What an entry contributes stands after what its earlier siblings do, and before what the later ones
  // do, by path.
  lemma SiblingsInOrder(dir: Dir, recursive: bool, e: Entry) returns (before: seq<Entry>, after: seq<Entry>)
    requires dir.readable && e in dir.children
    ensures multiset(before + ([e] + after)) == multiset(dir.children)
    ensures (forall x | x in before :: LexLe(x.path, e.path)) && (forall x | x in after :: LexLe(e.path, x.path))
    ensures Listing(dir, recursive)
            == ListingOf(before, recursive) + (Eligible(e, recursive) + ListingOf(after, recursive))
  {
    PathPreorder();
    SortSorts(EntryLe, dir.children);
    hide Sort, Sorted, ListingOf, Eligible, LexLe;
    before, after := SplitSorted(Sort(EntryLe, dir.children), e);
    ListingOfSplit(before, e, after, recursive);
  }

  // -------------------------------------------------------------------- when the budget suffices --

  // The entries of every directory that the walk may enter.
  function Entries(dir: Dir, recursive: bool): nat
    decreases WeightOf(dir.children), 1
  {
    if !dir.readable then 0 else |dir.children| + Nested(dir.children, recursive)
  }

  function Nested(entries: seq<Entry>, recursive: bool): nat
    decreases WeightOf(entries), 0
  {
    if entries == [] then 0
    else
      var e := entries[0];
      assert e.kind.Directory? ==> Weight(e) == 1 + WeightOf(e.kind.dir.children);
      (if recursive && !e.hidden && e.kind.Directory? then Entries(e.kind.dir, recursive) else 0)
      + Nested(entries[1..], recursive)
  }

  lemma {:induction false} InsertNested(e: Entry, entries: seq<Entry>, recursive: bool)
    ensures Nested(Insert(EntryLe, e, entries), recursive) == Nested([e], recursive) + Nested(entries, recursive)
    decreases |entries|
  {
    if entries == [] || EntryLe(e, entries[0]) {
      assert ([e] + entries)[1..] == entries;
    } else {
      InsertNested(e, entries[1..], recursive);
      assert ([entries[0]] + Insert(EntryLe, e, entries[1..]))[1..] == Insert(EntryLe, e, entries[1..]);
    }
  }

  lemma {:induction false} SortNested(entries: seq<Entry>, recursive: bool)
    ensures Nested(Sort(EntryLe, entries), recursive) == Nested(entries, recursive)
    decreases |entries|
  {
    if entries != [] {
      SortNested(entries[1..], recursive);
      InsertNested(entries[0], Sort(EntryLe, entries[1..]), recursive);
    }
  }

  lemma {:induction false} EntriesUncapped(entries: seq<Entry>, recursive: bool, maxFiles: nat, w: Walk)
    requires w.Walked? && !w.capped && w.visited + Nested(entries, recursive) <= MAX_IMPORT_VISITED_ENTRIES
    ensures var w' := WalkEntries(entries, recursive, maxFiles, w);
            w'.Walked? ==> !w'.capped && w'.visited <= w.visited + Nested(entries, recursive)
    decreases WeightOf(entries), 0
  {
    if entries != [] && |w.out| < maxFiles {
      var e := entries[0];
      if !e.hidden && e.kind.Directory? && recursive {
        assert Weight(e) == 1 + WeightOf(e.kind.dir.children);
        DirectoryUncapped(e.kind.dir, recursive, maxFiles, w.visited, w.out);
        var sub := WalkDir(e.kind.dir, recursive, maxFiles, w.visited, w.out);
        if sub.Walked? {
          EntriesUncapped(entries[1..], recursive, maxFiles,
                          Walked(sub.visited, sub.out, w.truncated || sub.truncated, w.capped || sub.capped));
        }
      } else if !e.hidden && e.kind.File? && e.kind.extensionAllowed && e.kind.bytes.Some? {
        EntriesUncapped(entries[1..], recursive, maxFiles, w.(out := w.out + [ImportFile(e.path, e.kind.bytes.value)]));
      } else {
        EntriesUncapped(entries[1..], recursive, maxFiles, w);
      }
    }
  }

  // A tree with no more entries than the budget is never capped.
  lemma {:induction false} DirectoryUncapped(
    dir: Dir, recursive: bool, maxFiles: nat, visited: nat, out: seq<ImportFile>)
    requires visited + Entries(dir, recursive) <= MAX_IMPORT_VISITED_ENTRIES
    ensures var w := WalkDir(dir, recursive, maxFiles, visited, out);
            w.Walked? ==> !w.capped && w.visited <= visited + Entries(dir, recursive)
    decreases WeightOf(dir.children), 1
  {
    if dir.readable {
      SortWeight(dir.children);
      SortNested(dir.children, recursive);
      assert Take(Room(visited), dir.children) == dir.children;
      EntriesUncapped(Sort(EntryLe, dir.children), recursive, maxFiles,
                      Walked(visited + |dir.children|, out, false, false));
    }
  }

  // ----------------------------------------------------------------------- when the walk succeeds --

  // Nothing that the walk may look at is refused by the operating system.
  predicate Sound(e: Entry, recursive: bool)
    decreases Weight(e), 0
  {
    && !e.kind.Unlisted?
    && (!e.hidden ==>
          match e.kind
          case Directory(dir) => recursive ==> dir.readable && AllSound(dir.children, recursive)
          case File(allowed, bytes) => allowed ==> bytes.Some?
          case Other => true
          case _ => false)
  }

  predicate AllSound(entries: seq<Entry>, recursive: bool)
    decreases WeightOf(entries), 1
  {
    entries == [] || (Sound(entries[0], recursive) && AllSound(entries[1..], recursive))
  }

  lemma {:induction false} InsertSound(e: Entry, entries: seq<Entry>, recursive: bool)
    requires Sound(e, recursive) && AllSound(entries, recursive)
    ensures AllSound(Insert(EntryLe, e, entries), recursive)
    decreases |entries|
  {
    if entries != [] && !EntryLe(e, entries[0]) {
      InsertSound(e, entries[1..], recursive);
      assert ([entries[0]] + Insert(EntryLe, e, entries[1..]))[1..] == Insert(EntryLe, e, entries[1..]);
    } else {
      assert ([e] + entries)[1..] == entries;
    }
  }

  lemma {:induction false} ReadIsSound(k: nat, entries: seq<Entry>, recursive: bool)
    requires AllSound(entries, recursive)
    ensures AllListed(Take(k, entries)) && AllSound(Sort(EntryLe, Take(k, entries)), recursive)
    decreases |entries|
  {
    if entries != [] && k > 0 {
      ReadIsSound(k - 1, entries[1..], recursive);
      assert Take(k, entries) == [entries[0]] + Take(k - 1, entries[1..]);
      InsertSound(entries[0], Sort(EntryLe, Take(k - 1, entries[1..])), recursive);
    }
  }

  lemma {:induction false} SoundEntriesAreWalked(entries: seq<Entry>, recursive: bool, maxFiles: nat, w: Walk)
    requires w.Walked? && AllSound(entries, recursive)
    ensures WalkEntries(entries, recursive, maxFiles, w).Walked?
    decreases WeightOf(entries), 0
  {
    if entries != [] && |w.out| < maxFiles {
      var e := entries[0];
      if !e.hidden && e.kind.Directory? && recursive {
        assert Weight(e) == 1 + WeightOf(e.kind.dir.children);
        SoundTreeIsWalked(e.kind.dir, recursive, maxFiles, w.visited, w.out);
        var sub := WalkDir(e.kind.dir, recursive, maxFiles, w.visited, w.out);
        SoundEntriesAreWalked(entries[1..], recursive, maxFiles,
                              Walked(sub.visited, sub.out, w.truncated || sub.truncated, w.capped || sub.capped));
      } else if !e.hidden && e.kind.File? && e.kind.extensionAllowed {
        SoundEntriesAreWalked(entries[1..], recursive, maxFiles,
                              w.(out := w.out + [ImportFile(e.path, e.kind.bytes.value)]));
      } else {
        SoundEntriesAreWalked(entries[1..], recursive, maxFiles, w);
      }
    }
  }

  // The walk gives up only on what the operating system refuses, hidden entries aside.
  lemma {:induction false} SoundTreeIsWalked(
    dir: Dir, recursive: bool, maxFiles: nat, visited: nat, out: seq<ImportFile>)
    requires dir.readable && AllSound(dir.children, recursive)
    ensures WalkDir(dir, recursive, maxFiles, visited, out).Walked?
    decreases WeightOf(dir.children), 1
  {
    var read := Take(Room(visited), dir.children);
    var capped := |dir.children| > Room(visited);
    SortWeight(read);
    TakeWeight(Room(visited), dir.children);
    ReadIsSound(Room(visited), dir.children, recursive);
    SoundEntriesAreWalked(Sort(EntryLe, read), recursive, maxFiles, Walked(visited + |read|, out, capped, capped));
  }

  // -------------------------------------------------------------------------- the procedure itself --

  datatype ReadError = ReadError

  datatype Collected = Collected(files: seq<ImportFile>, truncated: bool)

  datatype Target = TargetFile(path: string, extensionAllowed: bool, bytes: nat)
                  | TargetDirectory(dir: Dir)
                  | TargetOther
                  | Unreadable

  predicate FileLe(a: ImportFile, b: ImportFile) {
    LexLe(a.path, b.path)
  }

  class Collector {
    var visitedEntries: nat
    var out: seq<ImportFile>

    constructor ()
      ensures visitedEntries == 0 && out == []
    {
      visitedEntries, out := 0, [];
    }

    // The loop over read_dir: entries are counted as they are read, up to the cap
    method ReadEntries(children: seq<Entry>) returns (r: Result<seq<Entry>, ReadError>, entryCapReached: bool)
      modifies this`visitedEntries
      ensures r.Ok? <==> AllListed(Take(Room(old(visitedEntries)), children))
      ensures r.Ok? ==>
                && r.value == Take(Room(old(visitedEntries)), children)
                && visitedEntries == old(visitedEntries) + |r.value|
                && (entryCapReached <==> |children| > Room(old(visitedEntries)))
    {
      var entries: seq<Entry> := [];
      var i := 0;
      while i < |children|
        invariant 0 <= i <= |children| && i <= Room(old(visitedEntries))
        invariant entries == children[..i] && visitedEntries == old(visitedEntries) + i && AllListed(entries)
      {
        if visitedEntries >= MAX_IMPORT_VISITED_ENTRIES {
          return Ok(entries), true;
        }
        visitedEntries := visitedEntries + 1;
        if children[i].kind.Unlisted? {
          assert children[i] in Take(Room(old(visitedEntries)), children);
          return Err(ReadError), false;
        }
        entries := entries + [children[i]];
        i := i + 1;
      }
      return Ok(entries), false;
    }

    // collect_import_dir; the result is whether the listing may be incomplete
    method CollectDir(dir: Dir, recursive: bool, maxFiles: nat) returns (r: Result<bool, ReadError>, ghost capped: bool)
      modifies this
      ensures var w := WalkDir(dir, recursive, maxFiles, old(visitedEntries), old(out));
              if r.Err? then w.Failed? else w == Walked(visitedEntries, out, r.value, capped)
      decreases WeightOf(dir.children), 1
    {
      if !dir.readable {
        return Err(ReadError), false;
      }
      SortWeight(Take(Room(visitedEntries), dir.children));
      TakeWeight(Room(visitedEntries), dir.children);
      var read, entryCapReached := ReadEntries(dir.children);
      if read.Err? {
        return Err(ReadError), false;
      }
      hide WalkEntries;
      r, capped := CollectEntries(Sort(EntryLe, read.value), recursive, maxFiles, entryCapReached, entryCapReached);
    }

    // Its loop over the sorted entries
    method CollectEntries(
      entries: seq<Entry>, recursive: bool, maxFiles: nat, entryCapReached: bool, ghost wasCapped: bool)
      returns (r: Result<bool, ReadError>, ghost capped: bool)
      modifies this
      ensures var w := WalkEntries(entries, recursive, maxFiles,
                                   Walked(old(visitedEntries), old(out), entryCapReached, wasCapped));
              if r.Err? then w.Failed? else w == Walked(visitedEntries, out, r.value, capped)
      decreases WeightOf(entries), 0
    {
      hide WalkDir;
      capped := wasCapped;
      var truncated := entryCapReached;
      ghost var whole := WalkEntries(entries, recursive, maxFiles, Walked(visitedEntries, out, truncated, capped));
      var i := 0;
      while i < |entries|
        invariant 0 <= i <= |entries|
        invariant WalkEntries(entries[i..], recursive, maxFiles, Walked(visitedEntries, out, truncated, capped)) == whole
        invariant WeightOf(entries[i..]) <= WeightOf(entries)
      {
        var e := entries[i];
        assert entries[i..][0] == e && entries[i..][1..] == entries[i + 1..];
        if |out| >= maxFiles {
          return Ok(true), capped;
        }
        if !e.hidden {
          match e.kind {
            case Directory(sub) =>
              if recursive {
                assert Weight(e) == 1 + WeightOf(sub.children);
                ghost var subCapped;
                var nested;
                nested, subCapped := CollectDir(sub, recursive, maxFiles);
                if nested.Err? {
                  return Err(ReadError), capped;
                }
                capped := capped || subCapped;
                if nested.value {
                  truncated := true;
                  if |out| >= maxFiles {
                    return Ok(true), capped;
                  }
                }
              }
            case File(allowed, bytes) =>
              if allowed {
                if bytes.None? {
                  return Err(ReadError), capped;
                }
                out := out + [ImportFile(e.path, bytes.value)];
                if |out| >= maxFiles {
                  return Ok(true), capped;
                }
              }
            case Other =>
            case _ => return Err(ReadError), capped;
          }
        }
        i := i + 1;
      }
      assert entries[i..] == [];
      return Ok(truncated), capped;
    }
  }

  // collect_import_files
  method CollectImportFiles(target: Target, recursive: bool, maxFiles: nat)
    returns (r: Result<Collected, ReadError>)
    ensures target.TargetFile? ==>
              r == Ok(Collected(if target.extensionAllowed then [ImportFile(target.path, target.bytes)] else [], false))
    ensures target.TargetDirectory? ==>
              var w := WalkDir(target.dir, recursive, maxFiles, 0, []);
              if w.Failed? then r.Err? else r == Ok(Collected(Sort(FileLe, w.out), w.truncated))
    ensures target.TargetDirectory? && r.Ok? ==>
              && multiset(r.value.files) == multiset(WalkDir(target.dir, recursive, maxFiles, 0, []).out)
              && forall i, j | 0 <= i < j < |r.value.files| :: LexLe(r.value.files[i].path, r.value.files[j].path)
    ensures target.TargetOther? || target.Unreadable? ==> r.Err?
  {
    match target {
      case TargetFile(path, allowed, bytes) =>
        return Ok(Collected(if allowed then [ImportFile(path, bytes)] else [], false));
      case TargetDirectory(dir) =>
        var collector := new Collector();
        var truncated, _ := collector.CollectDir(dir, recursive, maxFiles);
        if truncated.Err? {
          return Err(ReadError);
        }
        LexIsPreorder();
        SortSorts(FileLe, collector.out);
        return Ok(Collected(Sort(FileLe, collector.out), truncated.value));
      case _ =>
        return Err(ReadError);
    }
  }
}
