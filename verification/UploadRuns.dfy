/**
 Whole runs of one upload: operations one after another, each of them complete or cut short by a
 crash at any point, with any calls failing.
 */
module UploadRuns {
  import opened Outcomes
  import opened UploadStore
  import opened ManifestRegister
  import opened UploadPlans
  import opened UploadInvariant

  // An operation that got the lock, and how many of its acts were performed.
  datatype Event = Event(op: Op, k: nat)

  predicate Complete(s: Store, id: string, hash: Hash, e: Event) {
    |PlanOf(s, id, hash, e.op).acts| <= e.k
  }

  function After(s: Store, id: string, hash: Hash, e: Event): Store {
    Run(s, Cut(PlanOf(s, id, hash, e.op).acts, e.k))
  }

  function AfterAll(s: Store, id: string, hash: Hash, events: seq<Event>): Store
    decreases |events|
  {
    if events == [] then s else AfterAll(After(s, id, hash, events[0]), id, hash, events[1..])
  }

  lemma {:induction false} AfterAllConcat(s: Store, id: string, hash: Hash, a: seq<Event>, b: seq<Event>)
    ensures AfterAll(s, id, hash, a + b) == AfterAll(AfterAll(s, id, hash, a), id, hash, b)
    decreases |a|
  {
    if a == [] {
      assert a + b == b;
    } else {
      assert (a + b)[1..] == a[1..] + b;
      AfterAllConcat(After(s, id, hash, a[0]), id, hash, a[1..], b);
    }
  }

  // Operations one after another, each of them complete.
  function RunOps(s: Store, id: string, hash: Hash, ops: seq<Op>): Store
    decreases |ops|
  {
    if ops == [] then s else RunOps(Run(s, PlanOf(s, id, hash, ops[0]).acts), id, hash, ops[1..])
  }

  ghost predicate ClocksOk(base: Manifest, events: seq<Event>) {
    forall e | e in events :: ClockOk(base, e.op)
  }

  // Prepare, complete or cut short.
  ghost predicate Prepared(base: Manifest, s: Store) {
    exists io: WriteIo, k: nat :: s == Run(EMPTY, Cut(WritePlan(EMPTY, base, io).acts, k))
  }

  lemma WholeWriteIsPrepared(base: Manifest, io: WriteIo)
    ensures Prepared(base, Run(EMPTY, WritePlan(EMPTY, base, io).acts))
  {
    var acts := WritePlan(EMPTY, base, io).acts;
    assert Cut(acts, |acts|) == acts;
  }

  lemma PreparedIsGood(base: Manifest, s: Store)
    requires PreparedBase(base) && Prepared(base, s)
    ensures Good(base, s) && s.files == map[] && s.log == []
  {
    var io: WriteIo, k: nat :| s == Run(EMPTY, Cut(WritePlan(EMPTY, base, io).acts, k));
    WriteIsGood(base, EMPTY, base, io);
    GoodIsKept(base, EMPTY, WritePlan(EMPTY, base, io).acts, k);
    WriteLeavesFiles(EMPTY, base, io, k);
  }

  lemma EventIsGood(base: Manifest, hash: Hash, s: Store, e: Event)
    requires PreparedBase(base) && Good(base, s) && ClockOk(base, e.op)
    ensures Good(base, After(s, base.uploadId, hash, e))
  {
    OperationIsGood(base, hash, s, e.op);
    GoodIsKept(base, s, PlanOf(s, base.uploadId, hash, e.op).acts, e.k);
  }

  // At every instant of every run, whatever crashes and fails: every manifest that recovery could
  // surface belongs to this upload, is in one of the four stored statuses with the fields that go
  // with it, carries a well-formed receipt when ingested, and older ones expire no later.
  lemma {:induction false} RunsAreGood(base: Manifest, hash: Hash, s: Store, events: seq<Event>)
    requires PreparedBase(base) && Good(base, s) && ClocksOk(base, events)
    ensures Good(base, AfterAll(s, base.uploadId, hash, events))
    decreases |events|
  {
    if events != [] {
      assert events[0] in events;
      EventIsGood(base, hash, s, events[0]);
      RunsAreGood(base, hash, After(s, base.uploadId, hash, events[0]), events[1..]);
    }
  }

  // ------------------------------------------------------------------------------------ sweep --

  ghost predicate GoneOrExpired(s: Store, now: int) {
    Current(s).None? || IsExpiredAt(Current(s).value, now)
  }

  // A sweep deletes only what was expired when it was read under the lock, and a crash or an error
  // inside the deletion leaves either no manifest or one that is still expired, so that the next
  // sweep resumes; a sweep that reports success leaves nothing.
  lemma SweepIsSound(base: Manifest, s: Store, now: int, removals: nat, k: nat)
    requires Good(base, s)
    ensures var p := SweepPlan(s, base.uploadId, now, removals);
            var s' := Run(s, Cut(p.acts, k));
            && (p.acts != [] ==> Current(s).Some? && IsExpiredAt(Current(s).value, now))
            && (p.acts != [] ==> GoneOrExpired(s', now))
            && (p.acts == [] ==> s' == s)
            && (p.reply == Ok(true) && |p.acts| <= k ==>
                 s' == s.(tmp := Absent, primary := Absent, backup := Absent,
                          files := s.files - {PART, base.sanitizedFilename}))
  {
    hide Run, RemovalActs, GoneOrExpired;
    var p := SweepPlan(s, base.uploadId, now, removals);
    assert Cut([], k) == [] && Run(s, []) == s by {
      NothingRun(s);
    }
    if Current(s).Some? {
      FiveRemovals(Current(s).value);
    }
    if p.acts != [] {
      var m := Current(s).value;
      DeletionIsResumable(base, s, m, now, removals, k);
      RemovalWalk((t, a) => true, s, m);
      if p.reply == Ok(true) && |p.acts| <= k {
        assert Cut(p.acts, k) == RemovalActs(m);
      }
      CurrentIsNewest(base, s);
      assert s.files - {PART} - {m.sanitizedFilename} == s.files - {PART, base.sanitizedFilename};
    }
  }

  lemma NothingRun(s: Store)
    ensures Run(s, []) == s
  {
  }

  lemma FiveRemovals(m: Manifest)
    ensures |RemovalActs(m)| == 5
  {
  }

  lemma DeletionIsResumable(base: Manifest, s: Store, m: Manifest, now: int, removals: nat, k: nat)
    requires Good(base, s) && Current(s) == Some(m) && IsExpiredAt(m, now)
    ensures GoneOrExpired(Run(s, Cut(Cut(RemovalActs(m), removals), k)), now)
  {
    var inv := (t: Store) => GoneOrExpired(t, now);
    var allowed := (t: Store, a: Act) => GoneOrExpired(Apply(t, a), now);
    CurrentIsNewest(base, s);
    RemovalWalk(allowed, s, m);
    AlongCut(allowed, s, RemovalActs(m), removals);
    Preserved(inv, allowed, s, Cut(RemovalActs(m), removals), k);
  }

  function WithoutSweeps(events: seq<Event>): seq<Event> {
    if events == [] then []
    else (if events[0].op.Sweep? then [] else [events[0]]) + WithoutSweeps(events[1..])
  }

  // No sweep of the run finds an expired manifest.
  ghost predicate FindsNoneExpired(base: Manifest, hash: Hash, s: Store, events: seq<Event>)
    decreases |events|
  {
    events == [] ||
    (&& (events[0].op.Sweep? && Current(s).Some? ==> !IsExpiredAt(Current(s).value, events[0].op.now))
     && FindsNoneExpired(base, hash, After(s, base.uploadId, hash, events[0]), events[1..]))
  }

  // Sweeps among the operations of a run, wherever they crash and whichever of their calls fail, change
  // nothing while the upload lives.
  lemma {:induction false} SweepsSpareTheLiving(base: Manifest, hash: Hash, s: Store, events: seq<Event>)
    requires FindsNoneExpired(base, hash, s, events)
    ensures AfterAll(s, base.uploadId, hash, events) == AfterAll(s, base.uploadId, hash, WithoutSweeps(events))
    decreases |events|
  {
    if events != [] {
      var e := events[0];
      SweepsSpareTheLiving(base, hash, After(s, base.uploadId, hash, e), events[1..]);
      if e.op.Sweep? {
        assert PlanOf(s, base.uploadId, hash, e.op).acts == [];
        NothingRun(s);
        assert WithoutSweeps(events) == WithoutSweeps(events[1..]);
      } else {
        assert WithoutSweeps(events)[1..] == WithoutSweeps(events[1..]);
      }
    }
  }

  // Until the hour that prepare granted is over, no sweep touches the upload, whatever else happens to it.
  lemma {:induction false} NoSweepBeforeExpiry(base: Manifest, hash: Hash, s: Store, events: seq<Event>)
    requires PreparedBase(base) && Good(base, s) && ClocksOk(base, events)
    requires forall e | e in events && e.op.Sweep? :: e.op.now <= base.expiresAtMs
    ensures FindsNoneExpired(base, hash, s, events)
    decreases |events|
  {
    if events != [] {
      assert events[0] in events;
      EventIsGood(base, hash, s, events[0]);
      if Current(s).Some? {
        CurrentIsNewest(base, s);
      }
      NoSweepBeforeExpiry(base, hash, After(s, base.uploadId, hash, events[0]), events[1..]);
    }
  }
}
