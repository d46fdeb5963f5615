/**
 Every operation changes the register in an orderly way, from any store and at any clock: what a
 lock-free reader relies on.
 */
module UploadOrder {
  import opened Outcomes
  import opened UploadStore
  import opened ManifestRegister
  import opened UploadPlans
  import opened UnlockedReader
  import opened UploadInvariant

  lemma {:induction false} OutsideIsOrderly(s: Store, acts: seq<Act>)
    requires forall a | a in acts :: Outside(a)
    ensures Along(Orderly, s, acts)
    decreases |acts|
  {
    if acts != [] {
      assert acts[0] in acts;
      OutsideIsOrderly(Apply(s, acts[0]), acts[1..]);
    }
  }

  lemma WriteIsOrderly(s: Store, m: Manifest, io: WriteIo)
    ensures Along(Orderly, s, WritePlan(s, m, io).acts)
  {
    WriteWalk(Orderly, s, m, io);
  }

  // A manifest write between acts that leave the register alone.
  lemma SandwichIsOrderly(s: Store, before: seq<Act>, m: Manifest, io: WriteIo, after: seq<Act>)
    requires forall a | a in before + after :: Outside(a)
    ensures Along(Orderly, s, before)
    ensures Along(Orderly, s, before + (WritePlan(s, m, io).acts + after))
  {
    hide WritePlan, Run;
    assert forall a | a in before :: a in before + after;
    assert forall a | a in after :: a in before + after;
    var t, w := Run(s, before), WritePlan(s, m, io).acts;
    OutsideIsOrderly(s, before);
    OutsideLeavesRegister(s, before);
    SameRegisterSameWrite(s, t, m, io);
    WriteIsOrderly(t, m, io);
    OutsideIsOrderly(Run(t, w), after);
    AlongConcat(Orderly, t, w, after);
    AlongConcat(Orderly, s, before, w + after);
  }

  lemma CleanupIsOrderly(s: Store, before: seq<Act>, m: Manifest, io: WriteIo)
    requires forall a | a in before :: Outside(a)
    ensures Along(Orderly, s, before) && Along(Orderly, s, before + WritePlan(s, m, io).acts)
  {
    hide WritePlan;
    assert before + [] == before;
    SandwichIsOrderly(s, before, m, io, []);
    assert WritePlan(s, m, io).acts + [] == WritePlan(s, m, io).acts;
  }

  lemma AppendIsOrderly(s: Store, id: string, req: AppendRequest, now: int, later: int, io: AppendIo)
    ensures Along(Orderly, s, AppendPlan(s, id, req, now, later, io).acts)
  {
    if AppendPlan(s, id, req, now, later, io).acts != [] {
      var m := Current(s).value;
      var written := Min(io.written, |req.bytes|);
      var part := [OpenFile(PART)] + BytePlan(PART, req.bytes[..written]);
      BytesOutside(PART, req.bytes[..written]);
      hide WritePlan, BytePlan;
      var m' := m.(bytesReceived := m.bytesReceived + |req.bytes|);
      CleanupIsOrderly(s, part, m', io.write);
      SandwichIsOrderly(s, part, m', io.write, if io.rollback then [SetLen(PART, m.bytesReceived)] else []);
    }
  }

  lemma CommitIsOrderly(
    s: Store, id: string, hash: Hash, requested: Result<Option<string>, Error>, now: int, later: int, io: CommitIo)
    ensures Along(Orderly, s, CommitPlan(s, id, hash, requested, now, later, io).acts)
  {
    if CommitPlan(s, id, hash, requested, now, later, io).acts != [] {
      var m := Current(s).value;
      var final := m.sanitizedFilename;
      var cleared := if final in s.files then [RemoveFile(final)] else [];
      var moved := cleared + [RenameFile(PART, final)];
      hide WritePlan;
      OutsideIsOrderly(s, cleared);
      var m' := m.(actualSha256 := Some(hash(s.files[PART])), status := Committed);
      CleanupIsOrderly(s, moved, m', io.write);
      SandwichIsOrderly(s, moved, m', io.write, if io.rollback then [RenameFile(final, PART)] else []);
    }
  }

  lemma FinalizeIsOrderly(s: Store, m: Manifest, r: Receipt, t: IngestClock, io: IngestIo)
    ensures Along(Orderly, s, FinalizePlan(s, m, r, t, io).acts)
  {
    hide WritePlan, Written;
    var m1 := Published(m, r, t);
    var w1 := WritePlan(s, m1, io.first);
    WriteIsOrderly(s, m1, io.first);
    if w1.reply {
      var s1 := Written(s, m1, io.first);
      var cleanup := CleanupActs(m1, m1.ingestResult.value, io);
      WriteWalk(Orderly, s, m1, io.first);
      CleanupIsOrderly(s1, cleanup, Recorded(m1, io.removeFinal), io.second);
      AlongConcat(Orderly, s, w1.acts, cleanup + WritePlan(s1, Recorded(m1, io.removeFinal), io.second).acts);
    }
  }

  lemma IngestIsOrderly(s: Store, id: string, req: IngestRequest, lib: LibraryAnswers, t: IngestClock, io: IngestIo)
    ensures Along(Orderly, s, IngestPlan(s, id, req, lib, t, io).acts)
  {
    hide WritePlan, FinalizePlan, LibraryPlan;
    if IngestPlan(s, id, req, lib, t, io).acts != [] {
      var m := Current(s).value;
      if m.status.Ingested? {
        var r := m.ingestResult.value;
        CleanupIsOrderly(s, CleanupActs(m, r, io), m.(ingestResult := Some(r.(deletedStagedFile := io.removeFinal))),
                         io.first);
      } else {
        var l := LibraryPlan(req, lib);
        LibraryOnly(req, lib);
        OutsideIsOrderly(s, l.acts);
        OutsideLeavesRegister(s, l.acts);
        if l.reply.Ok? {
          FinalizeOnSameRegister(s, Run(s, l.acts), m, l.reply.value, t, io);
          FinalizeIsOrderly(Run(s, l.acts), m, l.reply.value, t, io);
          AlongConcat(Orderly, s, l.acts, FinalizePlan(s, m, l.reply.value, t, io).acts);
        }
      }
    }
  }

  lemma AbortIsOrderly(s: Store, id: string, now: int, io: AbortIo)
    ensures Along(Orderly, s, AbortPlan(s, id, now, io).acts)
  {
    hide WritePlan;
    if AbortPlan(s, id, now, io).acts != [] {
      var m := Current(s).value;
      OutsideIsOrderly(s, [RemoveFile(PART)]);
      CleanupIsOrderly(s, [RemoveFile(PART)] + [RemoveFile(m.sanitizedFilename)], AbortedManifest(m, now), io.write);
    }
  }

  lemma SweepIsOrderly(s: Store, id: string, now: int, removals: nat)
    ensures Along(Orderly, s, SweepPlan(s, id, now, removals).acts)
  {
    if SweepPlan(s, id, now, removals).acts != [] {
      RemovalWalk(Orderly, s, Current(s).value);
      AlongCut(Orderly, s, RemovalActs(Current(s).value), removals);
    }
  }

  lemma OperationIsOrderly(s: Store, id: string, hash: Hash, op: Op)
    ensures Along(Orderly, s, PlanOf(s, id, hash, op).acts)
  {
    match op
    case Append(req, now, later, io) => AppendIsOrderly(s, id, req, now, later, io);
    case Commit(requested, now, later, io) => CommitIsOrderly(s, id, hash, requested, now, later, io);
    case Ingest(req, lib, clock, io) => IngestIsOrderly(s, id, req, lib, clock, io);
    case Abort(now, io) => AbortIsOrderly(s, id, now, io);
    case Sweep(now, removals) => SweepIsOrderly(s, id, now, removals);
    case Status(_) =>
  }
}
