/**
 The life of an upload when nothing crashes and every failure that has an undo is undone: what the
 bytes on disk are in each status.
 */
module UploadLifecycle {
  import opened Outcomes
  import opened UploadStore
  import opened ManifestRegister
  import opened UploadPlans
  import opened UploadInvariant
  import opened UploadRuns
  import opened UploadHistory
  import opened UploadIntegrity
  import opened UploadIngest

  ghost predicate Settled(base: Manifest, hash: Hash, m: Manifest, files: map<string, Bytes>) {
    var final := base.sanitizedFilename;
    match m.status
    case Open =>
      final !in files && m.bytesReceived == if PART in files then |files[PART]| else 0
    case Committed =>
      PART !in files && final in files && |files[final]| == m.sizeBytes && m.actualSha256 == Some(hash(files[final]))
    case Ingested =>
      && PART !in files
      && (final in files ==> |files[final]| == m.sizeBytes && m.actualSha256 == Some(hash(files[final])))
      && (m.ingestResult.Some? && m.ingestResult.value.deletedStagedFile ==> final !in files)
      && (m.ingestResult.Some? && m.ingestResult.value.retainedSourceFile ==> final in files)
    case Aborted => files == map[]
    case _ => false
  }

  // What holds between operations.
  ghost predicate Steady(base: Manifest, hash: Hash, s: Store) {
    && Good(base, s) && !s.tmp.Valid?
    && s.files.Keys <= {PART, base.sanitizedFilename}
    && (Current(s).Some? ==> Settled(base, hash, Current(s).value, s.files))
    && (Current(s).None? ==> s.files == map[])
  }

  predicate SureWrite(io: WriteIo) {
    io.prepare && io.create && io.fill && io.removeBackup && io.rotate && io.publish
  }

  // The undo steps that the code has do succeed; where it has none, the calls do. Abort and sweep
  // delete before they write, and a torn append is never cut back.
  predicate Tidy(op: Op) {
    match op
    case Append(req, _, _, io) => |req.bytes| <= io.written && io.flush && TidyWrite(io.write) && io.rollback
    case Commit(_, _, _, io) => TidyWrite(io.write) && io.rollback
    case Ingest(_, _, _, io) => TidyWrite(io.first) && TidyWrite(io.second)
    case Abort(_, io) => io.removePart ==> io.removeFinal && io.removeDir && SureWrite(io.write)
    case Sweep(_, removals) => removals == 0 || removals >= 5
    case Status(_) => true
  }

  lemma GoodAfter(base: Manifest, hash: Hash, s: Store, op: Op)
    requires PreparedBase(base) && Good(base, s) && ClockOk(base, op)
    ensures Good(base, Run(s, PlanOf(s, base.uploadId, hash, op).acts))
  {
    var acts := PlanOf(s, base.uploadId, hash, op).acts;
    OperationIsGood(base, hash, s, op);
    assert Cut(acts, |acts|) == acts;
    GoodIsKept(base, s, acts, |acts|);
  }

  ghost predicate StepsForward(base: Manifest, hash: Hash, s: Store, s': Store) {
    Steady(base, hash, s') && Forward(Current(s), Current(s'))
  }

  lemma AppendStep(base: Manifest, hash: Hash, s: Store, req: AppendRequest, now: int, later: int, io: AppendIo)
    requires PreparedBase(base) && base.sanitizedFilename != PART && Steady(base, hash, s)
    requires |req.bytes| <= io.written && io.flush && TidyWrite(io.write) && io.rollback
    ensures StepsForward(base, hash, s, Run(s, AppendPlan(s, base.uploadId, req, now, later, io).acts))
  {
    if AppendPlan(s, base.uploadId, req, now, later, io).acts != [] {
      CurrentIsNewest(base, s);
      AppendActsStep(base, hash, s, Current(s).value, req, later, io);
    }
  }

  lemma AppendActsStep(
    base: Manifest, hash: Hash, s: Store, m: Manifest, req: AppendRequest, later: int, io: AppendIo)
    requires base.sanitizedFilename != PART && Steady(base, hash, s) && Current(s) == Some(m) && m.status.Open?
    requires m.bytesReceived + |req.bytes| <= m.sizeBytes
    requires |req.bytes| <= io.written && io.flush && TidyWrite(io.write) && io.rollback
    ensures StepsForward(base, hash, s, Run(s, AppendActs(s, m, req, later, io).acts))
  {
    hide StepsForward, Steady, Run, WritePlan, Apply, Current, AppendActs;
    var m' := m.(bytesReceived := m.bytesReceived + |req.bytes|);
    AppendRun(base, hash, s, m, req, later, io);
    AppendedWrite(base, hash, s, m, req.bytes, m', io.write);
  }

  // Where an append whose bytes all arrive leaves the store.
  lemma AppendRun(base: Manifest, hash: Hash, s: Store, m: Manifest, req: AppendRequest, later: int, io: AppendIo)
    requires |req.bytes| <= io.written && io.flush && io.rollback
    ensures var w := WritePlan(s, m.(bytesReceived := m.bytesReceived + |req.bytes|), io.write);
            var t := Run(Grown(s, req.bytes), w.acts);
            Run(s, AppendActs(s, m, req, later, io).acts)
            == if w.reply then t else Apply(t, SetLen(PART, m.bytesReceived))
  {
    hide Run, WritePlan, Apply, BytePlan;
    var bytes := req.bytes;
    assert bytes[..Min(io.written, |bytes|)] == bytes;
    var part := [OpenFile(PART)] + BytePlan(PART, bytes);
    PartIsIntact(base, hash, Content(s, PART) + bytes, s, bytes);
    var w := WritePlan(s, m.(bytesReceived := m.bytesReceived + |bytes|), io.write);
    var undo := SetLen(PART, m.bytesReceived);
    if w.reply {
      RunConcat(s, part, w.acts);
    } else {
      RunConcat(s, part, w.acts + [undo]);
      RunSnoc(Grown(s, bytes), w.acts, undo);
    }
  }

  // The manifest write of an append, over the grown part file, and its undoing.
  lemma AppendedWrite(
    base: Manifest, hash: Hash, s: Store, m: Manifest, bytes: Bytes, m': Manifest, io: WriteIo)
    requires base.sanitizedFilename != PART && Steady(base, hash, s) && Current(s) == Some(m) && m.status.Open?
    requires m' == m.(bytesReceived := m.bytesReceived + |bytes|) && m'.bytesReceived <= m.sizeBytes
    requires TidyWrite(io)
    ensures var t := Run(Grown(s, bytes), WritePlan(s, m', io).acts);
            if WritePlan(s, m', io).reply then StepsForward(base, hash, s, t)
            else StepsForward(base, hash, s, Apply(t, SetLen(PART, m.bytesReceived)))
  {
    hide WritePlan, Run;
    CurrentIsNewest(base, s);
    var grown := Grown(s, bytes);
    assert Good(base, grown);
    TidyWriteEffect(base, grown, m', io);
    SameRegisterSameWrite(grown, s, m', io);
  }

  lemma CommitStep(
    base: Manifest, hash: Hash, s: Store,
    requested: Result<Option<string>, Error>, now: int, later: int, io: CommitIo)
    requires PreparedBase(base) && base.sanitizedFilename != PART && Steady(base, hash, s)
    requires TidyWrite(io.write) && io.rollback
    ensures StepsForward(base, hash, s, Run(s, CommitPlan(s, base.uploadId, hash, requested, now, later, io).acts))
  {
    var p := CommitPlan(s, base.uploadId, hash, requested, now, later, io);
    if p.acts != [] {
      CurrentIsNewest(base, s);
      CommitActsStep(base, hash, s, Current(s).value, io);
    }
  }

  // Where the renaming of a commit leaves the store.
  function Moved(s: Store, final: string): Store
    requires PART in s.files
  {
    s.(files := (s.files - {PART})[final := s.files[PART]])
  }

  lemma CommitActsStep(base: Manifest, hash: Hash, s: Store, m: Manifest, io: CommitIo)
    requires PreparedBase(base) && base.sanitizedFilename != PART && Steady(base, hash, s)
    requires Current(s) == Some(m) && m.status.Open? && m.bytesReceived == m.sizeBytes && PART in s.files
    requires TidyWrite(io.write) && io.rollback
    ensures StepsForward(base, hash, s, Run(s, CommitActs(s, m, hash(s.files[PART]), io).acts))
  {
    CurrentIsNewest(base, s);
    var final, file := base.sanitizedFilename, s.files[PART];
    assert final !in s.files && |file| == m.sizeBytes;
    if io.rename {
      var m' := m.(actualSha256 := Some(hash(file)), status := Committed);
      CommittedWrite(base, hash, s, m, m', io.write);
      hide StepsForward, Steady, Settled, Good, Run, WritePlan, Current;
      RenameWalk(s, final);
      var moved := [RenameFile(PART, final)];
      assert [] + moved == moved;
      var w := WritePlan(s, m', io.write).acts;
      if WritePlan(s, m', io.write).reply {
        RunConcat(s, moved, w);
      } else {
        var undo := RenameFile(final, PART);
        RunConcat(s, moved, w + [undo]);
        RunSnoc(Moved(s, final), w, undo);
      }
    } else {
      assert CommitActs(s, m, hash(file), io).acts == [];
    }
  }

  lemma RenameWalk(s: Store, final: string)
    requires PART in s.files
    ensures Run(s, [RenameFile(PART, final)]) == Moved(s, final)
  {
    AlongCons((t, a) => true, s, RenameFile(PART, final), []);
    assert [RenameFile(PART, final)] + [] == [RenameFile(PART, final)];
  }

  // The manifest write of a commit, over the renamed file, and its undoing.
  lemma CommittedWrite(base: Manifest, hash: Hash, s: Store, m: Manifest, m': Manifest, io: WriteIo)
    requires PreparedBase(base) && base.sanitizedFilename != PART && Steady(base, hash, s)
    requires Current(s) == Some(m) && m.status.Open? && m.bytesReceived == m.sizeBytes && PART in s.files
    requires m' == m.(actualSha256 := Some(hash(s.files[PART])), status := Committed)
    requires TidyWrite(io)
    ensures var final := base.sanitizedFilename;
            var t := Run(Moved(s, final), WritePlan(s, m', io).acts);
            if WritePlan(s, m', io).reply then StepsForward(base, hash, s, t)
            else StepsForward(base, hash, s, Apply(t, RenameFile(final, PART)))
  {
    hide WritePlan, Run, StepsForward, Steady;
    var final := base.sanitizedFilename;
    var moved := Moved(s, final);
    CommittedIsProper(base, hash, s, m, m', moved);
    TidyWriteEffect(base, moved, m', io);
    SameRegisterSameWrite(moved, s, m', io);
    SameCurrent(s, moved);
    var t := Run(moved, WritePlan(s, m', io).acts);
    if WritePlan(s, m', io).reply {
      CommittedIsSteady(base, hash, s, m, m', t);
    } else {
      NothingChanged(base, hash, s, Apply(t, RenameFile(final, PART)));
    }
  }

  lemma CommittedIsProper(base: Manifest, hash: Hash, s: Store, m: Manifest, m': Manifest, moved: Store)
    requires base.sanitizedFilename != PART && Steady(base, hash, s)
    requires Current(s) == Some(m) && m.status.Open? && m.bytesReceived == m.sizeBytes
    requires m'.actualSha256.Some? && m' == m.(actualSha256 := m'.actualSha256, status := Committed)
    requires SameRegister(s, moved)
    ensures Good(base, moved) && !moved.tmp.Valid? && Proper(base, m')
    ensures Older(moved.primary, Valid(m')) && Older(moved.backup, Valid(m'))
    ensures base.sanitizedFilename !in s.files
  {
    CurrentIsNewest(base, s);
  }

  lemma CommittedIsSteady(base: Manifest, hash: Hash, s: Store, m: Manifest, m': Manifest, t: Store)
    requires base.sanitizedFilename != PART && Steady(base, hash, s) && Current(s) == Some(m) && PART in s.files
    requires m.status.Open? && m.bytesReceived == m.sizeBytes
    requires m' == m.(actualSha256 := Some(hash(s.files[PART])), status := Committed)
    requires Good(base, t) && !t.tmp.Valid? && Current(t) == Some(m')
    requires t.files == Moved(s, base.sanitizedFilename).files
    ensures StepsForward(base, hash, s, t)
  {
    CurrentIsNewest(base, s);
  }

  lemma NothingChanged(base: Manifest, hash: Hash, s: Store, t: Store)
    requires Steady(base, hash, s) && Good(base, t) && !t.tmp.Valid?
    requires Current(t) == Current(s) && t.files == s.files
    ensures StepsForward(base, hash, s, t)
  {
  }

  lemma SameCurrent(s: Store, t: Store)
    requires SameRegister(s, t)
    ensures Current(s) == Current(t)
  {
  }

  lemma RecordedIsSteady(
    base: Manifest, hash: Hash, s: Store, m1: Manifest, m2: Manifest, removed: bool, t: Store)
    requires Steady(base, hash, s) && Current(s) == Some(m1) && m1.status.Ingested? && m1.ingestResult.Some?
    requires !m1.ingestResult.value.deletedStagedFile && m2 == Recorded(m1, removed)
    requires Good(base, t) && !t.tmp.Valid? && (Current(t) == Some(m1) || Current(t) == Some(m2))
    requires t.files == if m1.ingestResult.value.retainedSourceFile || !removed then s.files
                        else s.files - {m1.sanitizedFilename}
    ensures StepsForward(base, hash, s, t)
  {
    CurrentIsNewest(base, s);
  }

  // Deleting the staged file of an ingested upload, unless it is retained, and recording it.
  lemma RecordStep(base: Manifest, hash: Hash, s: Store, m1: Manifest, m2: Manifest, removed: bool, io: WriteIo)
    requires Steady(base, hash, s) && Current(s) == Some(m1) && m1.status.Ingested? && m1.ingestResult.Some?
    requires !m1.ingestResult.value.deletedStagedFile && m2 == Recorded(m1, removed)
    requires TidyWrite(io)
    ensures var r1 := m1.ingestResult.value;
            var cleanup := if r1.retainedSourceFile || !removed then [] else [RemoveFile(m1.sanitizedFilename)];
            StepsForward(base, hash, s, Run(s, cleanup + WritePlan(s, m2, io).acts))
  {
    CurrentIsNewest(base, s);
    var r1 := m1.ingestResult.value;
    var cleanup := if r1.retainedSourceFile || !removed then [] else [RemoveFile(m1.sanitizedFilename)];
    if cleanup != [] {
      assert cleanup == [RemoveFile(m1.sanitizedFilename)] + [];
      AlongCons((t, a) => true, s, RemoveFile(m1.sanitizedFilename), []);
    }
    var t := Run(s, cleanup);
    assert Good(base, t);
    hide Run, WritePlan, TidyWrite, Settled, StepsForward;
    TidyWriteEffect(base, t, m2, io);
    SameRegisterSameWrite(t, s, m2, io);
    RunConcat(s, cleanup, WritePlan(s, m2, io).acts);
    SameCurrent(s, t);
    RecordedIsSteady(base, hash, s, m1, m2, removed, Run(t, WritePlan(s, m2, io).acts));
  }

  lemma FinalizeStep(
    base: Manifest, hash: Hash, s: Store, m: Manifest, r: Receipt, t: IngestClock, io: IngestIo)
    requires PreparedBase(base) && Steady(base, hash, s) && Current(s) == Some(m) && m.status.Committed?
    requires WellFormedReceipt(r) && !r.deletedStagedFile && ReceiptOutlives(base, t.terminal)
    requires TidyWrite(io.first) && TidyWrite(io.second)
    ensures StepsForward(base, hash, s, Run(s, FinalizePlan(s, m, r, t, io).acts))
  {
    var m1 := Published(m, r, t);
    var w1 := WritePlan(s, m1, io.first);
    CurrentIsNewest(base, s);
    PublishedIsProper(base, s, m, r, t);
    TidyWriteEffect(base, s, m1, io.first);
    WriteWalk((x, a) => true, s, m1, io.first);
    if w1.reply {
      var s1 := Written(s, m1, io.first);
      RecordStep(base, hash, s1, m1, Recorded(m1, io.removeFinal), io.removeFinal, io.second);
      RunConcat(s, w1.acts,
                CleanupActs(m1, m1.ingestResult.value, io)
                + WritePlan(s1, Recorded(m1, io.removeFinal), io.second).acts);
    }
  }

  lemma IngestStep(
    base: Manifest, hash: Hash, s: Store, req: IngestRequest, lib: LibraryAnswers, t: IngestClock, io: IngestIo)
    requires PreparedBase(base) && Steady(base, hash, s) && ReceiptOutlives(base, t.terminal)
    requires TidyWrite(io.first) && TidyWrite(io.second)
    ensures StepsForward(base, hash, s, Run(s, IngestPlan(s, base.uploadId, req, lib, t, io).acts))
  {
    var p := IngestPlan(s, base.uploadId, req, lib, t, io);
    if p.acts != [] {
      CurrentIsNewest(base, s);
      var m := Current(s).value;
      if m.status.Ingested? {
        var r := m.ingestResult.value;
        RecordStep(base, hash, s, m, m.(ingestResult := Some(r.(deletedStagedFile := io.removeFinal))),
                   io.removeFinal, io.first);
      } else {
        var l := LibraryPlan(req, lib);
        LibraryActsOutside(req, lib);
        LibraryRun(s, l.acts);
        if l.reply.Ok? {
          var s0 := Run(s, l.acts);
          FinalizeOnSameRegister(s, s0, m, l.reply.value, t, io);
          FinalizeStep(base, hash, s0, m, l.reply.value, t, io);
          RunConcat(s, l.acts, FinalizePlan(s0, m, l.reply.value, t, io).acts);
        }
      }
    }
  }

  lemma AbortStep(base: Manifest, hash: Hash, s: Store, now: int, io: AbortIo)
    requires PreparedBase(base) && Steady(base, hash, s) && ReceiptOutlives(base, now)
    requires io.removePart ==> io.removeFinal && io.removeDir && SureWrite(io.write)
    ensures StepsForward(base, hash, s, Run(s, AbortPlan(s, base.uploadId, now, io).acts))
  {
    var p := AbortPlan(s, base.uploadId, now, io);
    if p.acts != [] {
      CurrentIsNewest(base, s);
      var m := Current(s).value;
      var removed := [RemoveFile(PART)] + ([RemoveFile(m.sanitizedFilename)] + []);
      assert removed == [RemoveFile(PART)] + [RemoveFile(m.sanitizedFilename)];
      AlongCons((t, a) => true, s, RemoveFile(PART), [RemoveFile(m.sanitizedFilename)] + []);
      AlongCons((t, a) => true, s.(files := s.files - {PART}), RemoveFile(m.sanitizedFilename), []);
      var t := Run(s, removed);
      var m' := AbortedManifest(m, now);
      assert t.files == map[];
      assert WritePlan(t, m', io.write) == WritePlan(s, m', io.write);
      SuccessfulWriteIsVisible(t, m', io.write);
      RunConcat(s, removed, WritePlan(s, m', io.write).acts);
      GoodAfter(base, hash, s, Abort(now, io));
    }
  }

  lemma SweepStep(base: Manifest, hash: Hash, s: Store, now: int, removals: nat)
    requires PreparedBase(base) && Steady(base, hash, s) && (removals == 0 || removals >= 5)
    ensures StepsForward(base, hash, s, Run(s, SweepPlan(s, base.uploadId, now, removals).acts))
  {
    if SweepPlan(s, base.uploadId, now, removals).acts != [] {
      CurrentIsNewest(base, s);
      var m := Current(s).value;
      WholeSweep(m, removals);
      hide RemovalActs, Run;
      RemovalWalk((t, a) => true, s, m);
      assert s.files - {PART} - {m.sanitizedFilename} == map[];
    }
  }

  // The lifecycle invariant and the monotone history, one operation at a time.
  lemma OperationStepsForward(base: Manifest, hash: Hash, s: Store, op: Op)
    requires PreparedBase(base) && base.sanitizedFilename != PART
    requires Steady(base, hash, s) && Tidy(op) && ClockOk(base, op)
    ensures StepsForward(base, hash, s, Run(s, PlanOf(s, base.uploadId, hash, op).acts))
  {
    match op
    case Append(req, now, later, io) => AppendStep(base, hash, s, req, now, later, io);
    case Commit(requested, now, later, io) => CommitStep(base, hash, s, requested, now, later, io);
    case Ingest(req, lib, clock, io) => IngestStep(base, hash, s, req, lib, clock, io);
    case Abort(now, io) => AbortStep(base, hash, s, now, io);
    case Sweep(now, removals) => SweepStep(base, hash, s, now, removals);
    case Status(_) =>
  }

  // Over every crash-free tidy run, whatever bytes were appended.
  lemma {:induction false} LifeOnlyMovesForward(base: Manifest, hash: Hash, s: Store, ops: seq<Op>)
    requires PreparedBase(base) && base.sanitizedFilename != PART && Steady(base, hash, s)
    requires forall op | op in ops :: Tidy(op) && ClockOk(base, op)
    ensures StepsForward(base, hash, s, RunOps(s, base.uploadId, hash, ops))
    decreases |ops|
  {
    if ops != [] {
      assert ops[0] in ops;
      OperationStepsForward(base, hash, s, ops[0]);
      LifeOnlyMovesForward(base, hash, Run(s, PlanOf(s, base.uploadId, hash, ops[0]).acts), ops[1..]);
    }
  }

  lemma PreparedIsSteady(base: Manifest, hash: Hash, io: WriteIo)
    requires PreparedBase(base) && WritePlan(EMPTY, base, io).reply
    ensures Steady(base, hash, Run(EMPTY, WritePlan(EMPTY, base, io).acts))
    ensures Current(Run(EMPTY, WritePlan(EMPTY, base, io).acts)) == Some(base)
  {
    SuccessfulWriteIsVisible(EMPTY, base, io);
    WriteWalk((t, a) => true, EMPTY, base, io);
  }

  // ------------------------------------------------- what the undoing of a failure does not undo --

  // An append whose manifest write fails cuts the part file back. That leaves the upload as it was
  // unless the write left its own tmp behind: recovery then believes in bytes that were just cut off,
  // and refuses every further append and the commit.
  lemma UndoneAppendIff(
    base: Manifest, hash: Hash, s: Store, m: Manifest, req: AppendRequest, later: int, io: AppendIo)
    requires Steady(base, hash, s) && Current(s) == Some(m) && m.status.Open? && base.sanitizedFilename != PART
    requires req.bytes != [] && |req.bytes| <= io.written && io.flush && io.rollback
    requires !WritePlan(s, m.(bytesReceived := m.bytesReceived + |req.bytes|), io.write).reply
    ensures var s' := Run(s, AppendActs(s, m, req, later, io).acts);
            && Content(s', PART) == Content(s, PART)
            && (Current(s') == Some(m) <==> !LeavesStrayTmp(s, io.write))
            && (LeavesStrayTmp(s, io.write) ==>
                 Current(s').Some? && Current(s').value.bytesReceived > |Content(s', PART)|)
  {
    hide StepsForward, Run, WritePlan, AppendActs, LeavesStrayTmp;
    var m' := m.(bytesReceived := m.bytesReceived + |req.bytes|);
    assert m.bytesReceived == |Content(s, PART)|;
    assert m'.bytesReceived > m.bytesReceived;
    AppendRun(base, hash, s, m, req, later, io);
    var grown := Grown(s, req.bytes);
    UndoneWrite(s, grown, m, m', io.write);
    var t := Run(grown, WritePlan(s, m', io.write).acts);
    assert Resize(Content(s, PART) + req.bytes, m.bytesReceived) == Content(s, PART);
    SameCurrent(t, Apply(t, SetLen(PART, m.bytesReceived)));
  }

  lemma UndoneWrite(s: Store, t: Store, m: Manifest, m': Manifest, io: WriteIo)
    requires SameRegister(s, t) && !s.tmp.Valid? && !s.primary.Garbage? && Current(s) == Some(m) && m != m'
    requires !WritePlan(s, m', io).reply
    ensures WritePlan(t, m', io) == WritePlan(s, m', io)
    ensures var t' := Run(t, WritePlan(s, m', io).acts);
            && t'.files == t.files
            && (Current(t') == Some(m) <==> !LeavesStrayTmp(s, io))
            && (LeavesStrayTmp(s, io) ==> Current(t') == Some(m'))
  {
    SameRegisterSameWrite(s, t, m', io);
    FailedWriteIff(t, m', io);
  }

  // A commit renames the part file before it writes. When that write fails, the upload is still open
  // unless the write left its own tmp behind; and the bytes are where they were if the renaming is undone.
  lemma UndoneCommitIff(base: Manifest, hash: Hash, s: Store, m: Manifest, m': Manifest, io: CommitIo)
    requires PreparedBase(base) && base.sanitizedFilename != PART && Steady(base, hash, s)
    requires Current(s) == Some(m) && m.status.Open? && m.bytesReceived == m.sizeBytes
    requires m' == m.(actualSha256 := Some(hash(Content(s, PART))), status := Committed)
    requires io.rename && !WritePlan(s, m', io.write).reply
    ensures PART in s.files
    ensures var s' := Run(s, CommitActs(s, m, hash(Content(s, PART)), io).acts);
            && s'.files == (if io.rollback then s.files else Moved(s, base.sanitizedFilename).files)
            && (Current(s') == Some(m) <==> !LeavesStrayTmp(s, io.write))
            && (LeavesStrayTmp(s, io.write) ==> Current(s') == Some(m'))
  {
    CurrentIsNewest(base, s);
    var final := base.sanitizedFilename;
    assert final !in s.files && PART in s.files;
    hide Steady, Settled, Good, Run, WritePlan, Current, LeavesStrayTmp;
    var moved := [RenameFile(PART, final)];
    assert [] + moved == moved;
    RenameWalk(s, final);
    UndoneWrite(s, Moved(s, final), m, m', io.write);
    var w := WritePlan(s, m', io.write).acts;
    RunConcat(s, moved, w + if io.rollback then [RenameFile(final, PART)] else []);
    RunSnoc(Moved(s, final), w, RenameFile(final, PART));
    assert w + [] == w;
    var t := Run(Moved(s, final), w);
    SameCurrent(t, Apply(t, RenameFile(final, PART)));
  }

  // What is left then is an upload that is committed without its file: as long as it has not expired,
  // every repeated commit answers Ok with the digest, and no ingest finds the file.
  lemma StrandedCommit(
    base: Manifest, hash: Hash, s: Store, m: Manifest, m': Manifest, io: CommitIo,
    requested: Result<Option<string>, Error>, now: int, later: int, again: CommitIo,
    req: IngestRequest, lib: LibraryAnswers, t: IngestClock, io': IngestIo)
    requires PreparedBase(base) && base.sanitizedFilename != PART && Steady(base, hash, s)
    requires Current(s) == Some(m) && m.status.Open? && m.bytesReceived == m.sizeBytes
    requires m' == m.(actualSha256 := Some(hash(Content(s, PART))), status := Committed)
    requires io.rename && io.rollback && LeavesStrayTmp(s, io.write) && !WritePlan(s, m', io.write).reply
    requires now <= base.expiresAtMs && t.now <= base.expiresAtMs
    ensures PART in s.files
    ensures var s' := Run(s, CommitActs(s, m, hash(Content(s, PART)), io).acts);
            && CommitPlan(s', base.uploadId, hash, requested, now, later, again)
               == Plan([], Ok(CommitResponse(base.uploadId, base.filename, base.mimeType, base.sizeBytes,
                                             hash(Content(s, PART)))))
            && IngestPlan(s', base.uploadId, req, lib, t, io') == Plan([], Err(NotFound))
  {
    CurrentIsNewest(base, s);
    UndoneCommitIff(base, hash, s, m, m', io);
    hide Run, WritePlan, CommitActs, LeavesStrayTmp;
  }

  // An abort deletes the bytes before it writes. When that write fails without a trace, the upload is
  // still current under its old status, although its bytes are gone; that is harmless exactly when
  // there were none.
  lemma HalfAbortedIff(base: Manifest, hash: Hash, s: Store, m: Manifest, now: int, io: AbortIo)
    requires PreparedBase(base) && Steady(base, hash, s) && Current(s) == Some(m)
    requires m.status.Open? || m.status.Committed?
    requires io.removePart && io.removeFinal && io.removeDir
    requires !WritePlan(s, AbortedManifest(m, now), io.write).reply && !LeavesStrayTmp(s, io.write)
    ensures var s' := Run(s, AbortPlan(s, base.uploadId, now, io).acts);
            && Current(s') == Some(m) && s'.files == map[]
            && (Settled(base, hash, m, s'.files) <==> m.status.Open? && m.bytesReceived == 0)
  {
    CurrentIsNewest(base, s);
    var removed := [RemoveFile(PART)] + ([RemoveFile(m.sanitizedFilename)] + []);
    assert removed == [RemoveFile(PART)] + [RemoveFile(m.sanitizedFilename)];
    AlongCons((t, a) => true, s, RemoveFile(PART), [RemoveFile(m.sanitizedFilename)] + []);
    AlongCons((t, a) => true, s.(files := s.files - {PART}), RemoveFile(m.sanitizedFilename), []);
    var t := Run(s, removed);
    assert t.files == map[];
    UndoneWrite(s, t, m, AbortedManifest(m, now), io.write);
    RunConcat(s, removed, WritePlan(s, AbortedManifest(m, now), io.write).acts);
  }
}
