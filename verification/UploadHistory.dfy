/**
 The history of an upload between crashes only moves forward, whatever becomes of its bytes.
 */
module UploadHistory {
  import opened Outcomes
  import opened UploadStore
  import opened ManifestRegister
  import opened UploadPlans
  import opened UploadInvariant
  import opened UploadRuns

  // A manifest write that, from whatever store, either succeeds or leaves no trace for recovery.
  predicate TidyWrite(io: WriteIo) {
    io.prepare && io.create && io.fill ==> io.removeBackup && ((io.rotate && io.publish) || io.cleanTmp)
  }

  lemma TidyWriteIff(io: WriteIo)
    ensures TidyWrite(io) <==> forall s: Store :: !LeavesStrayTmp(s, io)
  {
    if !TidyWrite(io) {
      assert LeavesStrayTmp(EMPTY.(primary := Garbage), io);
    }
  }

  predicate Leads(a: UploadStatus, b: UploadStatus) {
    || a == b
    || (a.Open? && (b.Committed? || b.Ingested? || b.Aborted?))
    || (a.Committed? && (b.Ingested? || b.Aborted?))
  }

  // History only moves forward; an upload disappears, for good, only when it is swept.
  ghost predicate Forward(a: Option<Manifest>, b: Option<Manifest>) {
    match (a, b)
    case (None, Some(_)) => false
    case (Some(m), Some(n)) =>
      && n == m.(actualSha256 := n.actualSha256, bytesReceived := n.bytesReceived, status := n.status,
                 expiresAtMs := n.expiresAtMs, ingestResult := n.ingestResult)
      && Leads(m.status, n.status)
      && m.bytesReceived <= n.bytesReceived && m.expiresAtMs <= n.expiresAtMs
    case _ => true
  }

  // A tidy write of m, the register considered alone.
  lemma TidyWriteEffect(base: Manifest, s: Store, m: Manifest, io: WriteIo)
    requires Good(base, s) && !s.tmp.Valid? && Proper(base, m)
    requires Older(s.primary, Valid(m)) && Older(s.backup, Valid(m))
    requires TidyWrite(io)
    ensures var s' := Run(s, WritePlan(s, m, io).acts);
            && Good(base, s') && !s'.tmp.Valid? && SameFiles(s, s')
            && Current(s') == if WritePlan(s, m, io).reply then Some(m) else Current(s)
  {
    WriteWalk((t, a) => true, s, m, io);
    FirstWriteIsGood(base, s, m, io);
    hide Run, Good, Proper;
  }

  // ------------------------------------------------------------------- history moves forward --

  // What holds between operations of the register alone, whatever has become of the files.
  ghost predicate Rested(base: Manifest, s: Store) {
    Good(base, s) && !s.tmp.Valid?
  }

  // Manifest writes that fail leave no trace for recovery, and a sweep does not stop between the
  // primary and the backup. Everything else may fail.
  predicate TidyWrites(op: Op) {
    match op
    case Append(_, _, _, io) => TidyWrite(io.write)
    case Commit(_, _, _, io) => TidyWrite(io.write)
    case Ingest(_, _, _, io) => TidyWrite(io.first) && TidyWrite(io.second)
    case Abort(_, io) => TidyWrite(io.write)
    case Sweep(_, removals) => removals != 4
    case Status(_) => true
  }

  ghost predicate MovesForward(base: Manifest, s: Store, s': Store) {
    Rested(base, s') && Forward(Current(s), Current(s'))
  }

  lemma OutsideRests(base: Manifest, s: Store, acts: seq<Act>)
    requires Rested(base, s) && forall a | a in acts :: Outside(a)
    ensures Rested(base, Run(s, acts)) && Current(Run(s, acts)) == Current(s) && SameRegister(s, Run(s, acts))
  {
    OutsideLeavesRegister(s, acts);
  }

  // A manifest write between acts that leave the register alone.
  lemma SandwichRests(base: Manifest, s: Store, before: seq<Act>, m: Manifest, io: WriteIo, after: seq<Act>)
    requires Rested(base, s) && Proper(base, m) && Older(s.primary, Valid(m)) && Older(s.backup, Valid(m))
    requires TidyWrite(io) && forall a | a in before + after :: Outside(a)
    ensures var w := WritePlan(s, m, io);
            var s' := Run(s, before + (w.acts + after));
            Rested(base, s') && Current(s') == if w.reply then Some(m) else Current(s)
  {
    hide WritePlan, Run, Good;
    var t, w := Run(s, before), WritePlan(s, m, io).acts;
    assert forall a | a in before :: a in before + after;
    assert forall a | a in after :: a in before + after;
    OutsideRests(base, s, before);
    SameRegisterSameWrite(s, t, m, io);
    TidyWriteEffect(base, t, m, io);
    OutsideRests(base, Run(t, w), after);
    RunConcat(t, w, after);
    RunConcat(s, before, w + after);
  }

  lemma AppendMoves(base: Manifest, s: Store, req: AppendRequest, now: int, later: int, io: AppendIo)
    requires Rested(base, s) && TidyWrite(io.write)
    ensures MovesForward(base, s, Run(s, AppendPlan(s, base.uploadId, req, now, later, io).acts))
  {
    hide AppendActs, Run;
    if AppendPlan(s, base.uploadId, req, now, later, io).acts != [] {
      CurrentIsNewest(base, s);
      AppendActsMove(base, s, Current(s).value, req, later, io);
    } else {
      NothingRun(s);
    }
  }

  lemma AppendedManifest(base: Manifest, s: Store, m: Manifest, n: nat)
    requires Good(base, s) && Current(s) == Some(m) && m.status.Open? && m.bytesReceived + n <= m.sizeBytes
    ensures var m' := m.(bytesReceived := m.bytesReceived + n);
            && Proper(base, m') && Older(s.primary, Valid(m')) && Older(s.backup, Valid(m'))
            && Forward(Some(m), Some(m')) && Forward(Some(m), Some(m))
  {
    CurrentIsNewest(base, s);
  }

  lemma AppendActsMove(base: Manifest, s: Store, m: Manifest, req: AppendRequest, later: int, io: AppendIo)
    requires Rested(base, s) && TidyWrite(io.write) && Current(s) == Some(m) && m.status.Open?
    requires m.bytesReceived + |req.bytes| <= m.sizeBytes
    ensures MovesForward(base, s, Run(s, AppendActs(s, m, req, later, io).acts))
  {
    AppendedManifest(base, s, m, |req.bytes|);
    hide Run, WritePlan, BytePlan, Good, TidyWrite, Proper, Older, Forward, Current, Outside;
    var written := Min(io.written, |req.bytes|);
    var part := [OpenFile(PART)] + BytePlan(PART, req.bytes[..written]);
    PartIsOutside(req.bytes[..written], m.bytesReceived);
    if written < |req.bytes| || !io.flush {
      OutsideRests(base, s, part);
    } else {
      var m' := m.(bytesReceived := m.bytesReceived + |req.bytes|);
      var w := WritePlan(s, m', io.write);
      var undo := if w.reply || !io.rollback then [] else [SetLen(PART, m.bytesReceived)];
      SandwichRests(base, s, part, m', io.write, undo);
      assert w.acts + [] == w.acts;
    }
  }

  lemma CommitMoves(
    base: Manifest, hash: Hash, s: Store,
    requested: Result<Option<string>, Error>, now: int, later: int, io: CommitIo)
    requires Rested(base, s) && TidyWrite(io.write)
    ensures MovesForward(base, s, Run(s, CommitPlan(s, base.uploadId, hash, requested, now, later, io).acts))
  {
    var p := CommitPlan(s, base.uploadId, hash, requested, now, later, io);
    if p.acts != [] {
      CurrentIsNewest(base, s);
      var m := Current(s).value;
      var final := m.sanitizedFilename;
      var cleared := if final in s.files then [RemoveFile(final)] else [];
      var moved := cleared + [RenameFile(PART, final)];
      var m' := m.(actualSha256 := Some(hash(s.files[PART])), status := Committed);
      hide Run, WritePlan;
      OutsideRests(base, s, cleared);
      if final != PART {
        SandwichRests(base, s, moved, m', io.write, []);
        SandwichRests(base, s, moved, m', io.write, if io.rollback then [RenameFile(final, PART)] else []);
        assert WritePlan(s, m', io.write).acts + [] == WritePlan(s, m', io.write).acts;
      }
    } else {
      NothingRun(s);
    }
  }

  lemma AbortMoves(base: Manifest, s: Store, now: int, io: AbortIo)
    requires PreparedBase(base) && Rested(base, s) && ReceiptOutlives(base, now) && TidyWrite(io.write)
    ensures MovesForward(base, s, Run(s, AbortPlan(s, base.uploadId, now, io).acts))
  {
    var p := AbortPlan(s, base.uploadId, now, io);
    if p.acts != [] {
      CurrentIsNewest(base, s);
      var m := Current(s).value;
      var removed := [RemoveFile(PART)] + [RemoveFile(m.sanitizedFilename)];
      var m' := AbortedManifest(m, now);
      hide Run, WritePlan;
      OutsideRests(base, s, [RemoveFile(PART)]);
      OutsideRests(base, s, removed);
      SandwichRests(base, s, removed, m', io.write, []);
      assert WritePlan(s, m', io.write).acts + [] == WritePlan(s, m', io.write).acts;
    } else {
      NothingRun(s);
    }
  }

  lemma RecordMoves(base: Manifest, s: Store, m1: Manifest, m2: Manifest, cleanup: seq<Act>, io: WriteIo)
    requires Rested(base, s) && Current(s) == Some(m1) && m1.status.Ingested? && m1.ingestResult.Some?
    requires m2.ingestResult.Some? && m2 == m1.(ingestResult := m2.ingestResult)
    requires SameReceipt(m1.ingestResult.value, m2.ingestResult.value) && !m2.ingestResult.value.idempotentReplay
    requires TidyWrite(io) && forall a | a in cleanup :: Outside(a)
    ensures MovesForward(base, s, Run(s, cleanup + WritePlan(s, m2, io).acts))
  {
    CurrentIsNewest(base, s);
    hide Run, WritePlan;
    assert forall a | a in cleanup + [] :: Outside(a);
    SandwichRests(base, s, cleanup, m2, io, []);
    assert WritePlan(s, m2, io).acts + [] == WritePlan(s, m2, io).acts;
  }

  lemma FinalizeMoves(base: Manifest, s: Store, m: Manifest, r: Receipt, t: IngestClock, io: IngestIo)
    requires PreparedBase(base) && Rested(base, s) && Current(s) == Some(m) && m.status.Committed?
    requires WellFormedReceipt(r) && ReceiptOutlives(base, t.terminal)
    requires TidyWrite(io.first) && TidyWrite(io.second)
    ensures MovesForward(base, s, Run(s, FinalizePlan(s, m, r, t, io).acts))
  {
    var m1 := Published(m, r, t);
    var w1 := WritePlan(s, m1, io.first);
    CurrentIsNewest(base, s);
    PublishedIsProper(base, s, m, r, t);
    TidyWriteEffect(base, s, m1, io.first);
    WriteWalk((x, a) => true, s, m1, io.first);
    if w1.reply {
      var s1 := Written(s, m1, io.first);
      var cleanup := CleanupActs(m1, m1.ingestResult.value, io);
      hide Run, WritePlan, Written;
      RecordMoves(base, s1, m1, Recorded(m1, io.removeFinal), cleanup, io.second);
      RunConcat(s, w1.acts, cleanup + WritePlan(s1, Recorded(m1, io.removeFinal), io.second).acts);
    }
  }

  lemma IngestMoves(
    base: Manifest, s: Store, req: IngestRequest, lib: LibraryAnswers, t: IngestClock, io: IngestIo)
    requires PreparedBase(base) && Rested(base, s) && ReceiptOutlives(base, t.terminal)
    requires TidyWrite(io.first) && TidyWrite(io.second)
    ensures MovesForward(base, s, Run(s, IngestPlan(s, base.uploadId, req, lib, t, io).acts))
  {
    var p := IngestPlan(s, base.uploadId, req, lib, t, io);
    if p.acts != [] {
      CurrentIsNewest(base, s);
      var m := Current(s).value;
      hide Run, FinalizePlan, LibraryPlan;
      if m.status.Ingested? {
        var r := m.ingestResult.value;
        RecordMoves(base, s, m, m.(ingestResult := Some(r.(deletedStagedFile := io.removeFinal))),
                    CleanupActs(m, r, io), io.first);
      } else {
        var l := LibraryPlan(req, lib);
        LibraryActsOutside(req, lib);
        OutsideRests(base, s, l.acts);
        if l.reply.Ok? {
          var s0 := Run(s, l.acts);
          FinalizeOnSameRegister(s, s0, m, l.reply.value, t, io);
          FinalizeMoves(base, s0, m, l.reply.value, t, io);
          RunConcat(s, l.acts, FinalizePlan(s0, m, l.reply.value, t, io).acts);
        }
      }
    } else {
      NothingRun(s);
    }
  }

  // The first three removals of a sweep change nothing that recovery sees.
  lemma {:induction false} EarlyRemovals(s: Store, acts: seq<Act>)
    requires !s.tmp.Valid? && forall a | a in acts :: a.RemoveFile? || a.RemoveTmp?
    ensures var s' := Run(s, acts);
            !s'.tmp.Valid? && s'.primary == s.primary && s'.backup == s.backup
    decreases |acts|
  {
    if acts != [] {
      assert acts[0] in acts;
      EarlyRemovals(Apply(s, acts[0]), acts[1..]);
    }
  }

  lemma WholeSweep(m: Manifest, removals: nat)
    ensures removals >= 5 ==> Cut(RemovalActs(m), removals) == RemovalActs(m)
    ensures removals < 4 ==> forall a | a in Cut(RemovalActs(m), removals) :: a.RemoveFile? || a.RemoveTmp?
  {
    FiveRemovals(m);
  }

  lemma SweepMoves(base: Manifest, s: Store, now: int, removals: nat)
    requires Rested(base, s) && removals != 4
    ensures MovesForward(base, s, Run(s, SweepPlan(s, base.uploadId, now, removals).acts))
  {
    var p := SweepPlan(s, base.uploadId, now, removals);
    if p.acts != [] {
      var m := Current(s).value;
      WholeSweep(m, removals);
      hide RemovalActs, Run;
      if removals < 4 {
        EarlyRemovals(s, p.acts);
      } else {
        RemovalWalk((t, a) => true, s, m);
      }
    } else {
      NothingRun(s);
    }
  }

  // One operation at a time, on any upload, whatever it is called.
  lemma OperationMovesForward(base: Manifest, hash: Hash, s: Store, op: Op)
    requires PreparedBase(base) && Rested(base, s) && TidyWrites(op) && ClockOk(base, op)
    ensures MovesForward(base, s, Run(s, PlanOf(s, base.uploadId, hash, op).acts))
  {
    match op
    case Append(req, now, later, io) => AppendMoves(base, s, req, now, later, io);
    case Commit(requested, now, later, io) => CommitMoves(base, hash, s, requested, now, later, io);
    case Ingest(req, lib, clock, io) => IngestMoves(base, s, req, lib, clock, io);
    case Abort(now, io) => AbortMoves(base, s, now, io);
    case Sweep(now, removals) => SweepMoves(base, s, now, removals);
    case Status(_) =>
  }

  // Over every crash-free run whose manifest writes are tidy: torn appends, failed flushes, failed
  // roll-backs and half-done aborts included, for any file name.
  lemma {:induction false} HistoryMovesForward(base: Manifest, hash: Hash, s: Store, ops: seq<Op>)
    requires PreparedBase(base) && Rested(base, s)
    requires forall op | op in ops :: TidyWrites(op) && ClockOk(base, op)
    ensures MovesForward(base, s, RunOps(s, base.uploadId, hash, ops))
    decreases |ops|
  {
    if ops != [] {
      assert ops[0] in ops;
      OperationMovesForward(base, hash, s, ops[0]);
      HistoryMovesForward(base, hash, Run(s, PlanOf(s, base.uploadId, hash, ops[0]).acts), ops[1..]);
    }
  }
}
