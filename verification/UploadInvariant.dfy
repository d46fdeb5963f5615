/**
 What holds of the manifest register of one upload at every instant of every run: through crashes,
 failing calls and retries. `base` is the manifest that prepare wrote.
 */
module UploadInvariant {
  import opened Outcomes
  import opened UploadStore
  import opened ManifestRegister
  import opened UploadPlans
  import opened UnlockedReader

  ghost predicate PreparedBase(base: Manifest) {
    && base.status.Open? && base.bytesReceived == 0 && base.actualSha256.None? && base.ingestResult.None?
    && 0 < base.sizeBytes <= MAX_UPLOAD_BYTES
    && base.expiresAtMs == SaturatingAdd(base.createdAtMs, UPLOAD_TTL_MS)
  }

  // No bytes dropped: a receipt names a document or a stored asset, and its parts agree.
  predicate WellFormedReceipt(r: Receipt) {
    && (r.documentId.Some? || r.asset.Some?)
    && (r.storedOriginalFile <==> r.asset.Some?)
    && (r.extraction.Some? <==> r.asset.Some?)
    && (r.link.Some? <==> r.documentId.Some? && r.asset.Some?)
    && (r.extractionError.Some? <==> r.documentId.None?)
    && (r.report.Some? <==> r.documentId.Some?)
    && !r.idempotentReplay
  }

  // Busy and Expired are derived for reporting and never stored.
  ghost predicate Proper(base: Manifest, m: Manifest) {
    && m == base.(actualSha256 := m.actualSha256, bytesReceived := m.bytesReceived, status := m.status,
                  expiresAtMs := m.expiresAtMs, ingestResult := m.ingestResult)
    && m.bytesReceived <= m.sizeBytes
    && base.expiresAtMs <= m.expiresAtMs
    && match m.status
       case Open => m.actualSha256.None? && m.ingestResult.None? && m.expiresAtMs == base.expiresAtMs
       case Committed =>
         && m.actualSha256.Some? && m.bytesReceived == m.sizeBytes && m.ingestResult.None?
         && m.expiresAtMs == base.expiresAtMs && m.sanitizedFilename != PART
       case Ingested =>
         && m.actualSha256.Some? && m.bytesReceived == m.sizeBytes && m.sanitizedFilename != PART
         && m.ingestResult.Some? && WellFormedReceipt(m.ingestResult.value)
       case Aborted => m.ingestResult.None?
       case _ => false
  }

  // The same receipt up to the flags that record cleanup and replay.
  ghost predicate SameReceipt(a: Receipt, b: Receipt) {
    a.(deletedStagedFile := false, idempotentReplay := false)
    == b.(deletedStagedFile := false, idempotentReplay := false)
  }

  // An older manifest expires no later than a newer one, and has a receipt only if the newer one has it.
  ghost predicate Older(a: Slot, b: Slot) {
    a.Valid? && b.Valid? ==>
      && a.m.expiresAtMs <= b.m.expiresAtMs
      && (a.m.status.Ingested? ==>
           && b.m.status.Ingested? && a.m.ingestResult.Some? && b.m.ingestResult.Some?
           && SameReceipt(a.m.ingestResult.value, b.m.ingestResult.value))
  }

  // Among the manifests that recovery could surface.
  ghost predicate Ordered(s: Store) {
    Older(s.primary, s.tmp) && Older(s.backup, s.tmp) && Older(s.backup, s.primary)
  }

  ghost predicate Good(base: Manifest, s: Store) {
    && (s.tmp.Valid? ==> Proper(base, s.tmp.m))
    && !s.primary.Garbage? && (s.primary.Valid? ==> Proper(base, s.primary.m))
    && !s.backup.Garbage? && (s.backup.Valid? ==> Proper(base, s.backup.m))
    && Ordered(s)
  }

  ghost predicate GoodAct(base: Manifest, s: Store, a: Act) {
    && Orderly(s, a)
    && (a.FillTmp? ==> Proper(base, a.m) && Older(s.primary, Valid(a.m)) && Older(s.backup, Valid(a.m)))
  }

  ghost function GoodActs(base: Manifest): (Store, Act) -> bool {
    (s, a) => GoodAct(base, s, a)
  }

  lemma {:induction false} OutsideRun(base: Manifest, s: Store, acts: seq<Act>)
    requires forall a | a in acts :: Outside(a)
    ensures SameRegister(s, Run(s, acts))
    ensures Along(GoodActs(base), s, acts)
    decreases |acts|
  {
    if acts != [] {
      assert acts[0] in acts;
      OutsideRun(base, Apply(s, acts[0]), acts[1..]);
    }
  }

  lemma WriteIsGood(base: Manifest, s: Store, m: Manifest, io: WriteIo)
    requires Good(base, s) && Proper(base, m) && Older(s.primary, Valid(m)) && Older(s.backup, Valid(m))
    ensures Along(GoodActs(base), s, WritePlan(s, m, io).acts)
  {
    WriteWalk(GoodActs(base), s, m, io);
  }

  lemma GoodStep(base: Manifest, s: Store, a: Act)
    requires Good(base, s) && GoodAct(base, s, a)
    ensures Good(base, Apply(s, a))
  {
  }

  lemma GoodIsKept(base: Manifest, s: Store, acts: seq<Act>, k: nat)
    requires Good(base, s) && Along(GoodActs(base), s, acts)
    ensures Good(base, Run(s, Cut(acts, k)))
  {
    forall t, a | Good(base, t) && GoodActs(base)(t, a) ensures Good(base, Apply(t, a)) {
      GoodStep(base, t, a);
    }
    Preserved(t => Good(base, t), GoodActs(base), s, acts, k);
  }

  // A manifest write between acts that leave the register alone.
  lemma SandwichIsGood(base: Manifest, s: Store, before: seq<Act>, m: Manifest, io: WriteIo, after: seq<Act>)
    requires Good(base, s) && Proper(base, m) && Older(s.primary, Valid(m)) && Older(s.backup, Valid(m))
    requires forall a | a in before + after :: Outside(a)
    ensures Along(GoodActs(base), s, before + (WritePlan(s, m, io).acts + after))
  {
    var t := Run(s, before);
    var w := WritePlan(s, m, io).acts;
    OutsideRun(base, s, before);
    WriteIsGood(base, t, m, io);
    OutsideRun(base, Run(t, w), after);
    AlongConcat(GoodActs(base), t, w, after);
    AlongConcat(GoodActs(base), s, before, w + after);
  }

  // ------------------------------------------------------------------- operation by operation --

  // A terminal receipt dated now does not expire before the upload would have.
  predicate ReceiptOutlives(base: Manifest, now: int) {
    base.expiresAtMs <= SaturatingAdd(now, TERMINAL_RECEIPT_TTL_MS)
  }

  // Only the operations that date a terminal receipt depend on the clock.
  ghost predicate ClockOk(base: Manifest, op: Op) {
    op.Ingest? || op.Abort? ==> ReceiptOutlives(base, TerminalReading(op))
  }

  lemma CurrentIsNewest(base: Manifest, s: Store)
    requires Good(base, s) && Current(s).Some?
    ensures Proper(base, Current(s).value)
    ensures Older(s.primary, Valid(Current(s).value)) && Older(s.backup, Valid(Current(s).value))
  {
  }

  lemma AppendActsAreGood(base: Manifest, s: Store, m: Manifest, req: AppendRequest, later: int, io: AppendIo)
    requires Good(base, s) && Current(s) == Some(m) && m.status.Open? && m.bytesReceived + |req.bytes| <= m.sizeBytes
    ensures Along(GoodActs(base), s, AppendActs(s, m, req, later, io).acts)
  {
    CurrentIsNewest(base, s);
    hide Run, WritePlan, BytePlan, Outside, Good, Current;
    var written := Min(io.written, |req.bytes|);
    var part := [OpenFile(PART)] + BytePlan(PART, req.bytes[..written]);
    PartIsOutside(req.bytes[..written], m.bytesReceived);
    if written < |req.bytes| || !io.flush {
      OutsideRun(base, s, part);
    } else {
      var m' := m.(bytesReceived := m.bytesReceived + |req.bytes|);
      var w := WritePlan(s, m', io.write);
      SandwichIsGood(base, s, part, m', io.write, if w.reply || !io.rollback then [] else [SetLen(PART, m.bytesReceived)]);
      assert w.acts + [] == w.acts;
    }
  }

  lemma AppendIsGood(base: Manifest, s: Store, req: AppendRequest, now: int, later: int, io: AppendIo)
    requires Good(base, s)
    ensures Along(GoodActs(base), s, AppendPlan(s, base.uploadId, req, now, later, io).acts)
  {
    hide AppendActs;
    if AppendPlan(s, base.uploadId, req, now, later, io).acts != [] {
      AppendActsAreGood(base, s, Current(s).value, req, later, io);
    }
  }

  lemma CommitIsGood(
    base: Manifest, s: Store, hash: Hash, requested: Result<Option<string>, Error>, now: int, later: int, io: CommitIo)
    requires Good(base, s)
    ensures Along(GoodActs(base), s, CommitPlan(s, base.uploadId, hash, requested, now, later, io).acts)
  {
    var p := CommitPlan(s, base.uploadId, hash, requested, now, later, io);
    if p.acts != [] {
      CurrentIsNewest(base, s);
      var m := Current(s).value;
      var final := m.sanitizedFilename;
      var cleared := if final in s.files then [RemoveFile(final)] else [];
      var moved := cleared + [RenameFile(PART, final)];
      OutsideRun(base, s, cleared);
      var m' := m.(actualSha256 := Some(hash(s.files[PART])), status := Committed);
      if final != PART {
        SandwichIsGood(base, s, moved, m', io.write, []);
        SandwichIsGood(base, s, moved, m', io.write, if io.rollback then [RenameFile(final, PART)] else []);
        assert moved + (WritePlan(s, m', io.write).acts + []) == moved + WritePlan(s, m', io.write).acts;
      }
    }
  }

  lemma LibraryActsOutside(req: IngestRequest, lib: LibraryAnswers)
    ensures forall a | a in LibraryPlan(req, lib).acts :: a.Library?
    ensures LibraryPlan(req, lib).reply.Ok? ==>
              var r := LibraryPlan(req, lib).reply.value;
              WellFormedReceipt(r) && r.retainedSourceFile == req.retainSourceFile && !r.deletedStagedFile
  {
  }

  lemma ReplayIsGood(base: Manifest, s: Store, m: Manifest, io: IngestIo)
    requires Good(base, s) && Current(s) == Some(m) && m.status.Ingested?
    ensures Along(GoodActs(base), s, ReplayPlan(s, m, io).acts)
  {
    CurrentIsNewest(base, s);
    var r := m.ingestResult.value;
    if !r.retainedSourceFile && !r.deletedStagedFile {
      var m' := m.(ingestResult := Some(r.(deletedStagedFile := io.removeFinal)));
      SandwichIsGood(base, s, CleanupActs(m, r, io), m', io.first, []);
      assert WritePlan(s, m', io.first).acts + [] == WritePlan(s, m', io.first).acts;
    }
  }

  lemma PublishedIsProper(base: Manifest, s: Store, m: Manifest, r: Receipt, t: IngestClock)
    requires PreparedBase(base) && Good(base, s) && Proper(base, m) && m.status.Committed?
    requires Older(s.primary, Valid(m)) && Older(s.backup, Valid(m))
    requires WellFormedReceipt(r) && ReceiptOutlives(base, t.terminal)
    ensures var m1 := Published(m, r, t);
            Proper(base, m1) && Older(s.primary, Valid(m1)) && Older(s.backup, Valid(m1))
  {
  }

  lemma RecordIsGood(base: Manifest, s1: Store, m1: Manifest, io: IngestIo)
    requires Good(base, s1) && s1.primary == Valid(m1) && m1.status.Ingested?
    ensures m1.ingestResult.Some?
    ensures Along(GoodActs(base), s1,
                  CleanupActs(m1, m1.ingestResult.value, io)
                  + WritePlan(s1, Recorded(m1, io.removeFinal), io.second).acts)
  {
    var m2 := Recorded(m1, io.removeFinal);
    var w2 := WritePlan(s1, m2, io.second).acts;
    SandwichIsGood(base, s1, CleanupActs(m1, m1.ingestResult.value, io), m2, io.second, []);
    assert w2 + [] == w2;
  }

  lemma FinalizeIsGood(base: Manifest, s: Store, m: Manifest, r: Receipt, t: IngestClock, io: IngestIo)
    requires PreparedBase(base) && Good(base, s) && Proper(base, m) && m.status.Committed?
    requires Older(s.primary, Valid(m)) && Older(s.backup, Valid(m))
    requires WellFormedReceipt(r) && ReceiptOutlives(base, t.terminal)
    ensures Along(GoodActs(base), s, FinalizePlan(s, m, r, t, io).acts)
  {
    var m1 := Published(m, r, t);
    var w1 := WritePlan(s, m1, io.first);
    PublishedIsProper(base, s, m, r, t);
    WriteIsGood(base, s, m1, io.first);
    if w1.reply {
      var s1 := Written(s, m1, io.first);
      WriteWalk(GoodActs(base), s, m1, io.first);
      FirstWriteIsGood(base, s, m1, io.first);
      RecordIsGood(base, s1, m1, io);
      AlongConcat(GoodActs(base), s, w1.acts,
                  CleanupActs(m1, m1.ingestResult.value, io)
                  + WritePlan(s1, Recorded(m1, io.removeFinal), io.second).acts);
    }
  }

  lemma FirstWriteIsGood(base: Manifest, s: Store, m: Manifest, io: WriteIo)
    requires Good(base, s) && Proper(base, m) && Older(s.primary, Valid(m)) && Older(s.backup, Valid(m))
    ensures Good(base, Written(s, m, io))
  {
  }

  lemma IngestIsGood(
    base: Manifest, s: Store, req: IngestRequest, lib: LibraryAnswers, t: IngestClock, io: IngestIo)
    requires PreparedBase(base) && Good(base, s) && ReceiptOutlives(base, t.terminal)
    ensures Along(GoodActs(base), s, IngestPlan(s, base.uploadId, req, lib, t, io).acts)
  {
    var p := IngestPlan(s, base.uploadId, req, lib, t, io);
    if p.acts != [] {
      CurrentIsNewest(base, s);
      var m := Current(s).value;
      if m.status.Ingested? {
        ReplayIsGood(base, s, m, io);
      } else {
        var l := LibraryPlan(req, lib);
        LibraryActsOutside(req, lib);
        OutsideRun(base, s, l.acts);
        if l.reply.Ok? {
          var s0 := Run(s, l.acts);
          FinalizeIsGood(base, s0, m, l.reply.value, t, io);
          FinalizeOnSameRegister(s, s0, m, l.reply.value, t, io);
          AlongConcat(GoodActs(base), s, l.acts, FinalizePlan(s, m, l.reply.value, t, io).acts);
        }
      }
    }
  }

  lemma AbortIsGood(base: Manifest, s: Store, now: int, io: AbortIo)
    requires PreparedBase(base) && Good(base, s) && ReceiptOutlives(base, now)
    ensures Along(GoodActs(base), s, AbortPlan(s, base.uploadId, now, io).acts)
  {
    var p := AbortPlan(s, base.uploadId, now, io);
    if p.acts != [] {
      CurrentIsNewest(base, s);
      var m := Current(s).value;
      var removed := [RemoveFile(PART)] + [RemoveFile(m.sanitizedFilename)];
      OutsideRun(base, s, [RemoveFile(PART)]);
      OutsideRun(base, s, removed);
      var m' := AbortedManifest(m, now);
      SandwichIsGood(base, s, removed, m', io.write, []);
      assert WritePlan(s, m', io.write).acts + [] == WritePlan(s, m', io.write).acts;
    }
  }

  lemma RemovalWalk(allowed: (Store, Act) -> bool, s: Store, m: Manifest)
    ensures var emptied := s.(files := s.files - {PART} - {m.sanitizedFilename});
            && (allowed(s, RemoveFile(PART))
                && allowed(s.(files := s.files - {PART}), RemoveFile(m.sanitizedFilename))
                && allowed(emptied, RemoveTmp)
                && allowed(emptied.(tmp := Absent), RemovePrimary)
                && allowed(emptied.(tmp := Absent, primary := Absent), RemoveBackup)
                ==> Along(allowed, s, RemovalActs(m)))
            && Run(s, RemovalActs(m)) == emptied.(tmp := Absent, primary := Absent, backup := Absent)
  {
    var s1 := s.(files := s.files - {PART});
    var s2 := s1.(files := s1.files - {m.sanitizedFilename});
    AlongCons(allowed, s, RemoveFile(PART), RemovalActs(m)[1..]);
    AlongCons(allowed, s1, RemoveFile(m.sanitizedFilename), RemovalActs(m)[2..]);
    AlongCons(allowed, s2, RemoveTmp, RemovalActs(m)[3..]);
    AlongCons(allowed, s2.(tmp := Absent), RemovePrimary, [RemoveBackup]);
  }

  lemma SweepIsGood(base: Manifest, s: Store, now: int, removals: nat)
    requires Good(base, s)
    ensures Along(GoodActs(base), s, SweepPlan(s, base.uploadId, now, removals).acts)
  {
    if SweepPlan(s, base.uploadId, now, removals).acts != [] {
      RemovalWalk(GoodActs(base), s, Current(s).value);
      AlongCut(GoodActs(base), s, RemovalActs(Current(s).value), removals);
    }
  }

  lemma OperationIsGood(base: Manifest, hash: Hash, s: Store, op: Op)
    requires PreparedBase(base) && Good(base, s) && ClockOk(base, op)
    ensures Along(GoodActs(base), s, PlanOf(s, base.uploadId, hash, op).acts)
  {
    match op
    case Append(req, now, later, io) => AppendIsGood(base, s, req, now, later, io);
    case Commit(requested, now, later, io) => CommitIsGood(base, s, hash, requested, now, later, io);
    case Ingest(req, lib, clock, io) => IngestIsGood(base, s, req, lib, clock, io);
    case Abort(now, io) => AbortIsGood(base, s, now, io);
    case Sweep(now, removals) => SweepIsGood(base, s, now, removals);
    case Status(_) =>
  }
}
