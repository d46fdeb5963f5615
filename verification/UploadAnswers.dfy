/**
 What a caller gets: which requests each operation accepts when every call succeeds, what it answers, and
 what the upload is afterwards; said of the stored manifest and the bytes on disk alone.
 */
module UploadAnswers {
  import opened Outcomes
  import opened UploadStore
  import opened ManifestRegister
  import opened UploadPlans
  import opened UploadInvariant
  import opened UploadRuns
  import opened UploadHistory
  import opened UploadIntegrity
  import opened UploadIngest
  import opened UploadLifecycle
  import opened LibraryReceipts

  // The upload `id` as recovery finds it
  ghost predicate Finds(s: Store, id: string, m: Manifest) {
    Current(s) == Some(m) && m.uploadId == id
  }

  // ------------------------------------------------------------------------------- prepare --

  // Which requests are prepared, and what for: an hour from now, for exactly the file that was announced.
  lemma PrepareIff(id: string, req: PrepareRequest, now: int)
    ensures var p := PreparedManifest(id, req, now);
            p.Ok? <==>
            && !req.blankFilename && 0 < req.sizeBytes <= 104_857_600 && req.extensionAllowed && req.sha256.Ok?
    ensures var p := PreparedManifest(id, req, now);
            p.Ok? ==>
              var m := p.value;
              && PreparedBase(m) && m.uploadId == id
              && m.filename == req.filename && m.sanitizedFilename == req.sanitizedFilename
              && m.mimeType == req.mimeType && m.sizeBytes == req.sizeBytes && m.expectedSha256 == req.sha256.value
              && m.status.Open? && m.bytesReceived == 0 && m.actualSha256.None? && m.ingestResult.None?
              && m.createdAtMs == now
              && m.expiresAtMs == (if now + 3_600_000 <= 0x7fff_ffff_ffff_ffff then now + 3_600_000 else 0x7fff_ffff_ffff_ffff)
    ensures var p := PreparedManifest(id, req, now);
            p.Err? ==> p.error == InvalidInput || (req.sha256.Err? && p.error == req.sha256.error)
  {
  }

  // -------------------------------------------------------------------------------- append --

  predicate AppendWell(io: AppendIo, req: AppendRequest) {
    io.stat && io.open && |req.bytes| <= io.written && io.flush && io.write == FAULTLESS
  }

  // An append is accepted if and only if its chunk continues an open, unexpired upload exactly where the
  // bytes on disk end, and does not exceed what was announced; a refused one changes nothing, and is
  // a conflict when only its offset is wrong.
  lemma AppendIff(s: Store, id: string, m: Manifest, req: AppendRequest, now: int, later: int, io: AppendIo)
    requires Finds(s, id, m) && AppendWell(io, req)
    ensures var p := AppendPlan(s, id, req, now, later, io);
            p.reply.Ok? <==>
            && 0 < |req.bytes| <= 8_388_608
            && m.status.Open? && now <= m.expiresAtMs
            && (req.uploadLength.Some? ==> req.uploadLength.value == m.sizeBytes)
            && req.offset == m.bytesReceived == |Content(s, PART)|
            && m.bytesReceived + |req.bytes| <= m.sizeBytes && m.bytesReceived + |req.bytes| <= 104_857_600
    ensures var p := AppendPlan(s, id, req, now, later, io);
            p.reply.Err? ==> p.acts == [] && (p.reply.error.InvalidInput? || p.reply.error.Conflict?)
    ensures var right := AppendPlan(s, id, req.(offset := m.bytesReceived), now, later, io).reply;
            right.Ok? && req.offset != m.bytesReceived ==>
              AppendPlan(s, id, req, now, later, io).reply == Err(Conflict)
  {
    hide WritePlan, BytePlan;
    FaultlessWrites(s, m.(bytesReceived := m.bytesReceived + |req.bytes|));
  }

  lemma FaultlessWrites(s: Store, m: Manifest)
    ensures WritePlan(s, m, FAULTLESS).reply
  {
  }

  // An accepted chunk is at the end of the part file, nothing else on disk has changed, and both the
  // manifest and the answer count it.
  lemma AppendDoes(s: Store, id: string, m: Manifest, req: AppendRequest, now: int, later: int, io: AppendIo)
    requires Finds(s, id, m) && AppendWell(io, req) && AppendPlan(s, id, req, now, later, io).reply.Ok?
    ensures var p := AppendPlan(s, id, req, now, later, io);
            var s' := Run(s, p.acts);
            var next := m.bytesReceived + |req.bytes|;
            && s'.files == s.files[PART := Content(s, PART) + req.bytes] && s'.log == s.log
            && Current(s') == Some(m.(bytesReceived := next))
            && p.reply.value.uploadId == id && p.reply.value.sizeBytes == m.sizeBytes
            && p.reply.value.bytesReceived == p.reply.value.nextOffset == next
            && p.reply.value.expiresAtMs == m.expiresAtMs
            && p.reply.value.status == (if later > m.expiresAtMs then Expired else Open)
            && p.reply.value.terminal == (later > m.expiresAtMs)
            && !p.reply.value.operationInProgress && p.reply.value.commitResult.None?
  {
    hide Run, WritePlan, AppendActs, BytePlan;
    AppendIff(s, id, m, req, now, later, io);
    var m' := m.(bytesReceived := m.bytesReceived + |req.bytes|);
    AppendReplies(s, m, req, later, io);
    AppendRun(m, _ => "", s, m, req, later, io.(rollback := true));
    AppendNeedsNoRollback(s, m, req, later, io);
    SameRegisterSameWrite(s, Grown(s, req.bytes), m', FAULTLESS);
    SuccessfulWriteIsVisible(Grown(s, req.bytes), m', FAULTLESS);
  }

  lemma AppendReplies(s: Store, m: Manifest, req: AppendRequest, later: int, io: AppendIo)
    requires AppendWell(io, req)
    ensures WritePlan(s, m.(bytesReceived := m.bytesReceived + |req.bytes|), FAULTLESS).reply
    ensures AppendActs(s, m, req, later, io).reply == Ok(StatusOf(m.(bytesReceived := m.bytesReceived + |req.bytes|), later))
  {
    hide BytePlan;
  }

  lemma AppendNeedsNoRollback(s: Store, m: Manifest, req: AppendRequest, later: int, io: AppendIo)
    requires AppendWell(io, req)
    ensures AppendActs(s, m, req, later, io) == AppendActs(s, m, req, later, io.(rollback := true))
  {
    hide BytePlan, WritePlan;
    FaultlessWrites(s, m.(bytesReceived := m.bytesReceived + |req.bytes|));
  }

  // -------------------------------------------------------------------------------- commit --

  // The digest that a commit checks: the request's, or else the one that prepare was given.
  function Governing(m: Manifest, requested: Option<string>): Option<string> {
    match requested
    case Some(_) => requested
    case None => m.expectedSha256
  }

  predicate CommitWell(io: CommitIo) {
    io.stat && io.hash && io.mkdir && io.removeFinal && io.rename && io.write == FAULTLESS
  }

  // An open, unexpired upload is committed if and only if all its bytes are there and the digest that
  // governs, if any, is theirs.
  lemma CommitIff(
    s: Store, id: string, hash: Hash, m: Manifest,
    requested: Result<Option<string>, Error>, now: int, later: int, io: CommitIo)
    requires Finds(s, id, m) && m.status.Open? && now <= m.expiresAtMs && later <= m.expiresAtMs
    requires CommitWell(io) && m.sanitizedFilename != PART
    ensures var p := CommitPlan(s, id, hash, requested, now, later, io);
            p.reply.Ok? <==>
            && PART in s.files && m.bytesReceived == |s.files[PART]| == m.sizeBytes
            && requested.Ok?
            && (Governing(m, requested.value).Some? ==> Governing(m, requested.value).value == hash(s.files[PART]))
    ensures var p := CommitPlan(s, id, hash, requested, now, later, io);
            p.reply.Err? ==> p.acts == []
  {
    hide WritePlan;
    if PART in s.files {
      FaultlessWrites(s, m.(actualSha256 := Some(hash(s.files[PART])), status := Committed));
    }
  }

  // Whatever calls fail, and whatever the name: bytes whose digest is not the governing one are never
  // committed, and their commit changes nothing.
  lemma WrongDigestIsRefused(
    s: Store, id: string, hash: Hash, m: Manifest, requested: Option<string>, now: int, later: int, io: CommitIo)
    requires Finds(s, id, m) && m.status.Open?
    requires Governing(m, requested).Some? && Governing(m, requested).value != hash(Content(s, PART))
    ensures var p := CommitPlan(s, id, hash, Ok(requested), now, later, io);
            p.reply.Err? && p.acts == []
    ensures now <= m.expiresAtMs && later <= m.expiresAtMs && CommitWell(io) && PART in s.files
            && m.bytesReceived == |s.files[PART]| == m.sizeBytes ==>
              CommitPlan(s, id, hash, Ok(requested), now, later, io).reply == Err(InvalidInput)
  {
    hide WritePlan;
  }

  // A commit that answers Ok moves the part file under its final name and records its digest.
  lemma CommitDoes(
    s: Store, id: string, hash: Hash, m: Manifest,
    requested: Result<Option<string>, Error>, now: int, later: int, io: CommitIo)
    requires Finds(s, id, m) && m.status.Open? && CommitPlan(s, id, hash, requested, now, later, io).reply.Ok?
    ensures PART in s.files
    ensures var p := CommitPlan(s, id, hash, requested, now, later, io);
            var s' := Run(s, p.acts);
            var digest := hash(s.files[PART]);
            && s'.files == (s.files - {PART})[m.sanitizedFilename := s.files[PART]] && s'.log == s.log
            && Current(s') == Some(m.(status := Committed, actualSha256 := Some(digest)))
            && p.reply.value == CommitResponse(id, m.filename, m.mimeType, m.sizeBytes, digest)
  {
    hide Run, WritePlan;
    var final := m.sanitizedFilename;
    var m' := m.(status := Committed, actualSha256 := Some(hash(s.files[PART])));
    var moved := (if final in s.files then [RemoveFile(final)] else []) + [RenameFile(PART, final)];
    MovesPart(s, final);
    var t := Run(s, moved);
    RunConcat(s, moved, WritePlan(s, m', io.write).acts);
    SameRegisterSameWrite(s, t, m', io.write);
    SuccessfulWriteIsVisible(t, m', io.write);
  }

  lemma MovesPart(s: Store, final: string)
    requires PART in s.files && final != PART
    ensures Run(s, (if final in s.files then [RemoveFile(final)] else []) + [RenameFile(PART, final)])
            == s.(files := (s.files - {PART})[final := s.files[PART]])
  {
    if final in s.files {
      var t := s.(files := s.files - {final});
      AlongCons((x, a) => true, s, RemoveFile(final), [RenameFile(PART, final)]);
      RenameWalk(t, final);
      assert (t.files - {PART})[final := t.files[PART]] == (s.files - {PART})[final := s.files[PART]];
    } else {
      assert [] + [RenameFile(PART, final)] == [RenameFile(PART, final)];
      RenameWalk(s, final);
    }
  }

  // A repeated commit answers as the first did, from the manifest alone, until the receipt expires.
  lemma CommitRepeats(
    s: Store, id: string, hash: Hash, m: Manifest,
    requested: Result<Option<string>, Error>, now: int, later: int, io: CommitIo)
    requires Finds(s, id, m) && (m.status.Committed? || m.status.Ingested?) && m.actualSha256.Some?
    ensures CommitPlan(s, id, hash, requested, now, later, io) ==
            Plan([], if now > m.expiresAtMs then Err(InvalidInput)
                     else Ok(CommitResponse(id, m.filename, m.mimeType, m.sizeBytes, m.actualSha256.value)))
  {
  }

  // -------------------------------------------------------------------------------- ingest --

  // A committed upload is ingested if and only if it has not expired, its file is there, and the library
  // does all that is asked of it.
  lemma IngestIff(
    s: Store, id: string, m: Manifest, req: IngestRequest, lib: LibraryAnswers, t: IngestClock, io: IngestIo)
    requires Finds(s, id, m) && m.status.Committed? && io.first == FAULTLESS && io.second == FAULTLESS
    ensures var p := IngestPlan(s, id, req, lib, t, io);
            p.reply.Ok? <==>
            && t.now <= m.expiresAtMs && m.sanitizedFilename in s.files && lib.chunkConfigValid
            && if KeepsOriginal(req, lib) then
                 && lib.asset.Some? && lib.extraction.Some?
                 && (lib.documentAllowed && lib.outcome.Parsed? ==> lib.link.Some?)
               else lib.outcome.Parsed?
  {
    hide WritePlan, LibraryPlan, Written;
    ReceiptIff(req, lib);
    if LibraryPlan(req, lib).reply.Ok? {
      FaultlessFinalize(s, m, LibraryPlan(req, lib).reply.value, t, io);
    }
  }

  lemma FaultlessFinalize(s: Store, m: Manifest, r: Receipt, t: IngestClock, io: IngestIo)
    requires io.first == FAULTLESS && io.second == FAULTLESS
    ensures FinalizePlan(s, m, r, t, io).reply.Ok?
  {
    hide WritePlan, Written;
    var m1 := Published(m, r, t);
    FaultlessWrites(s, m1);
    FaultlessWrites(Written(s, m1, FAULTLESS), Recorded(m1, io.removeFinal));
  }

  // What a first ingest that answers Ok leaves: the library holds exactly what the receipt says, the receipt
  // is stored for a day, and the staged file is gone unless it was to be retained or could not be removed.
  lemma IngestDoes(
    s: Store, id: string, m: Manifest, req: IngestRequest, lib: LibraryAnswers, t: IngestClock, io: IngestIo)
    requires Finds(s, id, m) && m.status.Committed? && IngestPlan(s, id, req, lib, t, io).reply.Ok?
    ensures var p := IngestPlan(s, id, req, lib, t, io);
            var s' := Run(s, p.acts);
            var r := p.reply.value;
            && s'.log == s.log + WritesOf(r)
            && Current(s') == Some(m.(status := Ingested, ingestResult := Some(r),
                                      expiresAtMs := SaturatingAdd(t.terminal, 86_400_000)))
            && s'.files == (if req.retainSourceFile || !io.removeFinal then s.files else s.files - {m.sanitizedFilename})
            && r.retainedSourceFile == req.retainSourceFile
            && r.deletedStagedFile == (!req.retainSourceFile && io.removeFinal)
            && r.completedAtMs == t.completed && !r.idempotentReplay
  {
    hide FinalizePlan, LibraryPlan, Run, WritesOf;
    var l := LibraryPlan(req, lib);
    var r := l.reply.value;
    ReceiptTellsTheAnswers(req, lib);
    IngestWritesItsReceipt(s, id, req, lib, t, io);
    ReceiptTellsTheWrites(req, lib);
    CallsRun(s, WritesOf(r));
    var s0 := Run(s, l.acts);
    FinalizeOnSameRegister(s, s0, m, r, t, io);
    FinalizeDoes(s0, m, r, t, io);
    RunConcat(s, l.acts, FinalizePlan(s0, m, r, t, io).acts);
  }

  lemma FinalizeDoes(s: Store, m: Manifest, r: Receipt, t: IngestClock, io: IngestIo)
    requires FinalizePlan(s, m, r, t, io).reply.Ok?
    ensures var p := FinalizePlan(s, m, r, t, io);
            var s' := Run(s, p.acts);
            && p.reply.value == r.(idempotentReplay := false, completedAtMs := t.completed,
                                   deletedStagedFile := !r.retainedSourceFile && io.removeFinal)
            && Current(s') == Some(m.(status := Ingested, ingestResult := Some(p.reply.value),
                                      expiresAtMs := SaturatingAdd(t.terminal, 86_400_000)))
            && s'.files == if r.retainedSourceFile || !io.removeFinal then s.files else s.files - {m.sanitizedFilename}
  {
    hide Run, WritePlan, Written;
    var m1 := Published(m, r, t);
    var m2 := Recorded(m1, io.removeFinal);
    var w1 := WritePlan(s, m1, io.first).acts;
    var s1 := Written(s, m1, io.first);
    var cleanup := CleanupActs(m1, m1.ingestResult.value, io);
    var w2 := WritePlan(s1, m2, io.second).acts;
    WriteWalk((x, a) => true, s, m1, io.first);
    SuccessfulWriteIsVisible(s, m1, io.first);
    CleanupRun(s1, m1, cleanup);
    var s2 := Run(s1, cleanup);
    SameRegisterSameWrite(s1, s2, m2, io.second);
    SuccessfulWriteIsVisible(s2, m2, io.second);
    RunConcat(s1, cleanup, w2);
    RunConcat(s, w1, cleanup + w2);
  }

  lemma CleanupRun(s: Store, m: Manifest, cleanup: seq<Act>)
    requires cleanup == [] || cleanup == [RemoveFile(m.sanitizedFilename)]
    ensures Run(s, cleanup) == if cleanup == [] then s else s.(files := s.files - {m.sanitizedFilename})
  {
    if cleanup != [] {
      assert cleanup == cleanup + [];
      AlongCons((x, a) => true, s, RemoveFile(m.sanitizedFilename), []);
    }
  }

  // A repeated ingest answers with the stored receipt; one that finds the staged file still to be dealt with
  // removes it, and stores and answers whether that succeeded.
  lemma ReplayDoes(
    s: Store, id: string, m: Manifest, req: IngestRequest, lib: LibraryAnswers, t: IngestClock, io: IngestIo)
    requires Finds(s, id, m) && m.status.Ingested? && m.ingestResult.Some?
    requires IngestPlan(s, id, req, lib, t, io).reply.Ok?
    ensures var p := IngestPlan(s, id, req, lib, t, io);
            var s' := Run(s, p.acts);
            var stored := m.ingestResult.value;
            var settled := stored.retainedSourceFile || stored.deletedStagedFile;
            var now := if settled then stored else stored.(deletedStagedFile := io.removeFinal);
            && p.reply.value == now.(idempotentReplay := true) && s'.log == s.log
            && Current(s') == Some(m.(ingestResult := Some(now)))
            && s'.files == if settled || !io.removeFinal then s.files else s.files - {m.sanitizedFilename}
  {
    hide Run, WritePlan;
    var stored := m.ingestResult.value;
    if stored.retainedSourceFile || stored.deletedStagedFile {
      NothingRun(s);
    } else {
      var m' := m.(ingestResult := Some(stored.(deletedStagedFile := io.removeFinal)));
      var cleanup := CleanupActs(m, stored, io);
      CleanupRun(s, m, cleanup);
      var t := Run(s, cleanup);
      SameRegisterSameWrite(s, t, m', io.first);
      SuccessfulWriteIsVisible(t, m', io.first);
      RunConcat(s, cleanup, WritePlan(s, m', io.first).acts);
    }
  }

  // --------------------------------------------------------------------------------- abort --

  predicate AbortWell(io: AbortIo) {
    io.removePart && io.removeFinal && io.removeDir && io.write == FAULTLESS
  }

  // An abort is refused exactly when a receipt stands; it says which files it found, and leaves none.
  lemma AbortIff(s: Store, id: string, m: Manifest, now: int, io: AbortIo)
    requires Finds(s, id, m) && AbortWell(io)
    ensures var p := AbortPlan(s, id, now, io);
            && (p.reply.Err? <==> m.status.Ingested?) && (p.reply.Err? ==> p == Plan([], Err(Conflict)))
            && (m.status.Aborted? ==> p == Plan([], Ok(AbortResponse(false, true, false, false))))
    ensures var p := AbortPlan(s, id, now, io);
            var s' := Run(s, p.acts);
            !m.status.Ingested? && !m.status.Aborted? ==>
              && p.reply.Ok? && !p.reply.value.alreadyAborted
              && (p.reply.value.removedPartialFile <==> PART in s.files)
              && (p.reply.value.removedStagedFile <==> m.sanitizedFilename in s.files)
              && (p.reply.value.cleanupPerformed <==> s'.files != s.files)
              && s'.files == s.files - {PART, m.sanitizedFilename} && s'.log == s.log
              && Current(s') == Some(m.(status := Aborted, ingestResult := None,
                                        expiresAtMs := SaturatingAdd(now, 86_400_000)))
  {
    hide Run, WritePlan;
    if !m.status.Ingested? && !m.status.Aborted? {
      var m' := AbortedManifest(m, now);
      var removed := [RemoveFile(PART)] + [RemoveFile(m.sanitizedFilename)];
      FaultlessWrites(s, m');
      BothRemoved(s, m.sanitizedFilename);
      var t := Run(s, removed);
      RunConcat(s, removed, WritePlan(s, m', FAULTLESS).acts);
      SameRegisterSameWrite(s, t, m', FAULTLESS);
      SuccessfulWriteIsVisible(t, m', FAULTLESS);
      var gone := {PART, m.sanitizedFilename};
      assert s.files - gone == s.files <==> PART !in s.files && m.sanitizedFilename !in s.files;
    }
  }

  lemma BothRemoved(s: Store, final: string)
    ensures Run(s, [RemoveFile(PART)] + [RemoveFile(final)]) == s.(files := s.files - {PART, final})
  {
    var t := s.(files := s.files - {PART});
    assert [RemoveFile(final)] == [RemoveFile(final)] + [];
    AlongCons((x, a) => true, s, RemoveFile(PART), [RemoveFile(final)] + []);
    AlongCons((x, a) => true, t, RemoveFile(final), []);
    assert t.files - {final} == s.files - {PART, final};
  }

  // What an upload that is not in the right status answers: past its expiry the request is invalid, and
  // otherwise it is a conflict; and what is missing on disk is not found.
  lemma RefusalsTell(
    s: Store, id: string, hash: Hash, m: Manifest, now: int, later: int,
    chunk: AppendRequest, appendIo: AppendIo, requested: Result<Option<string>, Error>, commitIo: CommitIo,
    req: IngestRequest, lib: LibraryAnswers, t: IngestClock, ingestIo: IngestIo)
    requires Finds(s, id, m) && (m.status.Open? || m.status.Committed? || m.status.Ingested? || m.status.Aborted?)
    requires t.now == now
    ensures now > m.expiresAtMs ==>
              && AppendPlan(s, id, chunk, now, later, appendIo) == Plan([], Err(InvalidInput))
              && CommitPlan(s, id, hash, requested, now, later, commitIo) == Plan([], Err(InvalidInput))
              && (!m.status.Ingested? ==> IngestPlan(s, id, req, lib, t, ingestIo) == Plan([], Err(InvalidInput)))
    ensures now <= m.expiresAtMs ==>
              && (0 < |chunk.bytes| <= 8_388_608 && !m.status.Open? ==>
                   AppendPlan(s, id, chunk, now, later, appendIo) == Plan([], Err(Conflict)))
              && (m.status.Aborted? ==> CommitPlan(s, id, hash, requested, now, later, commitIo) == Plan([], Err(Conflict)))
              && (m.status.Open? || m.status.Aborted? ==>
                   IngestPlan(s, id, req, lib, t, ingestIo) == Plan([], Err(Conflict)))
              && (m.status.Committed? && m.sanitizedFilename !in s.files ==>
                   IngestPlan(s, id, req, lib, t, ingestIo) == Plan([], Err(NotFound)))
  {
    hide WritePlan, AppendActs, CommitRefusal, CommitActs, LibraryPlan, FinalizePlan;
  }

  // --------------------------------------------------------------------------- sweep, status --

  // A sweep answers that it took an upload exactly when it found it past its expiry and all six removals
  // succeeded.
  lemma SweepIff(s: Store, id: string, m: Manifest, now: int, removals: nat)
    requires Finds(s, id, m) && (m.status.Open? || m.status.Committed? || m.status.Ingested? || m.status.Aborted?)
    ensures var p := SweepPlan(s, id, now, removals);
            && (p.reply == Ok(true) <==> now > m.expiresAtMs && removals >= 6)
            && (p.reply == Ok(false) <==> now <= m.expiresAtMs)
            && (p.acts == [] <==> now <= m.expiresAtMs || removals == 0)
  {
    FiveRemovals(m);
    hide RemovalActs;
  }

  // A status report foretells what the operations will answer at the same moment: where the next chunk must
  // begin, what a repeated commit gives, what a repeated ingest gives, and whether anything is left to do.
  lemma StatusForetells(
    s: Store, id: string, hash: Hash, m: Manifest, now: int, later: int,
    chunk: AppendRequest, appendIo: AppendIo, requested: Result<Option<string>, Error>, commitIo: CommitIo,
    req: IngestRequest, lib: LibraryAnswers, t: IngestClock, ingestIo: IngestIo)
    requires Finds(s, id, m) && (m.status.Open? || m.status.Committed? || m.status.Ingested? || m.status.Aborted?)
    requires t.now == now
    ensures var r := StatusOf(m, now);
            && r.uploadId == id && r.sizeBytes == m.sizeBytes && r.bytesReceived == m.bytesReceived
            && r.expiresAtMs == m.expiresAtMs && !r.operationInProgress && r.activeOperation.None?
            && (r.status == Expired <==> now > m.expiresAtMs) && (r.status != Expired ==> r.status == m.status)
    ensures var r := StatusOf(m, now);
            AppendPlan(s, id, chunk, now, later, appendIo).reply.Ok? ==> r.status == Open && chunk.offset == r.nextOffset
    ensures var r := StatusOf(m, now);
            var p := CommitPlan(s, id, hash, requested, now, later, commitIo);
            r.commitResult.Some? <==> (m.status.Committed? || m.status.Ingested?) && p.reply.Ok?
    ensures var r := StatusOf(m, now);
            r.commitResult.Some? ==>
              CommitPlan(s, id, hash, requested, now, later, commitIo) == Plan([], Ok(r.commitResult.value))
    ensures var r := StatusOf(m, now);
            var p := IngestPlan(s, id, req, lib, t, ingestIo);
            m.status.Ingested? && p.reply.Ok? ==>
              r.ingestResult.Some? && SameReceipt(p.reply.value, r.ingestResult.value)
    ensures var r := StatusOf(m, now);
            r.terminal ==>
              && AppendPlan(s, id, chunk, now, later, appendIo).reply.Err?
              && (CommitPlan(s, id, hash, requested, now, later, commitIo).acts == [])
              && (IngestPlan(s, id, req, lib, t, ingestIo).acts != [] ==> m.status.Ingested?)
    ensures StatusOf(m, now).terminal <==> now > m.expiresAtMs || m.status.Ingested? || m.status.Aborted?
  {
    hide WritePlan, AppendActs, CommitRefusal, CommitActs, LibraryPlan, FinalizePlan;
  }
}
