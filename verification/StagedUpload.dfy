/**
 The operations on one upload as the program performs them: statement by statement, under the
 upload's lock, on its files. `journal` lists every call that changed something, so that each method's
 contract fixes not only where it ends but every store that a crash inside it can leave.
 */
module StagedUpload {
  import opened Outcomes
  import opened UploadStore
  import opened ManifestRegister
  import opened UploadPlans
  import opened UploadInvariant
  import opened UploadRuns
  import opened LibraryReceipts
  import opened UploadAnswers

  class Upload {
    const uploadId: string
    const hash: Hash
    var tmp: Slot
    var primary: Slot
    var backup: Slot
    var files: map<string, Bytes>
    var log: seq<LibraryWrite>
    ghost const origin: Store
    ghost var journal: seq<Act>

    function Now(): Store
      reads this
    {
      Store(tmp, primary, backup, files, log)
    }

    ghost predicate Valid()
      reads this
    {
      Now() == Run(origin, journal)
    }

    constructor (uploadId: string, hash: Hash, s: Store)
      ensures Valid() && Now() == s && this.uploadId == uploadId && this.hash == hash && journal == []
    {
      this.uploadId, this.hash := uploadId, hash;
      tmp, primary, backup, files, log := s.tmp, s.primary, s.backup, s.files, s.log;
      origin, journal := s, [];
    }

    // One file-system or library call that takes effect.
    method Do(a: Act)
      requires Valid()
      modifies this
      ensures Valid() && Now() == Apply(old(Now()), a) && journal == old(journal) + [a]
    {
      match a {
        case RemoveTmp => tmp := Absent;
        case CreateTmp => tmp := Garbage;
        case FillTmp(m) => tmp := Slot.Valid(m);
        case RemoveBackup => backup := Absent;
        case RemovePrimary => primary := Absent;
        case Rotate => backup, primary := primary, Absent;
        case Publish => primary, tmp := tmp, Absent;
        case Restore => primary, backup := backup, Absent;
        case OpenFile(name) =>
          if name !in files { files := files[name := []]; }
        case AppendByte(name, b) =>
          files := files[name := (if name in files then files[name] else []) + [b]];
        case SetLen(name, len) =>
          if name in files { files := files[name := Resize(files[name], len)]; }
        case RemoveFile(name) => files := files - {name};
        case RenameFile(source, target) =>
          if source in files { files := (files - {source})[target := files[source]]; }
        case Library(w) => log := log + [w];
      }
      RunSnoc(origin, journal, a);
      journal := journal + [a];
    }

    // What a method's calls amount to, from the store that it found.
    lemma Amounts(before: Store, earlier: seq<Act>, acts: seq<Act>)
      requires Valid() && before == Run(origin, earlier) && journal == earlier + acts
      ensures Now() == Run(before, acts)
    {
      RunConcat(origin, earlier, acts);
    }

    // load_manifest_for_upload
    method LoadManifest() returns (r: Result<Manifest, Error>)
      ensures r == Load(Now(), uploadId)
    {
      var candidates := [tmp, primary, backup];
      var found := false;
      var i := 0;
      while i < |candidates|
        invariant 0 <= i <= |candidates|
        invariant forall j | 0 <= j < i :: !candidates[j].Valid?
        invariant found <==> exists j :: 0 <= j < i && !candidates[j].Absent?
      {
        match candidates[i] {
          case Absent =>
          case Garbage => found := true;
          case Valid(m) =>
            assert (i > 0 ==> !candidates[0].Valid?) && (i > 1 ==> !candidates[1].Valid?);
            if m.uploadId != uploadId {
              return Err(Storage);
            }
            return Ok(m);
        }
        i := i + 1;
      }
      assert !candidates[0].Valid? && !candidates[1].Valid? && !candidates[2].Valid?;
      assert found <==> !candidates[0].Absent? || !candidates[1].Absent? || !candidates[2].Absent?;
      return Err(if found then Storage else NotFound);
    }

    // write_manifest
    method WriteManifest(m: Manifest, io: WriteIo) returns (ok: bool)
      requires Valid()
      modifies this
      ensures Valid()
      ensures var p := WritePlan(old(Now()), m, io);
              ok == p.reply && journal == old(journal) + p.acts && Now() == Run(old(Now()), p.acts)
    {
      hide Run, AfterFilling;
      ghost var before, start := Now(), journal;
      Amounts(before, start, []);
      if !io.prepare {
        return false;
      }
      Do(RemoveTmp);
      Amounts(before, start, [RemoveTmp]);
      if !io.create {
        return false;
      }
      Do(CreateTmp);
      Amounts(before, start, [RemoveTmp] + [CreateTmp]);
      if !io.fill {
        return false;
      }
      Do(FillTmp(m));
      SamePrimarySameRest(before, Now(), io);
      ok := ReplacePrimary(io);
      assert journal == start + WritePlan(before, m, io).acts;
      Amounts(before, start, WritePlan(before, m, io).acts);
    }

    lemma SamePrimarySameRest(s: Store, t: Store, io: WriteIo)
      requires s.primary == t.primary
      ensures AfterFilling(s, io) == AfterFilling(t, io)
    {
    }

    // The rest of write_manifest, once the temporary file is complete.
    method ReplacePrimary(io: WriteIo) returns (ok: bool)
      requires Valid()
      modifies this
      ensures Valid() && journal == old(journal) + AfterFilling(old(Now()), io)
      ensures ok == if old(primary).Absent? then io.publish else io.removeBackup && io.rotate && io.publish
    {
      hide Run, Apply, AfterRotation;
      var hadExisting := !primary.Absent?;
      if hadExisting {
        if !io.removeBackup {
          return false;
        }
        Do(RemoveBackup);
        if !io.rotate {
          DiscardTmp(io);
          return false;
        }
        Do(Rotate);
      }
      ok := PublishTmp(hadExisting, io);
    }

    method DiscardTmp(io: WriteIo)
      requires Valid()
      modifies this
      ensures Valid() && journal == old(journal) + Clean(io)
    {
      if io.cleanTmp { Do(RemoveTmp); }
    }

    method PublishTmp(hadExisting: bool, io: WriteIo) returns (ok: bool)
      requires Valid()
      modifies this
      ensures Valid() && ok == io.publish
      ensures journal == old(journal) +
                         if hadExisting then AfterRotation(io) else if io.publish then [Publish] else Clean(io)
    {
      hide Run, Apply, Clean;
      if !io.publish {
        if hadExisting && io.restore { Do(Restore); }
        DiscardTmp(io);
        return false;
      }
      Do(Publish);
      if hadExisting && io.dropBackup { Do(RemoveBackup); }
      return true;
    }

    method WriteAll(name: string, bytes: Bytes)
      requires Valid()
      modifies this
      ensures Valid() && journal == old(journal) + BytePlan(name, bytes)
      ensures Now() == Run(old(Now()), BytePlan(name, bytes))
    {
      ghost var before, start := Now(), journal;
      var i := 0;
      while i < |bytes|
        invariant 0 <= i <= |bytes| && Valid()
        invariant journal + BytePlan(name, bytes[i..]) == start + BytePlan(name, bytes)
      {
        Do(AppendByte(name, bytes[i]));
        assert bytes[i..][1..] == bytes[i + 1..];
        i := i + 1;
      }
      Amounts(before, start, BytePlan(name, bytes));
    }

    // append_upload_chunk, under the lock
    method AppendChunk(req: AppendRequest, now: int, later: int, io: AppendIo) returns (r: AppendReply)
      requires Valid()
      modifies this
      ensures Valid()
      ensures var p := AppendPlan(old(Now()), uploadId, req, now, later, io);
              r == p.reply && journal == old(journal) + p.acts && Now() == Run(old(Now()), p.acts)
    {
      hide Run, WritePlan, Apply, Written;
      ghost var before, start := Now(), journal;
      Amounts(before, start, []);
      if req.bytes == [] || |req.bytes| > RECOMMENDED_CHUNK_BYTES {
        return Err(InvalidInput);
      }
      var loaded := LoadManifest();
      if loaded.Err? {
        return Err(loaded.error);
      }
      var manifest := loaded.value;
      var refusal := EnsureOpen(manifest, now);
      if refusal.Some? {
        return Err(refusal.value);
      }
      if req.uploadLength.Some? && req.uploadLength.value != manifest.sizeBytes {
        return Err(InvalidInput);
      }
      if req.offset != manifest.bytesReceived {
        return Err(Conflict);
      }
      var previousOffset := manifest.bytesReceived;
      var next := manifest.bytesReceived + |req.bytes|;
      if next > U64_MAX || next > manifest.sizeBytes || next > MAX_UPLOAD_BYTES {
        return Err(InvalidInput);
      }
      if !io.stat {
        return Err(Storage);
      }
      if |Content(Now(), PART)| != manifest.bytesReceived {
        return Err(Conflict);
      }
      if !io.open {
        return Err(Storage);
      }
      Do(OpenFile(PART));
      var written := Min(io.written, |req.bytes|);
      WriteAll(PART, req.bytes[..written]);
      ghost var part := [OpenFile(PART)] + BytePlan(PART, req.bytes[..written]);
      assert journal == start + part;
      if written < |req.bytes| || !io.flush {
        Amounts(before, start, part);
        return Err(Storage);
      }
      manifest := manifest.(bytesReceived := next);
      Amounts(before, start, part);
      BytesOutside(PART, req.bytes[..written]);
      OutsideLeavesRegister(before, part);
      SameRegisterSameWrite(before, Now(), manifest, io.write);
      var ok := WriteManifest(manifest, io.write);
      if !ok {
        if io.rollback { Do(SetLen(PART, previousOffset)); }
        assert journal == start + AppendPlan(before, uploadId, req, now, later, io).acts;
        Amounts(before, start, AppendPlan(before, uploadId, req, now, later, io).acts);
        return Err(Storage);
      }
      assert journal == start + AppendPlan(before, uploadId, req, now, later, io).acts;
      Amounts(before, start, AppendPlan(before, uploadId, req, now, later, io).acts);
      return Ok(StatusOf(manifest, later));
    }

    // upload_status, when the lock is free
    method Status(now: int) returns (r: Result<StatusResponse, Error>)
      ensures PlanOf(Now(), uploadId, hash, Op.Status(now)) == Plan([], StatusDone(r))
    {
      var loaded := LoadManifest();
      match loaded {
        case Err(e) => r := Err(e);
        case Ok(m) => r := Ok(StatusOf(m, now));
      }
    }

    // commit_upload, under the lock
    method CommitUpload(requested: Result<Option<string>, Error>, now: int, later: int, io: CommitIo)
      returns (r: CommitReply)
      requires Valid()
      modifies this
      ensures Valid()
      ensures var p := CommitPlan(old(Now()), uploadId, hash, requested, now, later, io);
              r == p.reply && journal == old(journal) + p.acts && Now() == Run(old(Now()), p.acts)
      ensures forall m | Finds(old(Now()), uploadId, m) && m.status.Open? && requested.Ok? ::
                Governing(m, requested.value).Some?
                && Governing(m, requested.value).value != hash(Content(old(Now()), PART)) ==>
                  r.Err? && Now() == old(Now())
    {
      hide Run;
      ghost var before, start := Now(), journal;
      Amounts(before, start, []);
      var loaded := LoadManifest();
      if loaded.Err? {
        return Err(loaded.error);
      }
      var manifest := loaded.value;
      if IsExpiredAt(manifest, now) {
        return Err(InvalidInput);
      }
      match manifest.status {
        case Committed | Ingested => return CommitResponseOf(manifest);
        case Aborted | Busy | Expired => return Err(Conflict);
        case Open =>
      }
      var refusal := EnsureOpen(manifest, later);
      if refusal.Some? {
        return Err(refusal.value);
      }
      if manifest.bytesReceived != manifest.sizeBytes {
        return Err(Conflict);
      }
      if !io.stat || PART !in files {
        return Err(Storage);
      }
      if |files[PART]| != manifest.sizeBytes {
        return Err(Conflict);
      }
      if !io.hash {
        return Err(Storage);
      }
      var actual := hash(files[PART]);
      if requested.Err? {
        return Err(requested.error);
      }
      var expected := if requested.value.Some? then requested.value else manifest.expectedSha256;
      if expected.Some? && expected.value != actual {
        return Err(InvalidInput);
      }
      if !io.mkdir {
        return Err(Storage);
      }
      r := MoveAndPublish(manifest, actual, io);
      Amounts(before, start, CommitActs(before, manifest, actual, io).acts);
    }

    // The part of commit_upload that renames the part file and publishes the committed manifest.
    method MoveAndPublish(manifest: Manifest, actual: string, io: CommitIo) returns (r: CommitReply)
      requires Valid() && PART in files
      modifies this
      ensures Valid()
      ensures var p := CommitActs(old(Now()), manifest, actual, io);
              r == p.reply && journal == old(journal) + p.acts
    {
      hide Run, WritePlan, Written;
      ghost var before, start := Now(), journal;
      var final := manifest.sanitizedFilename;
      ghost var cleared := if final in files then [RemoveFile(final)] else [];
      if final in files {
        if !io.removeFinal {
          return Err(Storage);
        }
        Do(RemoveFile(final));
      }
      assert journal == start + cleared;
      if PART !in files || !io.rename {
        return Err(Storage);
      }
      Do(RenameFile(PART, final));
      ghost var moved := cleared + [RenameFile(PART, final)];
      assert journal == start + moved;
      var committed := manifest.(actualSha256 := Some(actual), status := Committed);
      Amounts(before, start, moved);
      OutsideLeavesRegister(before, moved);
      SameRegisterSameWrite(before, Now(), committed, io.write);
      var ok := WriteManifest(committed, io.write);
      if !ok {
        if io.rollback { Do(RenameFile(final, PART)); }
        assert journal == start + CommitActs(before, manifest, actual, io).acts;
        return Err(Storage);
      }
      assert journal == start + CommitActs(before, manifest, actual, io).acts;
      return CommitResponseOf(committed);
    }

    // abort_upload, under the lock
    method AbortUpload(now: int, io: AbortIo) returns (r: AbortReply)
      requires Valid()
      modifies this
      ensures Valid()
      ensures var p := AbortPlan(old(Now()), uploadId, now, io);
              r == p.reply && journal == old(journal) + p.acts && Now() == Run(old(Now()), p.acts)
    {
      hide Run, WritePlan, Apply, Written;
      ghost var before, start := Now(), journal;
      Amounts(before, start, []);
      var loaded := LoadManifest();
      if loaded.Err? {
        return Err(loaded.error);
      }
      var manifest := loaded.value;
      if manifest.status.Ingested? {
        return Err(Conflict);
      }
      if manifest.status.Aborted? {
        return Ok(AbortResponse(false, true, false, false));
      }
      var removedPartialFile := PART in files;
      var removedStagedFile := manifest.sanitizedFilename in files;
      if !io.removePart {
        return Err(Storage);
      }
      Do(RemoveFile(PART));
      if !io.removeFinal {
        Amounts(before, start, [RemoveFile(PART)]);
        return Err(Storage);
      }
      Do(RemoveFile(manifest.sanitizedFilename));
      ghost var removed := [RemoveFile(PART)] + [RemoveFile(manifest.sanitizedFilename)];
      assert journal == start + removed;
      Amounts(before, start, removed);
      if !io.removeDir {
        return Err(Storage);
      }
      manifest := AbortedManifest(manifest, now);
      OutsideLeavesRegister(before, removed);
      SameRegisterSameWrite(before, Now(), manifest, io.write);
      var ok := WriteManifest(manifest, io.write);
      assert journal == start + AbortPlan(before, uploadId, now, io).acts;
      Amounts(before, start, AbortPlan(before, uploadId, now, io).acts);
      if !ok {
        return Err(Storage);
      }
      return Ok(AbortResponse(removedPartialFile || removedStagedFile, false, removedPartialFile, removedStagedFile));
    }

    // One upload's share of sweep_expired_uploads, under the lock; true when it was swept
    method SweepUpload(now: int, removals: nat) returns (r: SweepReply)
      requires Valid()
      modifies this
      ensures Valid()
      ensures var p := SweepPlan(old(Now()), uploadId, now, removals);
              r == p.reply && journal == old(journal) + p.acts && Now() == Run(old(Now()), p.acts)
    {
      hide Run;
      ghost var before, start := Now(), journal;
      Amounts(before, start, []);
      var loaded := LoadManifest();
      if loaded.Err? || !IsExpiredAt(loaded.value, now) {
        return Ok(false);
      }
      var acts := RemovalActs(loaded.value);
      var i := 0;
      while i < |acts| && i < removals
        invariant 0 <= i <= |acts| && i <= removals && Valid() && journal == start + acts[..i]
      {
        Do(acts[i]);
        i := i + 1;
      }
      assert acts[..i] == Cut(acts, removals);
      Amounts(before, start, acts[..i]);
      return if removals >= 6 then Ok(true) else Err(Storage);
    }

    // cleanup_staged_upload_after_ingest
    method Cleanup(manifest: Manifest, receipt: Receipt, io: IngestIo) returns (deleted: bool)
      requires Valid()
      modifies this
      ensures Valid() && journal == old(journal) + CleanupActs(manifest, receipt, io)
      ensures deleted == (!receipt.retainedSourceFile && io.removeFinal)
      ensures tmp == old(tmp) && primary == old(primary) && backup == old(backup)
    {
      if receipt.retainedSourceFile || !io.removeFinal {
        return false;
      }
      Do(RemoveFile(manifest.sanitizedFilename));
      return true;
    }

    // finalize_ingest_response
    method FinalizeIngest(manifest: Manifest, response: Receipt, t: IngestClock, io: IngestIo) returns (r: IngestReply)
      requires Valid()
      modifies this
      ensures Valid()
      ensures var p := FinalizePlan(old(Now()), manifest, response, t, io);
              r == p.reply && journal == old(journal) + p.acts
    {
      hide Run, WritePlan, Apply, Written;
      ghost var before, start := Now(), journal;
      var receipt := response.(idempotentReplay := false, completedAtMs := t.completed);
      var published := manifest.(status := Ingested,
                                 expiresAtMs := SaturatingAdd(t.terminal, TERMINAL_RECEIPT_TTL_MS),
                                 ingestResult := Some(receipt));
      WriteWalk((x, a) => true, before, published, io.first);
      var ok := WriteManifest(published, io.first);
      if !ok {
        return Err(Storage);
      }
      var deleted := Cleanup(published, receipt, io);
      receipt := receipt.(deletedStagedFile := deleted);
      published := published.(ingestResult := Some(receipt));
      SameRegisterSameWrite(Written(before, Published(manifest, response, t), io.first), Now(), published, io.second);
      ok := WriteManifest(published, io.second);
      assert journal == start + FinalizePlan(before, manifest, response, t, io).acts;
      if !ok {
        return Err(Storage);
      }
      return Ok(receipt);
    }

    // The branch of ingest_staged_document that answers from a stored receipt
    method ReplayIngest(manifest: Manifest, io: IngestIo) returns (r: IngestReply)
      requires Valid()
      modifies this
      ensures Valid()
      ensures var p := ReplayPlan(old(Now()), manifest, io);
              r == p.reply && journal == old(journal) + p.acts
    {
      hide Run, WritePlan, Apply, Written;
      ghost var before, start := Now(), journal;
      if manifest.ingestResult.None? {
        return Err(Storage);
      }
      var receipt := manifest.ingestResult.value;
      if !receipt.retainedSourceFile && !receipt.deletedStagedFile {
        var deleted := Cleanup(manifest, receipt, io);
        receipt := receipt.(deletedStagedFile := deleted);
        SameRegisterSameWrite(before, Now(), manifest.(ingestResult := Some(receipt)), io.first);
        var ok := WriteManifest(manifest.(ingestResult := Some(receipt)), io.first);
        assert journal == start + ReplayPlan(before, manifest, io).acts;
        if !ok {
          return Err(Storage);
        }
      }
      return Ok(receipt.(idempotentReplay := true));
    }

    // The library calls of ingest_staged_document, up to its response
    method IngestIntoLibrary(req: IngestRequest, lib: LibraryAnswers) returns (r: IngestReply)
      requires Valid()
      modifies this
      ensures Valid()
      ensures r == LibraryPlan(req, lib).reply && journal == old(journal) + LibraryPlan(req, lib).acts
      ensures r.Ok? ==> journal == old(journal) + Calls(WritesOf(r.value))
    {
      hide Run, WritesOf, Calls;
      if LibraryPlan(req, lib).reply.Ok? {
        ReceiptCalls(req, lib);
      }
      ghost var start := journal;
      var storeOriginalFile := match req.storeOriginalFile case Some(b) => b case None => lib.storeByDefault;
      var asset := None;
      if storeOriginalFile {
        if lib.asset.None? {
          return Err(LibraryError);
        }
        Do(Library(StoredAsset(lib.asset.value)));
        asset := lib.asset;
        if !lib.documentAllowed {
          r := RecordExtraction(lib, AssetOnly(asset, "stored_unparsed", "unsupported extension", lib, req));
          assert journal == start + LibraryPlan(req, lib).acts;
          return;
        }
      }
      match lib.outcome {
        case Unparsed(message, hasNoText) =>
          if !storeOriginalFile {
            return Err(LibraryError);
          }
          var status := if hasNoText then "stored_unparsed" else "failed";
          r := RecordExtraction(lib, AssetOnly(asset, status, message, lib, req));
        case Parsed(report) =>
          Do(Library(IngestedDocument(report)));
          if !storeOriginalFile {
            assert journal == start + LibraryPlan(req, lib).acts;
            return Ok(Document(report, None, None, None, req));
          }
          if lib.link.None? {
            assert journal == start + LibraryPlan(req, lib).acts;
            return Err(LibraryError);
          }
          Do(Library(LinkedAsset(lib.link.value)));
          r := RecordExtraction(lib, Document(report, asset, lib.link, lib.extraction, req));
      }
      assert journal == start + LibraryPlan(req, lib).acts;
    }

    method RecordExtraction(lib: LibraryAnswers, response: Receipt) returns (r: IngestReply)
      requires Valid()
      modifies this
      ensures Valid()
      ensures r == ExtractionPlan([], lib, response).reply
      ensures journal == old(journal) + ExtractionPlan([], lib, response).acts
    {
      match lib.extraction {
        case None => r := Err(LibraryError);
        case Some(x) =>
          Do(Library(RecordedExtraction(x)));
          r := Ok(response);
      }
    }

    // ingest_staged_document, under the lock
    method IngestStagedDocument(req: IngestRequest, lib: LibraryAnswers, t: IngestClock, io: IngestIo)
      returns (r: IngestReply)
      requires Valid()
      modifies this
      ensures Valid()
      ensures var p := IngestPlan(old(Now()), uploadId, req, lib, t, io);
              r == p.reply && journal == old(journal) + p.acts && Now() == Run(old(Now()), p.acts)
    {
      hide Run, WritePlan, Apply, Written, FinalizePlan, ReplayPlan, LibraryPlan;
      ghost var before, start := Now(), journal;
      Amounts(before, start, []);
      var loaded := LoadManifest();
      if loaded.Err? {
        return Err(loaded.error);
      }
      var manifest := loaded.value;
      if manifest.status.Ingested? {
        r := ReplayIngest(manifest, io);
        Amounts(before, start, ReplayPlan(before, manifest, io).acts);
        return;
      }
      if StatusOf(manifest, t.now).status.Expired? {
        return Err(InvalidInput);
      }
      if !manifest.status.Committed? {
        return Err(Conflict);
      }
      if manifest.sanitizedFilename !in files {
        return Err(NotFound);
      }
      if !lib.chunkConfigValid {
        return Err(InvalidInput);
      }
      var response := IngestIntoLibrary(req, lib);
      ghost var l := LibraryPlan(req, lib).acts;
      Amounts(before, start, l);
      if response.Err? {
        return Err(response.error);
      }
      LibraryOnly(req, lib);
      OutsideLeavesRegister(before, l);
      r := FinalizeIngest(manifest, response.value, t, io);
      FinalizeOnSameRegister(before, Run(before, l), manifest, response.value, t, io);
      assert journal == start + IngestPlan(before, uploadId, req, lib, t, io).acts;
      Amounts(before, start, IngestPlan(before, uploadId, req, lib, t, io).acts);
    }
  }

  // prepare_upload, once the request has been checked: the manifest of a new upload is published
  method PrepareUpload(uploadId: string, hash: Hash, req: PrepareRequest, now: int, io: WriteIo)
    returns (r: Result<Upload, Error>)
    ensures var base := PreparedManifest(uploadId, req, now);
            if base.Err? then r == Err(base.error)
            else if WritePlan(EMPTY, base.value, io).reply then r.Ok?
            else r == Err(Storage)
    ensures r.Ok? ==>
      var base := PreparedManifest(uploadId, req, now).value;
      && fresh(r.value) && r.value.Valid() && r.value.uploadId == uploadId && r.value.hash == hash
      && r.value.Now() == Run(EMPTY, WritePlan(EMPTY, base, io).acts)
      && Current(r.value.Now()) == Some(base) && PreparedBase(base) && Prepared(base, r.value.Now())
  {
    var base := PreparedManifest(uploadId, req, now);
    if base.Err? {
      return Err(base.error);
    }
    var upload := new Upload(uploadId, hash, EMPTY);
    var ok := upload.WriteManifest(base.value, io);
    if !ok {
      return Err(Storage);
    }
    SuccessfulWriteIsVisible(EMPTY, base.value, io);
    PrepareIff(uploadId, req, now);
    WholeWriteIsPrepared(base.value, io);
    return Ok(upload);
  }
}
