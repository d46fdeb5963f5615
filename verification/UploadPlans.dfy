/**
 What every operation does while it holds the lock of one upload, as a function of the store that it
 finds: the file-system calls it makes, in order, and its reply. `now` and later clock readings, the
 outcomes of file-system calls (an `Io` record: true when the call succeeds) and the answers of the
 Memory Library are parameters.
 */
module UploadPlans {
  import opened Outcomes
  import opened UploadStore
  import opened ManifestRegister

  type Hash = Bytes -> string

  // write_all: one byte after another, so that a crash or an error may leave any prefix.
  function BytePlan(name: string, bytes: Bytes): seq<Act> {
    if bytes == [] then [] else [AppendByte(name, bytes[0])] + BytePlan(name, bytes[1..])
  }

  lemma BytesOutside(name: string, bytes: Bytes)
    ensures forall a | a in BytePlan(name, bytes) :: a.AppendByte? && a.name == name
  {
  }

  lemma PartIsOutside(bytes: Bytes, len: nat)
    ensures var part := [OpenFile(PART)] + BytePlan(PART, bytes);
            && (forall a | a in part :: Outside(a)) && (forall a | a in part + [] :: Outside(a))
            && (forall a | a in part + [SetLen(PART, len)] :: Outside(a))
  {
    BytesOutside(PART, bytes);
  }

  function Min(a: nat, b: nat): nat {
    if a < b then a else b
  }

  // ------------------------------------------------------------------------------- prepare --

  datatype PrepareRequest = PrepareRequest(
    filename: string,
    sanitizedFilename: string,
    mimeType: string,
    sizeBytes: nat,
    sha256: Result<Option<string>, Error>,
    blankFilename: bool,
    extensionAllowed: bool)

  function PreparedManifest(id: string, req: PrepareRequest, now: int): Result<Manifest, Error> {
    if req.blankFilename || req.sizeBytes == 0 || req.sizeBytes > MAX_UPLOAD_BYTES || !req.extensionAllowed then
      Err(InvalidInput)
    else
      match req.sha256
      case Err(e) => Err(e)
      case Ok(expected) =>
        Ok(Manifest(id, req.filename, req.sanitizedFilename, req.mimeType, req.sizeBytes, expected, None, 0,
                    Open, now, SaturatingAdd(now, UPLOAD_TTL_MS), None))
  }

  // -------------------------------------------------------------------------------- append --

  datatype AppendRequest = AppendRequest(offset: nat, uploadLength: Option<nat>, bytes: Bytes)

  // `written` bounds how many bytes reach the file before an error.
  datatype AppendIo = AppendIo(stat: bool, open: bool, written: nat, flush: bool, write: WriteIo, rollback: bool)

  type AppendReply = Result<StatusResponse, Error>

  function AppendPlan(
    s: Store, id: string, req: AppendRequest, now: int, later: int, io: AppendIo): Plan<AppendReply>
  {
    if req.bytes == [] || |req.bytes| > RECOMMENDED_CHUNK_BYTES then Plan([], Err(InvalidInput))
    else
      match Load(s, id)
      case Err(e) => Plan([], Err(e))
      case Ok(m) =>
        match AppendRefusal(s, m, req, now, io)
        case Some(e) => Plan([], Err(e))
        case None => AppendActs(s, m, req, later, io)
  }

  function AppendRefusal(s: Store, m: Manifest, req: AppendRequest, now: int, io: AppendIo): Option<Error> {
    var next := m.bytesReceived + |req.bytes|;
    if EnsureOpen(m, now).Some? then EnsureOpen(m, now)
    else if req.uploadLength.Some? && req.uploadLength.value != m.sizeBytes then Some(InvalidInput)
    else if req.offset != m.bytesReceived then Some(Conflict)
    else if next > U64_MAX || next > m.sizeBytes || next > MAX_UPLOAD_BYTES then Some(InvalidInput)
    else if !io.stat then Some(Storage)
    else if |Content(s, PART)| != m.bytesReceived then Some(Conflict)
    else if !io.open then Some(Storage)
    else None
  }

  function AppendActs(s: Store, m: Manifest, req: AppendRequest, later: int, io: AppendIo): Plan<AppendReply> {
    var written := Min(io.written, |req.bytes|);
    var part := [OpenFile(PART)] + BytePlan(PART, req.bytes[..written]);
    if written < |req.bytes| || !io.flush then Plan(part, Err(Storage))
    else
      var m' := m.(bytesReceived := m.bytesReceived + |req.bytes|);
      var w := WritePlan(s, m', io.write);
      if w.reply then Plan(part + w.acts, Ok(StatusOf(m', later)))
      else
        Plan(part + (w.acts + (if io.rollback then [SetLen(PART, m.bytesReceived)] else [])), Err(Storage))
  }

  // -------------------------------------------------------------------------------- commit --

  datatype CommitIo = CommitIo(
    stat: bool, hash: bool, mkdir: bool, removeFinal: bool, rename: bool, write: WriteIo, rollback: bool)

  type CommitReply = Result<CommitResponse, Error>

  function CommitPlan(
    s: Store, id: string, hash: Hash, requested: Result<Option<string>, Error>, now: int, later: int, io: CommitIo)
    : Plan<CommitReply>
  {
    match Load(s, id)
    case Err(e) => Plan([], Err(e))
    case Ok(m) =>
      if IsExpiredAt(m, now) then Plan([], Err(InvalidInput))
      else if m.status.Committed? || m.status.Ingested? then Plan([], CommitResponseOf(m))
      else if !m.status.Open? then Plan([], Err(Conflict))
      else
        match CommitRefusal(s, m, hash, requested, later, io)
        case Some(e) => Plan([], Err(e))
        case None => CommitActs(s, m, hash(s.files[PART]), io)
  }

  function CommitRefusal(
    s: Store, m: Manifest, hash: Hash, requested: Result<Option<string>, Error>, later: int, io: CommitIo)
    : (r: Option<Error>)
    ensures r.None? ==> PART in s.files
  {
    if EnsureOpen(m, later).Some? then EnsureOpen(m, later)
    else if m.bytesReceived != m.sizeBytes then Some(Conflict)
    else if !io.stat || PART !in s.files then Some(Storage)
    else if |s.files[PART]| != m.sizeBytes then Some(Conflict)
    else if !io.hash then Some(Storage)
    else
      match requested
      case Err(e) => Some(e)
      case Ok(sha) =>
        var expected := if sha.Some? then sha else m.expectedSha256;
        if expected.Some? && expected.value != hash(s.files[PART]) then Some(InvalidInput)
        else if !io.mkdir then Some(Storage)
        else None
  }

  // The staged file takes the place of whatever carries its name. When that is the part file
  // itself, the part is deleted and there is nothing left to rename.
  function CommitActs(s: Store, m: Manifest, actual: string, io: CommitIo): Plan<CommitReply> {
    var final := m.sanitizedFilename;
    if final in s.files && !io.removeFinal then Plan([], Err(Storage))
    else
      var cleared := if final in s.files then [RemoveFile(final)] else [];
      if final == PART || !io.rename then Plan(cleared, Err(Storage))
      else
        var m' := m.(actualSha256 := Some(actual), status := Committed);
        var w := WritePlan(s, m', io.write);
        var moved := cleared + [RenameFile(PART, final)];
        if w.reply then Plan(moved + w.acts, CommitResponseOf(m'))
        else Plan(moved + (w.acts + (if io.rollback then [RenameFile(final, PART)] else [])), Err(Storage))
  }

  // -------------------------------------------------------------------------------- ingest --

  datatype IngestRequest = IngestRequest(retainSourceFile: bool, storeOriginalFile: Option<bool>)

  datatype IngestOutcome = Parsed(report: IngestReport) | Unparsed(message: string, hasNoText: bool)

  // The library's configuration and its answers to the calls of one ingest.
  datatype LibraryAnswers = LibraryAnswers(
    chunkConfigValid: bool,
    storeByDefault: bool,
    documentAllowed: bool,
    asset: Option<Asset>,
    outcome: IngestOutcome,
    link: Option<AssetLink>,
    extraction: Option<Extraction>)

  datatype IngestClock = IngestClock(now: int, completed: int, terminal: int)
  datatype IngestIo = IngestIo(first: WriteIo, removeFinal: bool, second: WriteIo)

  type IngestReply = Result<Receipt, Error>

  function IngestPlan(
    s: Store, id: string, req: IngestRequest, lib: LibraryAnswers, t: IngestClock, io: IngestIo): Plan<IngestReply>
  {
    match Load(s, id)
    case Err(e) => Plan([], Err(e))
    case Ok(m) =>
      if m.status.Ingested? then ReplayPlan(s, m, io)
      else if StatusOf(m, t.now).status.Expired? then Plan([], Err(InvalidInput))
      else if !m.status.Committed? then Plan([], Err(Conflict))
      else if m.sanitizedFilename !in s.files then Plan([], Err(NotFound))
      else if !lib.chunkConfigValid then Plan([], Err(InvalidInput))
      else
        var l := LibraryPlan(req, lib);
        match l.reply
        case Err(e) => Plan(l.acts, Err(e))
        case Ok(r) =>
          var f := FinalizePlan(s, m, r, t, io);
          Plan(l.acts + f.acts, f.reply)
  }

  // An upload that is already ingested answers with its stored receipt.
  function ReplayPlan(s: Store, m: Manifest, io: IngestIo): Plan<IngestReply> {
    match m.ingestResult
    case None => Plan([], Err(Storage))
    case Some(r) =>
      if r.retainedSourceFile || r.deletedStagedFile then Plan([], Ok(r.(idempotentReplay := true)))
      else
        var r' := r.(deletedStagedFile := io.removeFinal);
        var w := WritePlan(s, m.(ingestResult := Some(r')), io.first);
        Plan(CleanupActs(m, r, io) + w.acts,
             if w.reply then Ok(r'.(idempotentReplay := true)) else Err(Storage))
  }

  function CleanupActs(m: Manifest, r: Receipt, io: IngestIo): seq<Act> {
    if r.retainedSourceFile || !io.removeFinal then [] else [RemoveFile(m.sanitizedFilename)]
  }

  // The library calls of a first ingest, up to the receipt that is about to be published.
  function LibraryPlan(req: IngestRequest, lib: LibraryAnswers): Plan<IngestReply> {
    var store := if req.storeOriginalFile.Some? then req.storeOriginalFile.value else lib.storeByDefault;
    if store && lib.asset.None? then Plan([], Err(LibraryError))
    else
      var asset := if store then lib.asset else None;
      var stored := if store then [Library(StoredAsset(lib.asset.value))] else [];
      if store && !lib.documentAllowed then
        ExtractionPlan(stored, lib, AssetOnly(asset, "stored_unparsed", "unsupported extension", lib, req))
      else
        match lib.outcome
        case Unparsed(message, hasNoText) =>
          if store then
            ExtractionPlan(stored, lib,
              AssetOnly(asset, if hasNoText then "stored_unparsed" else "failed", message, lib, req))
          else Plan(stored, Err(LibraryError))
        case Parsed(report) =>
          var parsed := stored + [Library(IngestedDocument(report))];
          if !store then Plan(parsed, Ok(Document(report, None, None, None, req)))
          else if lib.link.None? then Plan(parsed, Err(LibraryError))
          else
            ExtractionPlan(parsed + [Library(LinkedAsset(lib.link.value))], lib,
                           Document(report, asset, lib.link, lib.extraction, req))
  }

  function ExtractionPlan(acts: seq<Act>, lib: LibraryAnswers, r: Receipt): Plan<IngestReply> {
    match lib.extraction
    case None => Plan(acts, Err(LibraryError))
    case Some(x) => Plan(acts + [Library(RecordedExtraction(x))], Ok(r))
  }

  function AssetOnly(
    asset: Option<Asset>, status: string, message: string, lib: LibraryAnswers, req: IngestRequest): Receipt
  {
    Receipt(None, 0, 0, false, true, asset, None, status, Some(message), lib.extraction, false,
            req.retainSourceFile, None, false, 0)
  }

  function Document(
    report: IngestReport, asset: Option<Asset>, link: Option<AssetLink>, extraction: Option<Extraction>,
    req: IngestRequest): Receipt
  {
    Receipt(Some(report.docId), report.chunks, report.bytes, report.deduped, asset.Some?, asset, link,
            "extracted", None, extraction, false, req.retainSourceFile, Some(report), false, 0)
  }

  function Published(m: Manifest, r: Receipt, t: IngestClock): Manifest {
    m.(status := Ingested, expiresAtMs := SaturatingAdd(t.terminal, TERMINAL_RECEIPT_TTL_MS),
       ingestResult := Some(r.(idempotentReplay := false, completedAtMs := t.completed)))
  }

  // The manifest whose receipt records what became of the staged file.
  function Recorded(m1: Manifest, removed: bool): Manifest
    requires m1.ingestResult.Some?
  {
    var r1 := m1.ingestResult.value;
    m1.(ingestResult := Some(r1.(deletedStagedFile := !r1.retainedSourceFile && removed)))
  }

  // Publish the receipt, delete the staged file, then record the deletion.
  function FinalizePlan(s: Store, m: Manifest, r: Receipt, t: IngestClock, io: IngestIo): Plan<IngestReply> {
    var m1 := Published(m, r, t);
    var w1 := WritePlan(s, m1, io.first);
    if !w1.reply then Plan(w1.acts, Err(Storage))
    else
      var m2 := Recorded(m1, io.removeFinal);
      var w2 := WritePlan(Written(s, m1, io.first), m2, io.second);
      Plan(w1.acts + (CleanupActs(m1, m1.ingestResult.value, io) + w2.acts),
           if w2.reply then Ok(m2.ingestResult.value) else Err(Storage))
  }

  lemma FinalizeOnSameRegister(s: Store, t: Store, m: Manifest, r: Receipt, clock: IngestClock, io: IngestIo)
    requires SameRegister(s, t)
    ensures FinalizePlan(s, m, r, clock, io) == FinalizePlan(t, m, r, clock, io)
  {
  }

  lemma LibraryOnly(req: IngestRequest, lib: LibraryAnswers)
    ensures forall a | a in LibraryPlan(req, lib).acts :: a.Library?
  {
  }

  // --------------------------------------------------------------------------------- abort --

  datatype AbortIo = AbortIo(removePart: bool, removeFinal: bool, removeDir: bool, write: WriteIo)

  datatype AbortResponse = AbortResponse(
    cleanupPerformed: bool, alreadyAborted: bool, removedPartialFile: bool, removedStagedFile: bool)

  type AbortReply = Result<AbortResponse, Error>

  function AbortedManifest(m: Manifest, now: int): Manifest {
    m.(status := Aborted, expiresAtMs := SaturatingAdd(now, TERMINAL_RECEIPT_TTL_MS), ingestResult := None)
  }

  function AbortPlan(s: Store, id: string, now: int, io: AbortIo): Plan<AbortReply> {
    match Load(s, id)
    case Err(e) => Plan([], Err(e))
    case Ok(m) =>
      if m.status.Ingested? then Plan([], Err(Conflict))
      else if m.status.Aborted? then Plan([], Ok(AbortResponse(false, true, false, false)))
      else
        var partial, staged := PART in s.files, m.sanitizedFilename in s.files;
        if !io.removePart then Plan([], Err(Storage))
        else if !io.removeFinal then Plan([RemoveFile(PART)], Err(Storage))
        else
          var removed := [RemoveFile(PART)] + [RemoveFile(m.sanitizedFilename)];
          if !io.removeDir then Plan(removed, Err(Storage))
          else
            var w := WritePlan(s, AbortedManifest(m, now), io.write);
            Plan(removed + w.acts,
                 if w.reply then Ok(AbortResponse(partial || staged, false, partial, staged)) else Err(Storage))
  }

  // --------------------------------------------------------------------------------- sweep --

  type SweepReply = Result<bool, Error>

  function RemovalActs(m: Manifest): seq<Act> {
    [RemoveFile(PART)] + ([RemoveFile(m.sanitizedFilename)] + ([RemoveTmp] + ([RemovePrimary] + [RemoveBackup])))
  }

  // The part of a sweep under the lock of one upload: the manifest is read again, and only an
  // expired one is deleted. `removals` bounds how many of the six removals (the directory is the
  // last) succeed. True when the upload was swept.
  function SweepPlan(s: Store, id: string, now: int, removals: nat): Plan<SweepReply> {
    match Load(s, id)
    case Err(_) => Plan([], Ok(false))
    case Ok(m) =>
      if !IsExpiredAt(m, now) then Plan([], Ok(false))
      else Plan(Cut(RemovalActs(m), removals), if removals >= 6 then Ok(true) else Err(Storage))
  }

  // -------------------------------------------------------------------------- any operation --

  datatype Op =
    | Append(append: AppendRequest, now: int, later: int, appendIo: AppendIo)
    | Commit(requested: Result<Option<string>, Error>, now: int, later: int, commitIo: CommitIo)
    | Ingest(ingest: IngestRequest, lib: LibraryAnswers, clock: IngestClock, ingestIo: IngestIo)
    | Abort(now: int, abortIo: AbortIo)
    | Sweep(now: int, removals: nat)
    | Status(now: int)

  datatype Reply =
    | AppendDone(append: AppendReply)
    | CommitDone(commit: CommitReply)
    | IngestDone(ingest: IngestReply)
    | AbortDone(abort: AbortReply)
    | SweepDone(sweep: SweepReply)
    | StatusDone(status: Result<StatusResponse, Error>)

  function PlanOf(s: Store, id: string, hash: Hash, op: Op): Plan<Reply> {
    match op
    case Append(req, now, later, io) =>
      var p := AppendPlan(s, id, req, now, later, io);
      Plan(p.acts, AppendDone(p.reply))
    case Commit(requested, now, later, io) =>
      var p := CommitPlan(s, id, hash, requested, now, later, io);
      Plan(p.acts, CommitDone(p.reply))
    case Ingest(req, lib, clock, io) =>
      var p := IngestPlan(s, id, req, lib, clock, io);
      Plan(p.acts, IngestDone(p.reply))
    case Abort(now, io) =>
      var p := AbortPlan(s, id, now, io);
      Plan(p.acts, AbortDone(p.reply))
    case Sweep(now, removals) =>
      var p := SweepPlan(s, id, now, removals);
      Plan(p.acts, SweepDone(p.reply))
    case Status(now) =>
      Plan([], StatusDone(match Load(s, id) case Ok(m) => Ok(StatusOf(m, now)) case Err(e) => Err(e)))
  }

  // The clock reading that an operation takes first, and the one that dates a terminal receipt.
  function FirstReading(op: Op): int {
    match op
    case Ingest(_, _, clock, _) => clock.now
    case _ => op.now
  }

  function TerminalReading(op: Op): int {
    match op
    case Ingest(_, _, clock, _) => clock.terminal
    case _ => op.now
  }
}
