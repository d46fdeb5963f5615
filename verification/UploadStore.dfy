/**
 The durable state of one resumable upload and the single file-system steps that change it.

 An upload owns a manifest register held in three files (`.json.tmp`, `.json`, `.json.bak`), a
 directory of staged bytes, and the record of what has been written to the Memory Library on its
 behalf. A `Store` is a snapshot of all of that. Everything an operation does to it is a sequence of
 `Act`s, each of which the operating system either performs or does not: a crash leaves the store
 after some prefix of the sequence.
 */
module UploadStore {
  import opened Outcomes

  const MAX_UPLOAD_BYTES: nat := 104_857_600
  const RECOMMENDED_CHUNK_BYTES: nat := 8_388_608
  const UPLOAD_TTL_MS: int := 3_600_000
  const TERMINAL_RECEIPT_TTL_MS: int := 86_400_000
  const I64_MAX: int := 0x7fff_ffff_ffff_ffff
  const U64_MAX: int := 0xffff_ffff_ffff_ffff

  // Every upload collects its bytes under this name, inside its own staging directory.
  const PART: string := "upload.part"

  // i64::saturating_add for a non-negative addend.
  function SaturatingAdd(a: int, b: nat): int {
    if a + b > I64_MAX then I64_MAX else a + b
  }

  datatype UploadStatus = Open | Busy | Committed | Ingested | Expired | Aborted

  datatype Error = InvalidInput | Conflict | NotFound | Storage | LibraryError

  datatype Asset = Asset(assetId: string)
  datatype AssetLink = AssetLink(docId: string, assetId: string)
  datatype Extraction = Extraction(assetId: string, status: string)
  datatype IngestReport = IngestReport(docId: string, chunks: nat, bytes: nat, deduped: bool)

  datatype Receipt = Receipt(
    documentId: Option<string>,
    chunksPersisted: nat,
    bytesIngested: nat,
    deduped: bool,
    storedOriginalFile: bool,
    asset: Option<Asset>,
    link: Option<AssetLink>,
    extractionStatus: string,
    extractionError: Option<string>,
    extraction: Option<Extraction>,
    deletedStagedFile: bool,
    retainedSourceFile: bool,
    report: Option<IngestReport>,
    idempotentReplay: bool,
    completedAtMs: int)

  datatype Manifest = Manifest(
    uploadId: string,
    filename: string,
    sanitizedFilename: string,
    mimeType: string,
    sizeBytes: nat,
    expectedSha256: Option<string>,
    actualSha256: Option<string>,
    bytesReceived: nat,
    status: UploadStatus,
    createdAtMs: int,
    expiresAtMs: int,
    ingestResult: Option<Receipt>)

  // What reading one manifest file yields: nothing, text that does not parse, or a manifest.
  datatype Slot = Absent | Garbage | Valid(m: Manifest)

  // A successful write to the Memory Library.
  datatype LibraryWrite =
    | StoredAsset(asset: Asset)
    | IngestedDocument(report: IngestReport)
    | LinkedAsset(link: AssetLink)
    | RecordedExtraction(extraction: Extraction)

  datatype Store = Store(
    tmp: Slot,
    primary: Slot,
    backup: Slot,
    files: map<string, Bytes>,
    log: seq<LibraryWrite>)

  const EMPTY: Store := Store(Absent, Absent, Absent, map[], [])

  datatype Act =
    | RemoveTmp
    | CreateTmp                             // the file exists but its JSON is not complete yet
    | FillTmp(m: Manifest)
    | RemoveBackup
    | RemovePrimary
    | Rotate                                // rename primary to backup
    | Publish                               // rename tmp to primary
    | Restore                               // rename backup to primary
    | OpenFile(name: string)                // open for append, creating if needed
    | AppendByte(name: string, b: byte)
    | SetLen(name: string, len: nat)
    | RemoveFile(name: string)
    | RenameFile(source: string, target: string)
    | Library(w: LibraryWrite)

  function Content(s: Store, name: string): Bytes {
    if name in s.files then s.files[name] else []
  }

  // File::set_len: cut, or extend with zero bytes.
  function Resize(b: Bytes, len: nat): (r: Bytes)
    ensures |r| == len
    ensures len <= |b| ==> r == b[..len]
  {
    if len <= |b| then b[..len] else b + seq(len - |b|, _ => 0 as byte)
  }

  function Apply(s: Store, a: Act): Store {
    match a
    case RemoveTmp => s.(tmp := Absent)
    case CreateTmp => s.(tmp := Garbage)
    case FillTmp(m) => s.(tmp := Valid(m))
    case RemoveBackup => s.(backup := Absent)
    case RemovePrimary => s.(primary := Absent)
    case Rotate => s.(backup := s.primary, primary := Absent)
    case Publish => s.(primary := s.tmp, tmp := Absent)
    case Restore => s.(primary := s.backup, backup := Absent)
    case OpenFile(name) => if name in s.files then s else s.(files := s.files[name := []])
    case AppendByte(name, b) => s.(files := s.files[name := Content(s, name) + [b]])
    case SetLen(name, len) =>
      if name in s.files then s.(files := s.files[name := Resize(s.files[name], len)]) else s
    case RemoveFile(name) => s.(files := s.files - {name})
    case RenameFile(source, target) =>
      if source in s.files then s.(files := (s.files - {source})[target := s.files[source]]) else s
    case Library(w) => s.(log := s.log + [w])
  }

  function Run(s: Store, acts: seq<Act>): Store
    decreases |acts|
  {
    if acts == [] then s else Run(Apply(s, acts[0]), acts[1..])
  }

  lemma {:induction false} RunConcat(s: Store, a: seq<Act>, b: seq<Act>)
    ensures Run(s, a + b) == Run(Run(s, a), b)
    decreases |a|
  {
    if a == [] {
      assert a + b == b;
    } else {
      assert (a + b)[1..] == a[1..] + b;
      RunConcat(Apply(s, a[0]), a[1..], b);
    }
  }

  lemma RunSnoc(s: Store, a: seq<Act>, x: Act)
    ensures Run(s, a + [x]) == Apply(Run(s, a), x)
  {
    RunConcat(s, a, [x]);
  }

  // The first k acts, or all of them when there are no more than k.
  function Cut(acts: seq<Act>, k: nat): seq<Act> {
    if k <= |acts| then acts[..k] else acts
  }

  // A crash while performing `acts` leaves the store after some prefix of them.
  ghost predicate CrashPoint(s: Store, acts: seq<Act>, s': Store) {
    exists k: nat :: k <= |acts| && s' == Run(s, Cut(acts, k))
  }

  // Every act is taken from a store that allows it.
  ghost predicate Along(allowed: (Store, Act) -> bool, s: Store, acts: seq<Act>)
    decreases |acts|
  {
    acts == [] || (allowed(s, acts[0]) && Along(allowed, Apply(s, acts[0]), acts[1..]))
  }

  lemma {:induction false} AlongConcat(allowed: (Store, Act) -> bool, s: Store, a: seq<Act>, b: seq<Act>)
    ensures Along(allowed, s, a + b) <==> Along(allowed, s, a) && Along(allowed, Run(s, a), b)
    decreases |a|
  {
    if a == [] {
      assert a + b == b;
    } else {
      assert (a + b)[1..] == a[1..] + b;
      AlongConcat(allowed, Apply(s, a[0]), a[1..], b);
    }
  }

  // One act and what follows it.
  lemma AlongCons(allowed: (Store, Act) -> bool, s: Store, a: Act, rest: seq<Act>)
    ensures Run(s, [a] + rest) == Run(Apply(s, a), rest)
    ensures Along(allowed, s, [a] + rest) <==> allowed(s, a) && Along(allowed, Apply(s, a), rest)
  {
    assert ([a] + rest)[1..] == rest;
  }

  lemma AlongCut(allowed: (Store, Act) -> bool, s: Store, acts: seq<Act>, k: nat)
    requires Along(allowed, s, acts)
    ensures Along(allowed, s, Cut(acts, k))
  {
    assert acts == Cut(acts, k) + acts[|Cut(acts, k)|..];
    AlongConcat(allowed, s, Cut(acts, k), acts[|Cut(acts, k)|..]);
  }

  // A property of stores that every allowed act keeps holds wherever a crash may strike.
  lemma {:induction false} Preserved(
    inv: Store -> bool, allowed: (Store, Act) -> bool, s: Store, acts: seq<Act>, k: nat)
    requires inv(s) && Along(allowed, s, acts)
    requires forall t, a | inv(t) && allowed(t, a) :: inv(Apply(t, a))
    ensures inv(Run(s, Cut(acts, k)))
    decreases |acts|
  {
    if acts == [] || k == 0 {
    } else {
      Preserved(inv, allowed, Apply(s, acts[0]), acts[1..], k - 1);
      assert Cut(acts, k) == [acts[0]] + Cut(acts[1..], k - 1);
      AlongCons(allowed, s, acts[0], Cut(acts[1..], k - 1));
    }
  }

  // Acts that leave the three manifest files alone.
  predicate Outside(a: Act) {
    a.OpenFile? || a.AppendByte? || a.SetLen? || a.RemoveFile? || a.RenameFile? || a.Library?
  }

  predicate SameRegister(s: Store, t: Store) {
    s.tmp == t.tmp && s.primary == t.primary && s.backup == t.backup
  }

  lemma {:induction false} OutsideLeavesRegister(s: Store, acts: seq<Act>)
    requires forall a | a in acts :: Outside(a)
    ensures SameRegister(s, Run(s, acts))
    decreases |acts|
  {
    if acts != [] {
      assert acts[0] in acts;
      OutsideLeavesRegister(Apply(s, acts[0]), acts[1..]);
    }
  }

  // ------------------------------------------------------------------ the manifest register --

  // The first of tmp, primary, backup that parses.
  function Candidate(tmp: Slot, primary: Slot, backup: Slot): Option<Manifest> {
    if tmp.Valid? then Some(tmp.m)
    else if primary.Valid? then Some(primary.m)
    else if backup.Valid? then Some(backup.m)
    else None
  }

  // The logical state of an upload, and its recovery after a crash.
  function Current(s: Store): Option<Manifest> {
    Candidate(s.tmp, s.primary, s.backup)
  }

  function Load(s: Store, uploadId: string): Result<Manifest, Error> {
    match Current(s)
    case Some(m) => if m.uploadId != uploadId then Err(Storage) else Ok(m)
    case None =>
      if s.tmp.Absent? && s.primary.Absent? && s.backup.Absent? then Err(NotFound) else Err(Storage)
  }

  // --------------------------------------------------------------------- reported status --

  datatype CommitResponse = CommitResponse(
    uploadId: string,
    filename: string,
    mimeType: string,
    sizeBytes: nat,
    sha256: string)

  datatype StatusResponse = StatusResponse(
    uploadId: string,
    status: UploadStatus,
    bytesReceived: nat,
    sizeBytes: nat,
    nextOffset: nat,
    expiresAtMs: int,
    operationInProgress: bool,
    activeOperation: Option<string>,
    commitResult: Option<CommitResponse>,
    ingestResult: Option<Receipt>,
    terminal: bool)

  predicate IsExpiredAt(m: Manifest, now: int) {
    (m.status.Open? || m.status.Committed? || m.status.Ingested? || m.status.Aborted?)
    && now > m.expiresAtMs
  }

  function CommitResponseOf(m: Manifest): Result<CommitResponse, Error> {
    match m.actualSha256
    case None => Err(Storage)
    case Some(sha) => Ok(CommitResponse(m.uploadId, m.filename, m.mimeType, m.sizeBytes, sha))
  }

  function StatusOf(m: Manifest, now: int): StatusResponse {
    var status := if IsExpiredAt(m, now) then Expired else m.status;
    var commit :=
      if status.Committed? || status.Ingested? then
        match CommitResponseOf(m) case Ok(c) => Some(c) case Err(_) => None
      else None;
    StatusResponse(m.uploadId, status, m.bytesReceived, m.sizeBytes, m.bytesReceived, m.expiresAtMs,
                   false, None, commit, m.ingestResult,
                   status.Ingested? || status.Expired? || status.Aborted?)
  }

  // ensure_open: None when the manifest is open and unexpired.
  function EnsureOpen(m: Manifest, now: int): Option<Error> {
    if StatusOf(m, now).status.Expired? then Some(InvalidInput)
    else if !m.status.Open? then Some(Conflict)
    else None
  }
}
