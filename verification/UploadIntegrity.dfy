/**
 End-to-end integrity: when every append carries a slice of one file at its own offset, the bytes on
 disk are that file's, whatever is retried, refused, torn, rolled back or cut short by a crash.
 */
module UploadIntegrity {
  import opened Outcomes
  import opened UploadStore
  import opened ManifestRegister
  import opened UploadPlans
  import opened UploadInvariant
  import opened UploadRuns

  // The upload `base` was prepared for the bytes `file`, under a name of its own.
  ghost predicate Intends(base: Manifest, file: Bytes) {
    PreparedBase(base) && |file| == base.sizeBytes && base.sanitizedFilename != PART
  }

  // A chunk that fits in the file is the file's slice at the given offset.
  ghost predicate Slices(file: Bytes, req: AppendRequest) {
    req.offset + |req.bytes| <= |file| ==> req.bytes == file[req.offset..req.offset + |req.bytes|]
  }

  ghost predicate SlicesOf(file: Bytes, events: seq<Event>) {
    forall e | e in events && e.op.Append? :: Slices(file, e.op.append)
  }

  // What a manifest says of the file: its name and size as prepared, and its digest once committed.
  // Nothing here depends on a clock.
  ghost predicate Describes(base: Manifest, hash: Hash, file: Bytes, slot: Slot) {
    slot.Valid? ==>
      var m := slot.m;
      && m == base.(actualSha256 := m.actualSha256, bytesReceived := m.bytesReceived, status := m.status,
                    expiresAtMs := m.expiresAtMs, ingestResult := m.ingestResult)
      && (m.status.Committed? || m.status.Ingested? ==> m.actualSha256 == Some(hash(file)))
  }

  ghost predicate Intact(base: Manifest, hash: Hash, file: Bytes, s: Store) {
    && s.files.Keys <= {PART, base.sanitizedFilename}
    && (PART in s.files ==> s.files[PART] <= file)
    && (base.sanitizedFilename in s.files ==> s.files[base.sanitizedFilename] == file)
    && Describes(base, hash, file, s.tmp) && Describes(base, hash, file, s.primary)
    && Describes(base, hash, file, s.backup)
  }

  ghost predicate IntactAct(base: Manifest, hash: Hash, file: Bytes, s: Store, a: Act) {
    match a
    case FillTmp(m) => Describes(base, hash, file, Valid(m))
    case OpenFile(name) => name == PART
    case AppendByte(name, b) => name == PART && Content(s, PART) + [b] <= file
    case SetLen(name, len) => name == PART && len <= |Content(s, PART)|
    case RenameFile(source, target) =>
      || (source == PART && target == base.sanitizedFilename && Content(s, PART) == file)
      || (source == base.sanitizedFilename && target == PART)
    case _ => true
  }

  ghost function IntactActs(base: Manifest, hash: Hash, file: Bytes): (Store, Act) -> bool {
    (s, a) => IntactAct(base, hash, file, s, a)
  }

  lemma IntactStep(base: Manifest, hash: Hash, file: Bytes, s: Store, a: Act)
    requires Intends(base, file) && Intact(base, hash, file, s) && IntactAct(base, hash, file, s, a)
    ensures Intact(base, hash, file, Apply(s, a))
  {
  }

  lemma IntactIsKept(base: Manifest, hash: Hash, file: Bytes, s: Store, acts: seq<Act>, k: nat)
    requires Intends(base, file) && Intact(base, hash, file, s) && Along(IntactActs(base, hash, file), s, acts)
    ensures Intact(base, hash, file, Run(s, Cut(acts, k)))
  {
    forall t, a | Intact(base, hash, file, t) && IntactActs(base, hash, file)(t, a)
      ensures Intact(base, hash, file, Apply(t, a))
    {
      IntactStep(base, hash, file, t, a);
    }
    Preserved(t => Intact(base, hash, file, t), IntactActs(base, hash, file), s, acts, k);
  }

  lemma WriteIsIntact(base: Manifest, hash: Hash, file: Bytes, s: Store, m: Manifest, io: WriteIo)
    requires Describes(base, hash, file, Valid(m))
    ensures Along(IntactActs(base, hash, file), s, WritePlan(s, m, io).acts)
  {
    WriteWalk(IntactActs(base, hash, file), s, m, io);
  }

  // Removals and library calls cannot hurt.
  lemma {:induction false} HarmlessRun(base: Manifest, hash: Hash, file: Bytes, s: Store, acts: seq<Act>)
    requires forall a | a in acts :: a.RemoveFile? || a.Library?
    ensures Along(IntactActs(base, hash, file), s, acts)
    ensures SameRegister(s, Run(s, acts))
    decreases |acts|
  {
    if acts != [] {
      assert acts[0] in acts;
      HarmlessRun(base, hash, file, Apply(s, acts[0]), acts[1..]);
    }
  }

  lemma {:induction false} BytesAreIntact(base: Manifest, hash: Hash, file: Bytes, s: Store, bytes: Bytes)
    requires PART in s.files && s.files[PART] + bytes <= file
    ensures Along(IntactActs(base, hash, file), s, BytePlan(PART, bytes))
    ensures Run(s, BytePlan(PART, bytes)) == s.(files := s.files[PART := s.files[PART] + bytes])
    decreases |bytes|
  {
    if bytes == [] {
      assert s.files[PART] + bytes == s.files[PART];
      assert s.files[PART := s.files[PART]] == s.files;
    } else {
      var s' := Apply(s, AppendByte(PART, bytes[0]));
      assert s.files[PART] + bytes == s'.files[PART] + bytes[1..];
      BytesAreIntact(base, hash, file, s', bytes[1..]);
      AlongCons(IntactActs(base, hash, file), s, AppendByte(PART, bytes[0]), BytePlan(PART, bytes[1..]));
      assert s.files[PART] + [bytes[0]] <= file;
      assert s'.files[PART := s'.files[PART] + bytes[1..]] == s.files[PART := s.files[PART] + bytes];
    }
  }

  // Where the bytes of one append leave the store.
  function Grown(s: Store, bytes: Bytes): Store {
    s.(files := s.files[PART := Content(s, PART) + bytes])
  }

  lemma PartIsIntact(base: Manifest, hash: Hash, file: Bytes, s: Store, bytes: Bytes)
    requires Content(s, PART) + bytes <= file
    ensures Along(IntactActs(base, hash, file), s, [OpenFile(PART)] + BytePlan(PART, bytes))
    ensures Run(s, [OpenFile(PART)] + BytePlan(PART, bytes)) == Grown(s, bytes)
  {
    var s' := Apply(s, OpenFile(PART));
    AlongCons(IntactActs(base, hash, file), s, OpenFile(PART), BytePlan(PART, bytes));
    BytesAreIntact(base, hash, file, s', bytes);
    assert s'.files[PART := s'.files[PART] + bytes] == s.files[PART := Content(s, PART) + bytes];
  }

  // A manifest write followed by at most one more act.
  lemma WriteThenIntact(
    base: Manifest, hash: Hash, file: Bytes, s: Store, t: Store, m: Manifest, io: WriteIo, rest: seq<Act>)
    requires Describes(base, hash, file, Valid(m)) && SameRegister(s, t) && |rest| <= 1
    requires rest != [] ==> IntactAct(base, hash, file, t, rest[0])
    ensures Along(IntactActs(base, hash, file), t, WritePlan(s, m, io).acts + rest)
  {
    WriteIsIntact(base, hash, file, t, m, io);
    var w := WritePlan(t, m, io).acts;
    assert Cut(w, |w|) == w;
    WriteLeavesFiles(t, m, io, |w|);
    if rest != [] {
      assert rest == [rest[0]] + [];
      AlongCons(IntactActs(base, hash, file), Run(t, w), rest[0], []);
    }
    AlongConcat(IntactActs(base, hash, file), t, w, rest);
  }

  lemma AppendActsAreIntact(
    base: Manifest, hash: Hash, file: Bytes, s: Store, m: Manifest, req: AppendRequest, later: int, io: AppendIo)
    requires Content(s, PART) + req.bytes <= file && m.bytesReceived == |Content(s, PART)|
    requires Intends(base, file) && Describes(base, hash, file, Valid(m)) && m.status.Open?
    ensures Along(IntactActs(base, hash, file), s, AppendActs(s, m, req, later, io).acts)
  {
    hide Run, WritePlan, BytePlan;
    var written := Min(io.written, |req.bytes|);
    var bytes := req.bytes[..written];
    var part := [OpenFile(PART)] + BytePlan(PART, bytes);
    assert Content(s, PART) + bytes <= Content(s, PART) + req.bytes;
    PartIsIntact(base, hash, file, s, bytes);
    if written == |req.bytes| && io.flush {
      var m' := m.(bytesReceived := m.bytesReceived + |req.bytes|);
      var w := WritePlan(s, m', io.write);
      var rest := if w.reply || !io.rollback then [] else [SetLen(PART, m.bytesReceived)];
      assert Resize(Content(s, PART) + bytes, m.bytesReceived) == Content(s, PART);
      WriteThenIntact(base, hash, file, s, Grown(s, bytes), m', io.write, rest);
      SameRegisterSameWrite(s, Grown(s, bytes), m', io.write);
      AlongConcat(IntactActs(base, hash, file), s, part, w.acts + rest);
      assert w.acts + [] == w.acts;
    }
  }

  lemma AppendIsIntact(
    base: Manifest, hash: Hash, file: Bytes, s: Store, req: AppendRequest, now: int, later: int, io: AppendIo)
    requires Intends(base, file) && Intact(base, hash, file, s) && Slices(file, req)
    ensures Along(IntactActs(base, hash, file), s, AppendPlan(s, base.uploadId, req, now, later, io).acts)
  {
    hide AppendActs, Run, WritePlan;
    if AppendPlan(s, base.uploadId, req, now, later, io).acts != [] {
      var m := Current(s).value;
      assert Content(s, PART) + req.bytes <= file;
      AppendActsAreIntact(base, hash, file, s, m, req, later, io);
    }
  }

  // The acts of a commit up to the renaming: what they leave, and that they are harmless.
  lemma MoveIsIntact(base: Manifest, hash: Hash, file: Bytes, s: Store)
    requires Intends(base, file) && Content(s, PART) == file && PART in s.files
    ensures var final := base.sanitizedFilename;
            var cleared := if final in s.files then [RemoveFile(final)] else [];
            var moved := cleared + [RenameFile(PART, final)];
            && Along(IntactActs(base, hash, file), s, cleared)
            && Along(IntactActs(base, hash, file), s, moved)
            && Run(s, moved) == s.(files := (s.files - {PART})[final := file])
  {
    var final := base.sanitizedFilename;
    var cleared := if final in s.files then [RemoveFile(final)] else [];
    var s1 := s.(files := s.files - {final});
    assert final !in s.files ==> s.files - {final} == s.files;
    assert [RemoveFile(final)] + [] == [RemoveFile(final)];
    AlongCons(IntactActs(base, hash, file), s, RemoveFile(final), []);
    assert Run(s, cleared) == s1;
    RenameIsIntact(base, hash, file, s1);
    hide Run;
    RunConcat(s, cleared, [RenameFile(PART, final)]);
    AlongConcat(IntactActs(base, hash, file), s, cleared, [RenameFile(PART, final)]);
    assert (s1.files - {PART})[final := file] == (s.files - {PART})[final := file];
  }

  lemma RenameIsIntact(base: Manifest, hash: Hash, file: Bytes, s: Store)
    requires Intends(base, file) && PART in s.files && s.files[PART] == file
    ensures var final := base.sanitizedFilename;
            && Along(IntactActs(base, hash, file), s, [RenameFile(PART, final)])
            && Run(s, [RenameFile(PART, final)]) == s.(files := (s.files - {PART})[final := file])
  {
    var final := base.sanitizedFilename;
    AlongCons(IntactActs(base, hash, file), s, RenameFile(PART, final), []);
    assert [RenameFile(PART, final)] + [] == [RenameFile(PART, final)];
  }

  lemma CommitIsIntact(
    base: Manifest, hash: Hash, file: Bytes, s: Store,
    requested: Result<Option<string>, Error>, now: int, later: int, io: CommitIo)
    requires Intends(base, file) && Intact(base, hash, file, s)
    ensures Along(IntactActs(base, hash, file), s, CommitPlan(s, base.uploadId, hash, requested, now, later, io).acts)
  {
    var p := CommitPlan(s, base.uploadId, hash, requested, now, later, io);
    if p.acts != [] {
      var m := Current(s).value;
      var final := base.sanitizedFilename;
      assert s.files[PART] == file;
      MoveIsIntact(base, hash, file, s);
      if io.rename {
        var moved := (if final in s.files then [RemoveFile(final)] else []) + [RenameFile(PART, final)];
        var m' := m.(actualSha256 := Some(hash(file)), status := Committed);
        var rest := if WritePlan(s, m', io.write).reply || !io.rollback then [] else [RenameFile(final, PART)];
        WriteThenIntact(base, hash, file, s, Run(s, moved), m', io.write, rest);
        AlongConcat(IntactActs(base, hash, file), s, moved, WritePlan(s, m', io.write).acts + rest);
        assert p.acts == moved + (WritePlan(s, m', io.write).acts + rest);
      }
    }
  }

  lemma FinalizeIsIntact(
    base: Manifest, hash: Hash, file: Bytes, s: Store, m: Manifest, r: Receipt, t: IngestClock, io: IngestIo)
    requires Describes(base, hash, file, Valid(m)) && m.status.Committed?
    ensures Along(IntactActs(base, hash, file), s, FinalizePlan(s, m, r, t, io).acts)
  {
    var m1 := Published(m, r, t);
    var w1 := WritePlan(s, m1, io.first);
    WriteIsIntact(base, hash, file, s, m1, io.first);
    if w1.reply {
      var s1 := Written(s, m1, io.first);
      var m2 := Recorded(m1, io.removeFinal);
      var cleanup := CleanupActs(m1, m1.ingestResult.value, io);
      var w2 := WritePlan(s1, m2, io.second).acts;
      WriteWalk(IntactActs(base, hash, file), s, m1, io.first);
      HarmlessRun(base, hash, file, s1, cleanup);
      WriteIsIntact(base, hash, file, Run(s1, cleanup), m2, io.second);
      AlongConcat(IntactActs(base, hash, file), s1, cleanup, w2);
      AlongConcat(IntactActs(base, hash, file), s, w1.acts, cleanup + w2);
    }
  }

  lemma IngestIsIntact(
    base: Manifest, hash: Hash, file: Bytes, s: Store,
    req: IngestRequest, lib: LibraryAnswers, t: IngestClock, io: IngestIo)
    requires Intact(base, hash, file, s)
    ensures Along(IntactActs(base, hash, file), s, IngestPlan(s, base.uploadId, req, lib, t, io).acts)
  {
    var p := IngestPlan(s, base.uploadId, req, lib, t, io);
    if p.acts != [] {
      var m := Current(s).value;
      if m.status.Ingested? {
        var r := m.ingestResult.value;
        var m' := m.(ingestResult := Some(r.(deletedStagedFile := io.removeFinal)));
        HarmlessRun(base, hash, file, s, CleanupActs(m, r, io));
        WriteIsIntact(base, hash, file, Run(s, CleanupActs(m, r, io)), m', io.first);
        AlongConcat(IntactActs(base, hash, file), s, CleanupActs(m, r, io), WritePlan(s, m', io.first).acts);
      } else {
        var l := LibraryPlan(req, lib);
        LibraryActsOutside(req, lib);
        HarmlessRun(base, hash, file, s, l.acts);
        if l.reply.Ok? {
          FinalizeIsIntact(base, hash, file, Run(s, l.acts), m, l.reply.value, t, io);
          FinalizeOnSameRegister(s, Run(s, l.acts), m, l.reply.value, t, io);
          AlongConcat(IntactActs(base, hash, file), s, l.acts, FinalizePlan(s, m, l.reply.value, t, io).acts);
        }
      }
    }
  }

  lemma AbortIsIntact(base: Manifest, hash: Hash, file: Bytes, s: Store, now: int, io: AbortIo)
    requires Intact(base, hash, file, s)
    ensures Along(IntactActs(base, hash, file), s, AbortPlan(s, base.uploadId, now, io).acts)
  {
    var p := AbortPlan(s, base.uploadId, now, io);
    if p.acts != [] {
      var m := Current(s).value;
      var removed := [RemoveFile(PART)] + [RemoveFile(m.sanitizedFilename)];
      HarmlessRun(base, hash, file, s, [RemoveFile(PART)]);
      HarmlessRun(base, hash, file, s, removed);
      WriteIsIntact(base, hash, file, Run(s, removed), AbortedManifest(m, now), io.write);
      AlongConcat(IntactActs(base, hash, file), s, removed, WritePlan(s, AbortedManifest(m, now), io.write).acts);
    }
  }

  lemma OperationIsIntact(base: Manifest, hash: Hash, file: Bytes, s: Store, op: Op)
    requires Intends(base, file) && Intact(base, hash, file, s)
    requires op.Append? ==> Slices(file, op.append)
    ensures Along(IntactActs(base, hash, file), s, PlanOf(s, base.uploadId, hash, op).acts)
  {
    match op
    case Append(req, now, later, io) => AppendIsIntact(base, hash, file, s, req, now, later, io);
    case Commit(requested, now, later, io) => CommitIsIntact(base, hash, file, s, requested, now, later, io);
    case Ingest(req, lib, clock, io) => IngestIsIntact(base, hash, file, s, req, lib, clock, io);
    case Abort(now, io) => AbortIsIntact(base, hash, file, s, now, io);
    case Sweep(now, removals) =>
      if PlanOf(s, base.uploadId, hash, op).acts != [] {
        RemovalWalk(IntactActs(base, hash, file), s, Current(s).value);
        AlongCut(IntactActs(base, hash, file), s, RemovalActs(Current(s).value), removals);
      }
    case Status(_) =>
  }

  lemma {:induction false} RunsAreIntact(base: Manifest, hash: Hash, file: Bytes, s: Store, events: seq<Event>)
    requires Intends(base, file) && Intact(base, hash, file, s) && SlicesOf(file, events)
    ensures Intact(base, hash, file, AfterAll(s, base.uploadId, hash, events))
    decreases |events|
  {
    if events != [] {
      var e := events[0];
      assert e in events;
      OperationIsIntact(base, hash, file, s, e.op);
      IntactIsKept(base, hash, file, s, PlanOf(s, base.uploadId, hash, e.op).acts, e.k);
      RunsAreIntact(base, hash, file, After(s, base.uploadId, hash, e), events[1..]);
    }
  }

  // From prepare on, over every run and at any clock readings: the part file is a prefix of the file, the
  // staged file is the file, and every digest that recovery could surface is the file's.
  lemma UploadsAreIntact(base: Manifest, hash: Hash, file: Bytes, s: Store, events: seq<Event>)
    requires Intends(base, file) && Prepared(base, s) && SlicesOf(file, events)
    ensures Intact(base, hash, file, AfterAll(s, base.uploadId, hash, events))
  {
    var io: WriteIo, k: nat :| s == Run(EMPTY, Cut(WritePlan(EMPTY, base, io).acts, k));
    WriteIsIntact(base, hash, file, EMPTY, base, io);
    IntactIsKept(base, hash, file, EMPTY, WritePlan(EMPTY, base, io).acts, k);
    RunsAreIntact(base, hash, file, s, events);
  }

  // A commit that answers Ok for an open upload leaves exactly the file, with its size and digest
  // recorded.
  lemma CommitDeliversTheFile(
    base: Manifest, hash: Hash, file: Bytes, s: Store,
    requested: Result<Option<string>, Error>, now: int, later: int, io: CommitIo)
    requires Intends(base, file) && Intact(base, hash, file, s)
    requires Current(s).Some? && Current(s).value.status.Open?
    requires CommitPlan(s, base.uploadId, hash, requested, now, later, io).reply.Ok?
    ensures var p := CommitPlan(s, base.uploadId, hash, requested, now, later, io);
            var s' := Run(s, p.acts);
            && s'.files == map[base.sanitizedFilename := file]
            && Current(s') == Some(Current(s).value.(actualSha256 := Some(hash(file)), status := Committed))
            && p.reply.value.sha256 == hash(file) && p.reply.value.sizeBytes == |file|
  {
    hide Run, WritePlan;
    var m := Current(s).value;
    var final := base.sanitizedFilename;
    assert s.files[PART] == file;
    MoveIsIntact(base, hash, file, s);
    var moved := (if final in s.files then [RemoveFile(final)] else []) + [RenameFile(PART, final)];
    var t := Run(s, moved);
    var m' := m.(actualSha256 := Some(hash(file)), status := Committed);
    assert t.files == map[final := file];
    RunConcat(s, moved, WritePlan(s, m', io.write).acts);
    SameRegisterSameWrite(s, t, m', io.write);
    SuccessfulWriteIsVisible(t, m', io.write);
  }

  // Any commit reply, first or repeated, reports the file's digest and size.
  lemma CommitRepliesAgree(
    base: Manifest, hash: Hash, file: Bytes, s: Store,
    requested: Result<Option<string>, Error>, now: int, later: int, io: CommitIo)
    requires Intends(base, file) && Intact(base, hash, file, s)
    ensures var reply := CommitPlan(s, base.uploadId, hash, requested, now, later, io).reply;
            reply.Ok? ==> reply.value == CommitResponse(base.uploadId, base.filename, base.mimeType, |file|, hash(file))
  {
    if Current(s).Some? {
      if PART in s.files && |s.files[PART]| == |file| {
        assert s.files[PART] == file;
      }
    }
  }

  // The one name that integrity excludes: a document called `upload.part` stages over its own part
  // file. A commit that the code accepts then succeeds exactly when the name is another one, and
  // with that name it deletes the bytes.
  lemma CommitSucceedsIff(
    base: Manifest, hash: Hash, s: Store,
    requested: Result<Option<string>, Error>, now: int, later: int, io: CommitIo)
    requires Good(base, s) && Current(s).Some? && Current(s).value.status.Open?
    requires !IsExpiredAt(Current(s).value, now)
    requires CommitRefusal(s, Current(s).value, hash, requested, later, io).None?
    requires io.removeFinal && io.rename && io.write == FAULTLESS
    ensures var p := CommitPlan(s, base.uploadId, hash, requested, now, later, io);
            && (p.reply.Ok? <==> base.sanitizedFilename != PART)
            && (base.sanitizedFilename == PART ==> Run(s, p.acts) == s.(files := s.files - {PART}))
  {
    CurrentIsNewest(base, s);
    if base.sanitizedFilename == PART {
      AlongCons((t, a) => true, s, RemoveFile(PART), []);
      assert [RemoveFile(PART)] + [] == [RemoveFile(PART)];
    }
  }
}
