/**
 From which stores the library can still be written for an upload. The first call of every manifest
 write deletes a leftover tmp. When the receipt was in tmp alone, a crash right after that call
 uncovers the manifest that it superseded; and that one may still allow another ingest.
 */
module SecondIngest {
  import opened Outcomes
  import opened UploadStore
  import opened ManifestRegister
  import opened UploadPlans
  import opened UploadInvariant
  import opened UploadRuns
  import opened UploadHistory
  import opened UploadIntegrity
  import opened UploadIngest
  import opened UploadLifecycle
  import opened LibraryReceipts

  // No operation in any order, wherever cut short, whichever of its calls fail and whatever the library
  // answers, writes to the library again.
  ghost predicate AtMostOnce(base: Manifest, hash: Hash, s: Store, now: int) {
    forall events | ClocksOk(base, events) && Chronological(now, events) ::
      AfterAll(s, base.uploadId, hash, events).log == s.log
  }

  ghost predicate SettledReceipt(r: Receipt) {
    r.retainedSourceFile || r.deletedStagedFile
  }

  // Under tmp there is an open manifest that has received nothing yet: it can start afresh.
  ghost predicate StartsOver(s: Store, now: int) {
    && Fallback(s).Some?
    && Fallback(s).value.status.Open? && Fallback(s).value.bytesReceived == 0 && !IsExpiredAt(Fallback(s).value, now)
  }

  // What a caller can see in the store: an open or committed upload that has its bytes, or that an abort
  // can turn into a fresh one; or a receipt that asks for one more write, over a manifest that is live.
  ghost predicate CanStillIngest(base: Manifest, s: Store, now: int) {
    && Current(s).Some?
    && var m := Current(s).value;
       if m.status.Ingested? then
         m.ingestResult.Some? && !SettledReceipt(m.ingestResult.value) && Revives(s, now)
       else
         && !m.status.Aborted? && !IsExpiredAt(m, now) && base.sanitizedFilename != PART
         && (Barren(s, m) ==> StartsOver(s, now))
  }

  // From every store that a run can leave: the library is never written again exactly when it cannot be
  // by that condition.
  lemma AtMostOnceIff(base: Manifest, hash: Hash, s: Store, now: int)
    requires PreparedBase(base) && Good(base, s)
    ensures AtMostOnce(base, hash, s, now) <==> !CanStillIngest(base, s, now)
  {
    if CanStillIngest(base, s, now) {
      var events := IngestAgain(base, hash, s, now);
      assert AfterAll(s, base.uploadId, hash, events).log != s.log;
    } else {
      forall events | ClocksOk(base, events) && Chronological(now, events)
        ensures AfterAll(s, base.uploadId, hash, events).log == s.log
      {
        if base.sanitizedFilename == PART {
          PartIsNeverIngested(base, hash, s, events);
        } else {
          var r := IsQuiet(base, s, now);
          QuietRuns(base, hash, r, now, s, events);
        }
      }
    }
  }

  // An ingest that dies once its receipt is complete in tmp has written the library, and recovery finds
  // its receipt; still, operations that follow can make the library be written for it again.
  lemma InterruptedIngestCanRepeat(
    base: Manifest, hash: Hash, s: Store, m: Manifest, req: IngestRequest, lib: LibraryAnswers, t: IngestClock)
    requires PreparedBase(base) && ReadyToIngest(base, s, m) && !s.tmp.Valid? && !IsExpiredAt(m, t.now)
    requires ReceiptOutlives(base, t.terminal) && !req.retainSourceFile
    requires lib.chunkConfigValid && LibraryPlan(req, lib).reply.Ok?
    ensures exists j: nat ::
              var s1 := After(s, base.uploadId, hash, Event(Ingest(req, lib, t, ALL_WELL), j));
              && Current(s1) == Some(Published(m, LibraryPlan(req, lib).reply.value, t)) && |s1.log| > |s.log|
              && !AtMostOnce(base, hash, s1, t.now)
  {
    CurrentIsNewest(base, s);
    var j := FirstCrash(base, hash, s, m, req, lib, t);
    var e := Event(Ingest(req, lib, t, ALL_WELL), j);
    var s1 := After(s, base.uploadId, hash, e);
    EventIsGood(base, hash, s, e);
    LibraryActsOutside(req, lib);
    hide After, LibraryPlan;
    assert Fallback(s1) == Some(m) && Revives(s1, t.now);
    AtMostOnceIff(base, hash, s1, t.now);
  }

  // ------------------------------------------------------------------- when nothing can happen --

  // A document named like its part file is never committed.
  lemma {:induction false} PartIsNeverIngested(base: Manifest, hash: Hash, s: Store, events: seq<Event>)
    requires PreparedBase(base) && Good(base, s) && base.sanitizedFilename == PART && ClocksOk(base, events)
    ensures AfterAll(s, base.uploadId, hash, events).log == s.log
    decreases |events|
  {
    if events != [] {
      var e := events[0];
      assert e in events;
      EventIsGood(base, hash, s, e);
      if Current(s).Some? {
        CurrentIsNewest(base, s);
      }
      OthersCallNoLibrary(s, base.uploadId, hash, e.op);
      LogIsKept(s, Cut(PlanOf(s, base.uploadId, hash, e.op).acts, e.k));
      PartIsNeverIngested(base, hash, After(s, base.uploadId, hash, e), events[1..]);
    }
  }

  lemma OthersCallNoLibrary(s: Store, id: string, hash: Hash, op: Op)
    requires op.Ingest? ==> Current(s).None? || !(Current(s).value.status.Committed? || Current(s).value.status.Ingested?)
    ensures forall a | a in PlanOf(s, id, hash, op).acts :: !a.Library?
  {
    if !op.Ingest? {
      OthersWriteNoReceipt(s, id, hash, op);
    }
  }

  // In tmp a manifest that no operation writes again until a sweep finds it expired.
  ghost predicate Fixed(r: Receipt, s: Store) {
    s.tmp.Valid? && (s.tmp.m.status.Aborted? || Held(r, s))
  }

  // In tmp a manifest without its bytes, that only an abort writes again; and that deletes what the
  // manifests under it would need.
  ghost predicate Shadowed(now: int, s: Store) {
    && s.tmp.Valid? && Barren(s, s.tmp.m) && !StartsOver(s, now)
  }

  ghost predicate Quiet(r: Receipt, now: int, s: Store) {
    Sealed(r, now, s) || Fixed(r, s) || Shadowed(now, s)
  }

  lemma IsQuiet(base: Manifest, s: Store, now: int) returns (r: Receipt)
    requires Good(base, s) && !CanStillIngest(base, s, now) && base.sanitizedFilename != PART
    ensures Quiet(r, now, s)
  {
    if HasReceipt(s) {
      SealedIff(base, s, Current(s).value, now);
      r := Current(s).value.ingestResult.value;
      if SettledReceipt(r) && !s.tmp.Valid? {
        CurrentIsNewest(base, s);
      }
    } else {
      r := Receipt(None, 0, 0, false, false, None, None, "", None, None, false, false, None, false, 0);
    }
  }

  lemma ExpiredIsSealed(base: Manifest, r: Receipt, now: int, s: Store)
    requires Good(base, s) && s.tmp.Valid? && IsExpiredAt(s.tmp.m, now)
    requires Fixed(r, s) || !s.tmp.m.status.Ingested?
    ensures Sealed(r, now, s)
  {
  }

  lemma FixedIsIdle(base: Manifest, hash: Hash, r: Receipt, s: Store, op: Op)
    requires Fixed(r, s) && (op.Sweep? ==> !IsExpiredAt(s.tmp.m, op.now))
    ensures PlanOf(s, base.uploadId, hash, op).acts == []
  {
  }

  lemma ShadowedIsIdle(base: Manifest, hash: Hash, s: Store, op: Op)
    requires Good(base, s) && s.tmp.Valid? && Barren(s, s.tmp.m) && !op.Abort?
    requires op.Sweep? ==> !IsExpiredAt(s.tmp.m, op.now)
    ensures PlanOf(s, base.uploadId, hash, op).acts == []
  {
  }

  lemma {:induction false} ShadowStays(now: int, s: Store, acts: seq<Act>)
    requires Shadowed(now, s) && forall a | a in acts :: a.RemoveFile?
    ensures Shadowed(now, Run(s, acts)) && Run(s, acts).log == s.log && SameRegister(s, Run(s, acts))
    decreases |acts|
  {
    if acts != [] {
      assert acts[0] in acts;
      ShadowStays(now, Apply(s, acts[0]), acts[1..]);
    }
  }

  // Without any files, what is under a shadowed tmp is dead too.
  lemma StrippedIsSealed(base: Manifest, r: Receipt, now: int, s: Store)
    requires Good(base, s) && Shadowed(now, s) && PART !in s.files && base.sanitizedFilename !in s.files
    ensures Sealed(r, now, s)
  {
  }

  lemma StrippedWrite(base: Manifest, r: Receipt, s: Store, now: int, io: WriteIo, k: nat)
    requires PreparedBase(base) && Good(base, s) && Shadowed(now, s) && ReceiptOutlives(base, now)
    requires PART !in s.files && base.sanitizedFilename !in s.files
    ensures SealedWith(base, r, now, s.log, Run(s, Cut(WritePlan(s, AbortedManifest(s.tmp.m, now), io).acts, k)))
  {
    StrippedIsSealed(base, r, now, s);
    DeadWriteIsSealed(base, r, now, s, AbortedManifest(s.tmp.m, now), io);
    SealIsKept(base, r, now, s, WritePlan(s, AbortedManifest(s.tmp.m, now), io).acts, k);
  }

  lemma TwoRemovals(s: Store, final: string)
    ensures Run(s, [RemoveFile(PART)] + [RemoveFile(final)]) == s.(files := s.files - {PART} - {final})
  {
    var s1 := s.(files := s.files - {PART});
    assert [RemoveFile(final)] == [RemoveFile(final)] + [];
    AlongCons((x, a) => true, s, RemoveFile(PART), [RemoveFile(final)] + []);
    AlongCons((x, a) => true, s1, RemoveFile(final), []);
  }

  lemma ShadowedAbort(base: Manifest, r: Receipt, s: Store, now: int, io: AbortIo, k: nat)
    requires PreparedBase(base) && Good(base, s) && Shadowed(now, s) && ReceiptOutlives(base, now)
    ensures var s' := Run(s, Cut(AbortPlan(s, base.uploadId, now, io).acts, k));
            Quiet(r, now, s') && s'.log == s.log
  {
    CurrentIsNewest(base, s);
    var m := s.tmp.m;
    var removed := [RemoveFile(PART)] + [RemoveFile(m.sanitizedFilename)];
    var acts := AbortPlan(s, base.uploadId, now, io).acts;
    hide Run, WritePlan, Good, Sealed, Shadowed;
    if k <= 2 || |acts| <= 2 {
      assert forall a | a in Cut(acts, k) :: a.RemoveFile?;
      ShadowStays(now, s, Cut(acts, k));
    } else {
      var t := Run(s, removed);
      var w := WritePlan(s, AbortedManifest(m, now), io.write).acts;
      assert acts == removed + w && Cut(acts, k) == removed + Cut(w, k - 2);
      RunConcat(s, removed, Cut(w, k - 2));
      ShadowStays(now, s, removed);
      TwoRemovals(s, m.sanitizedFilename);
      SameRegisterSameWrite(s, t, AbortedManifest(m, now), io.write);
      SameRegisterIsGood(base, s, t);
      StrippedWrite(base, r, t, now, io.write, k - 2);
    }
  }

  lemma SameRegisterIsGood(base: Manifest, s: Store, t: Store)
    requires Good(base, s) && SameRegister(s, t)
    ensures Good(base, t)
  {
  }

  lemma QuietOutlives(r: Receipt, now: int, later: int, s: Store)
    requires Quiet(r, now, s) && now <= later
    ensures Quiet(r, later, s)
  {
    if Sealed(r, now, s) {
      SealOutlives(r, now, later, s);
    }
  }

  lemma QuietEvent(base: Manifest, hash: Hash, r: Receipt, s: Store, e: Event)
    requires PreparedBase(base) && Good(base, s) && Quiet(r, FirstReading(e.op), s) && ClockOk(base, e.op)
    ensures var s' := After(s, base.uploadId, hash, e);
            Good(base, s') && Quiet(r, FirstReading(e.op), s') && s'.log == s.log
  {
    hide PlanOf, Run, Good, Sealed, Barren, StartsOver;
    var now := FirstReading(e.op);
    EventIsGood(base, hash, s, e);
    if !Sealed(r, now, s) && s.tmp.Valid? && e.op.Sweep? && IsExpiredAt(s.tmp.m, e.op.now) {
      BarrenIsLive(s);
      ExpiredIsSealed(base, r, now, s);
    }
    if Sealed(r, now, s) {
      OperationIsSealed(base, hash, r, s, e.op);
      SealIsKept(base, r, now, s, PlanOf(s, base.uploadId, hash, e.op).acts, e.k);
    } else if Fixed(r, s) {
      FixedIsIdle(base, hash, r, s, e.op);
      NothingRun(s);
    } else if e.op.Abort? {
      AbortPlanOf(s, base.uploadId, hash, e.op);
      ShadowedAbort(base, r, s, now, e.op.abortIo, e.k);
    } else {
      ShadowedIsIdle(base, hash, s, e.op);
      NothingRun(s);
    }
  }

  lemma BarrenIsLive(s: Store)
    ensures s.tmp.Valid? && Barren(s, s.tmp.m) ==> !s.tmp.m.status.Ingested?
  {
  }

  lemma AbortPlanOf(s: Store, id: string, hash: Hash, op: Op)
    requires op.Abort?
    ensures PlanOf(s, id, hash, op).acts == AbortPlan(s, id, op.now, op.abortIo).acts
  {
  }

  lemma {:induction false} QuietRuns(base: Manifest, hash: Hash, r: Receipt, now: int, s: Store, events: seq<Event>)
    requires PreparedBase(base) && Good(base, s) && Quiet(r, now, s)
    requires ClocksOk(base, events) && Chronological(now, events)
    ensures AfterAll(s, base.uploadId, hash, events).log == s.log
    decreases |events|
  {
    if events != [] {
      var e := events[0];
      assert e in events;
      hide Quiet, Good;
      QuietOutlives(r, now, FirstReading(e.op), s);
      QuietEvent(base, hash, r, s, e);
      QuietRuns(base, hash, r, FirstReading(e.op), After(s, base.uploadId, hash, e), events[1..]);
    }
  }

  // ------------------------------------------------------------------------ the second ingest --

  // The last moment at which an open or committed upload is not expired
  ghost predicate AtTheEnd(base: Manifest, events: seq<Event>) {
    forall e | e in events :: FirstReading(e.op) == base.expiresAtMs && ClockOk(base, e.op)
  }

  lemma {:induction false} EndIsChronological(base: Manifest, now: int, events: seq<Event>)
    requires AtTheEnd(base, events) && now <= base.expiresAtMs
    ensures ClocksOk(base, events) && Chronological(now, events)
    decreases |events|
  {
    if events != [] {
      assert events[0] in events;
      EndIsChronological(base, base.expiresAtMs, events[1..]);
    }
  }

  const KEEP_FILE: IngestIo := IngestIo(FAULTLESS, false, FAULTLESS)
  const REQUEST: IngestRequest := IngestRequest(false, Some(false))
  const REPORT: IngestReport := IngestReport("document", 1, 1, false)
  const ANSWERS: LibraryAnswers := LibraryAnswers(true, false, true, None, Parsed(REPORT), None, None)

  // An ingest at the last moment that dies after its first call
  function Interrupted(base: Manifest): Event {
    Event(Ingest(REQUEST, ANSWERS, IngestClock(base.expiresAtMs, base.expiresAtMs, base.expiresAtMs), KEEP_FILE), 1)
  }

  lemma InterruptedIsAtTheEnd(base: Manifest)
    requires PreparedBase(base)
    ensures AtTheEnd(base, [Interrupted(base)])
  {
  }

  // Finishing the cleanup, with the removal of the staged file failing, deletes tmp first.
  lemma FallsBack(base: Manifest, hash: Hash, s: Store, m: Manifest)
    requires Good(base, s) && Current(s) == Some(m) && m.status.Ingested? && m.ingestResult.Some?
    requires !SettledReceipt(m.ingestResult.value)
    ensures After(s, base.uploadId, hash, Interrupted(base)) == s.(tmp := Absent)
  {
    CurrentIsNewest(base, s);
    var acts := PlanOf(s, base.uploadId, hash, Interrupted(base).op).acts;
    assert Cut(acts, 1) == [RemoveTmp] + [];
    AlongCons((x, a) => true, s, RemoveTmp, []);
  }

  // A committed upload with its file is ingested.
  lemma IngestsCommitted(base: Manifest, hash: Hash, s: Store, m: Manifest)
    requires Current(s) == Some(m) && Proper(base, m) && m.status.Committed? && m.sanitizedFilename in s.files
    ensures After(s, base.uploadId, hash, Interrupted(base)) == s.(log := s.log + [IngestedDocument(REPORT)])
  {
    hide FinalizePlan;
    var acts := PlanOf(s, base.uploadId, hash, Interrupted(base).op).acts;
    assert Cut(acts, 1) == [Library(IngestedDocument(REPORT))] + [];
    AlongCons((x, a) => true, s, Library(IngestedDocument(REPORT)), []);
  }

  // An open upload whose part file is as long as it says.
  ghost predicate Resumable(base: Manifest, s: Store, m: Manifest) {
    && Current(s) == Some(m) && Proper(base, m) && m.status.Open? && base.sanitizedFilename != PART
    && |Content(s, PART)| == m.bytesReceived
  }

  function Whole(base: Manifest, hash: Hash, s: Store, op: Op): Event {
    Event(op, |PlanOf(s, base.uploadId, hash, op).acts|)
  }

  lemma WholeRun(base: Manifest, hash: Hash, s: Store, op: Op, events: seq<Event>)
    ensures var s' := Run(s, PlanOf(s, base.uploadId, hash, op).acts);
            && After(s, base.uploadId, hash, Whole(base, hash, s, op)) == s'
            && AfterAll(s, base.uploadId, hash, [Whole(base, hash, s, op)] + events)
               == AfterAll(s', base.uploadId, hash, events)
  {
    var acts := PlanOf(s, base.uploadId, hash, op).acts;
    assert Cut(acts, |acts|) == acts;
    assert ([Whole(base, hash, s, op)] + events)[1..] == events;
  }

  function Chunk(base: Manifest, offset: nat, n: nat): Op {
    Append(AppendRequest(offset, None, seq(n, _ => 0 as byte)), base.expiresAtMs, base.expiresAtMs,
           AppendIo(true, true, n, true, FAULTLESS, true))
  }

  lemma AppendsChunk(base: Manifest, hash: Hash, s: Store, m: Manifest, n: nat)
    requires PreparedBase(base) && Resumable(base, s, m)
    requires 0 < n <= RECOMMENDED_CHUNK_BYTES && m.bytesReceived + n <= m.sizeBytes
    ensures var s' := Run(s, PlanOf(s, base.uploadId, hash, Chunk(base, m.bytesReceived, n)).acts);
            Resumable(base, s', m.(bytesReceived := m.bytesReceived + n)) && s'.log == s.log
  {
    hide Run, WritePlan, AppendActs;
    var Append(req, now, later, io) := Chunk(base, m.bytesReceived, n);
    var m' := m.(bytesReceived := m.bytesReceived + n);
    AppendRun(base, hash, s, m, req, later, io);
    SameRegisterSameWrite(s, Grown(s, req.bytes), m', FAULTLESS);
    FaultlessWrite(s, m');
    SuccessfulWriteIsVisible(Grown(s, req.bytes), m', FAULTLESS);
  }

  lemma FaultlessWrite(s: Store, m: Manifest)
    ensures WritePlan(s, m, FAULTLESS).reply
  {
  }

  lemma FillsUp(base: Manifest, hash: Hash, s: Store, m: Manifest) returns (events: seq<Event>)
    requires PreparedBase(base) && Resumable(base, s, m)
    ensures AtTheEnd(base, events)
    ensures var s' := AfterAll(s, base.uploadId, hash, events);
            Resumable(base, s', m.(bytesReceived := m.sizeBytes)) && s'.log == s.log
    decreases m.sizeBytes - m.bytesReceived
  {
    hide PlanOf, Run;
    if m.bytesReceived == m.sizeBytes {
      events := [];
    } else {
      var n := Min(m.sizeBytes - m.bytesReceived, RECOMMENDED_CHUNK_BYTES);
      var op := Chunk(base, m.bytesReceived, n);
      AppendsChunk(base, hash, s, m, n);
      var rest := FillsUp(base, hash, Run(s, PlanOf(s, base.uploadId, hash, op).acts),
                          m.(bytesReceived := m.bytesReceived + n));
      WholeRun(base, hash, s, op, rest);
      events := [Whole(base, hash, s, op)] + rest;
    }
  }

  const COMMIT_WELL: CommitIo := CommitIo(true, true, true, true, true, FAULTLESS, true)

  function CommitOf(base: Manifest, hash: Hash, file: Bytes): Op {
    Commit(Ok(Some(hash(file))), base.expiresAtMs, base.expiresAtMs, COMMIT_WELL)
  }

  lemma CommitsWhole(base: Manifest, hash: Hash, s: Store, m: Manifest) returns (m': Manifest)
    requires PreparedBase(base) && Resumable(base, s, m) && m.bytesReceived == m.sizeBytes
    ensures var s' := Run(s, PlanOf(s, base.uploadId, hash, CommitOf(base, hash, Content(s, PART))).acts);
            && Current(s') == Some(m') && Proper(base, m') && m'.status.Committed?
            && m'.sanitizedFilename in s'.files && s'.log == s.log
  {
    hide Run, WritePlan;
    var file, final := s.files[PART], base.sanitizedFilename;
    m' := m.(actualSha256 := Some(hash(file)), status := Committed);
    MoveIsIntact(base, hash, file, s);
    var moved := (if final in s.files then [RemoveFile(final)] else []) + [RenameFile(PART, final)];
    var t := Run(s, moved);
    SameRegisterSameWrite(s, t, m', FAULTLESS);
    FaultlessWrite(s, m');
    SuccessfulWriteIsVisible(t, m', FAULTLESS);
    RunConcat(s, moved, WritePlan(s, m', FAULTLESS).acts);
  }

  // An open upload is completed, committed and ingested.
  lemma StartsAfresh(base: Manifest, hash: Hash, s: Store, m: Manifest) returns (events: seq<Event>)
    requires PreparedBase(base) && Resumable(base, s, m)
    ensures AtTheEnd(base, events) && AfterAll(s, base.uploadId, hash, events).log != s.log
  {
    hide PlanOf, Run, Proper;
    var filling := FillsUp(base, hash, s, m);
    var s1 := AfterAll(s, base.uploadId, hash, filling);
    var op := CommitOf(base, hash, Content(s1, PART));
    var m2 := CommitsWhole(base, hash, s1, m.(bytesReceived := m.sizeBytes));
    var s2 := Run(s1, PlanOf(s1, base.uploadId, hash, op).acts);
    IngestsCommitted(base, hash, s2, m2);
    InterruptedIsAtTheEnd(base);
    WholeRun(base, hash, s1, op, [Interrupted(base)]);
    var ending := [Whole(base, hash, s1, op)] + [Interrupted(base)];
    AfterAllConcat(s, base.uploadId, hash, filling, ending);
    OneEvent(base, hash, s2, Interrupted(base));
    events := filling + ending;
  }

  lemma OneEvent(base: Manifest, hash: Hash, s: Store, e: Event)
    ensures AfterAll(s, base.uploadId, hash, [e]) == After(s, base.uploadId, hash, e)
  {
    var t := After(s, base.uploadId, hash, e);
    assert AfterAll(t, base.uploadId, hash, []) == t;
  }

  // An abort that dies after its first call deletes the part file.
  function HalfAbort(base: Manifest): Event {
    Event(Abort(base.expiresAtMs, AbortIo(true, true, true, FAULTLESS)), 1)
  }

  lemma HalfAborts(base: Manifest, hash: Hash, s: Store, m: Manifest)
    requires PreparedBase(base) && Current(s) == Some(m) && Proper(base, m) && m.status.Open?
    ensures After(s, base.uploadId, hash, HalfAbort(base)) == s.(files := s.files - {PART})
    ensures AtTheEnd(base, [HalfAbort(base)])
  {
    hide WritePlan;
    var acts := PlanOf(s, base.uploadId, hash, HalfAbort(base).op).acts;
    assert Cut(acts, 1) == [RemoveFile(PART)] + [];
    AlongCons((x, a) => true, s, RemoveFile(PART), []);
  }

  // What surfaces leads to another ingest.
  lemma RevivedIngests(base: Manifest, hash: Hash, s: Store, m: Manifest) returns (events: seq<Event>)
    requires PreparedBase(base) && Current(s) == Some(m) && Proper(base, m) && base.sanitizedFilename != PART
    requires (m.status.Open? || m.status.Committed?) && !Barren(s, m)
    ensures AtTheEnd(base, events) && AfterAll(s, base.uploadId, hash, events).log != s.log
  {
    hide PlanOf, Run;
    if m.status.Committed? {
      IngestsCommitted(base, hash, s, m);
      InterruptedIsAtTheEnd(base);
      OneEvent(base, hash, s, Interrupted(base));
      events := [Interrupted(base)];
    } else if |Content(s, PART)| == m.bytesReceived {
      events := StartsAfresh(base, hash, s, m);
    } else {
      HalfAborts(base, hash, s, m);
      var t := After(s, base.uploadId, hash, HalfAbort(base));
      var rest := StartsAfresh(base, hash, t, m);
      events := [HalfAbort(base)] + rest;
      assert events[1..] == rest;
    }
  }

  // An abort that dies after its third call has deleted the files and tmp.
  function LateHalfAbort(base: Manifest): Event {
    Event(Abort(base.expiresAtMs, AbortIo(true, true, true, FAULTLESS)), 3)
  }

  lemma AbortUncovers(base: Manifest, hash: Hash, s: Store, m: Manifest)
    requires PreparedBase(base) && Current(s) == Some(m) && Proper(base, m) && (m.status.Open? || m.status.Committed?)
    ensures After(s, base.uploadId, hash, LateHalfAbort(base))
            == s.(files := s.files - {PART} - {m.sanitizedFilename}, tmp := Absent)
    ensures AtTheEnd(base, [LateHalfAbort(base)])
  {
    var t := s.(files := s.files - {PART} - {m.sanitizedFilename});
    var removed := [RemoveFile(PART)] + [RemoveFile(m.sanitizedFilename)];
    var acts := PlanOf(s, base.uploadId, hash, LateHalfAbort(base).op).acts;
    assert Cut(acts, 3) == removed + ([RemoveTmp] + []);
    hide WritePlan, PlanOf, AbortPlan;
    TwoRemovals(s, m.sanitizedFilename);
    RunConcat(s, removed, [RemoveTmp] + []);
    AlongCons((x, a) => true, t, RemoveTmp, []);
  }

  lemma IngestAgain(base: Manifest, hash: Hash, s: Store, now: int) returns (events: seq<Event>)
    requires PreparedBase(base) && Good(base, s) && CanStillIngest(base, s, now)
    ensures ClocksOk(base, events) && Chronological(now, events)
    ensures AfterAll(s, base.uploadId, hash, events).log != s.log
  {
    var m := Current(s).value;
    CurrentIsNewest(base, s);
    FallbackIsProper(base, s);
    hide AfterAll, After, Good, Proper;
    if !m.status.Ingested? && !Barren(s, m) {
      events := RevivedIngests(base, hash, s, m);
    } else {
      var e := if m.status.Ingested? then Interrupted(base) else LateHalfAbort(base);
      if m.status.Ingested? {
        FallsBack(base, hash, s, m);
        InterruptedIsAtTheEnd(base);
      } else {
        AbortUncovers(base, hash, s, m);
      }
      var t := After(s, base.uploadId, hash, e);
      SameFallback(s, t);
      var rest := RevivedIngests(base, hash, t, Fallback(s).value);
      events := [e] + rest;
      AfterAllConcat(s, base.uploadId, hash, [e], rest);
      OneEvent(base, hash, s, e);
    }
    EndIsChronological(base, now, events);
  }

  lemma SameFallback(s: Store, t: Store)
    requires t.tmp.Absent? && t.primary == s.primary && t.backup == s.backup
    ensures Current(t) == Fallback(s)
  {
  }

  lemma FallbackIsProper(base: Manifest, s: Store)
    requires Good(base, s)
    ensures Fallback(s).Some? ==> Proper(base, Fallback(s).value)
  {
  }
}
