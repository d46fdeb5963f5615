/**
 The terminal receipt of an ingest: it is published before the staged file is deleted, and once it is
 published the upload is never ingested again.
 */
module UploadIngest {
  import opened Outcomes
  import opened UploadStore
  import opened ManifestRegister
  import opened UploadPlans
  import opened UploadInvariant
  import opened UploadRuns

  // ------------------------------------------------------------------ publish before delete --

  // A committed upload with its file in place, whatever a crash has left in tmp.
  ghost predicate ReadyToIngest(base: Manifest, s: Store, m: Manifest) {
    && Good(base, s) && Current(s) == Some(m) && m.status.Committed?
    && m.sanitizedFilename in s.files
  }

  // At every crash point of the publication, with any calls failing: either the files are untouched,
  // and recovery finds the committed manifest, or what a leftover tmp had superseded; or recovery
  // finds the receipt, before or after recording the cleanup.
  lemma PublishBeforeDelete(
    base: Manifest, s: Store, m: Manifest, r: Receipt, t: IngestClock, io: IngestIo, k: nat)
    requires ReadyToIngest(base, s, m)
    ensures var s' := Run(s, Cut(FinalizePlan(s, m, r, t, io).acts, k));
            var m1 := Published(m, r, t);
            || (s'.files == s.files && (Current(s') == Some(m) || Current(s') == Fallback(s)))
            || Current(s') == Some(m1)
            || Current(s') == Some(Recorded(m1, io.removeFinal))
    ensures var s' := Run(s, Cut(FinalizePlan(s, m, r, t, io).acts, k));
            m.sanitizedFilename !in s'.files ==>
              Current(s').Some? && Current(s').value.status.Ingested? && Current(s').value.ingestResult.Some?
  {
    var m1 := Published(m, r, t);
    var w1 := WritePlan(s, m1, io.first).acts;
    var acts := FinalizePlan(s, m, r, t, io).acts;
    if k <= |w1| || !WritePlan(s, m1, io.first).reply {
      assert Cut(acts, k) == Cut(w1, k);
      WriteLeavesFiles(s, m1, io.first, k);
      WriteInventsNothing(s, m1, io.first, k);
    } else {
      var m2 := Recorded(m1, io.removeFinal);
      var s1 := Written(s, m1, io.first);
      SuccessfulWriteIsVisible(s, m1, io.first);
      WriteWalk((x, a) => true, s, m1, io.first);
      RecordingKeepsReceipt(s1, m1, m2, CleanupActs(m1, m1.ingestResult.value, io), io.second, k - |w1|);
      assert Cut(acts, k) == w1 + Cut(acts[|w1|..], k - |w1|);
      RunConcat(s, w1, Cut(acts[|w1|..], k - |w1|));
    }
  }

  // From a published receipt on: deleting the staged file and recording it.
  lemma RecordingKeepsReceipt(s1: Store, m1: Manifest, m2: Manifest, cleanup: seq<Act>, io: WriteIo, k: nat)
    requires s1.tmp.Absent? && s1.primary == Valid(m1)
    requires |cleanup| <= 1 && (cleanup != [] ==> cleanup[0].RemoveFile?)
    ensures var s' := Run(s1, Cut(cleanup + WritePlan(s1, m2, io).acts, k));
            Current(s') == Some(m1) || Current(s') == Some(m2)
  {
    var w2 := WritePlan(s1, m2, io).acts;
    assert cleanup == [] || cleanup == [cleanup[0]] + [];
    if cleanup != [] { AlongCons((x, a) => true, s1, cleanup[0], []); }
    var t := Run(s1, cleanup);
    assert SameRegister(s1, t);
    if k <= |cleanup| {
      assert Cut(cleanup + w2, k) == if k == 0 then [] else cleanup;
    } else {
      assert Cut(cleanup + w2, k) == cleanup + Cut(w2, k - |cleanup|);
      RunConcat(s1, cleanup, Cut(w2, k - |cleanup|));
      CleanWriteIsAtomic(t, m2, io, k - |cleanup|);
    }
  }

  const ALL_WELL: IngestIo := IngestIo(FAULTLESS, true, FAULTLESS)

  // The manifests under the newest one have no receipt that it lacks.
  lemma FallbackIsOlder(base: Manifest, s: Store)
    requires Good(base, s) && Current(s).Some? && Fallback(s).Some?
    ensures Older(Valid(Fallback(s).value), Valid(Current(s).value))
  {
  }

  // The receipt as every reply gives it, once the staged file has been dealt with
  function Final(r: Receipt): Receipt {
    r.(deletedStagedFile := !r.retainedSourceFile)
  }

  lemma ReplayOf(s: Store, id: string, m: Manifest, again: IngestRequest, lib: LibraryAnswers, t: IngestClock, io: IngestIo)
    requires Current(s) == Some(m) && m.uploadId == id && m.status.Ingested? && m.ingestResult.Some?
    ensures var r := m.ingestResult.value;
            var reply := IngestPlan(s, id, again, lib, t, io).reply;
            && (reply.Ok? ==> SameReceipt(reply.value, r) && reply.value.idempotentReplay)
            && (io == ALL_WELL && !(r.retainedSourceFile && r.deletedStagedFile) ==>
                 reply == Ok(Final(r).(idempotentReplay := true)))
  {
  }

  // Whatever calls fail in an ingest, and wherever it is cut short: whenever recovery finds a receipt
  // afterwards, a repeated ingest, whatever it asks for, answers, if it answers, with the published
  // one, up to the flags; and when its own calls succeed, exactly as the uninterrupted run would have.
  lemma ReplayRecoversReceipt(
    base: Manifest, s: Store, m: Manifest, r: Receipt, t: IngestClock, io: IngestIo, k: nat,
    again: IngestRequest, lib: LibraryAnswers, later: IngestClock, io': IngestIo)
    requires ReadyToIngest(base, s, m) && !r.deletedStagedFile
    ensures var published := Published(m, r, t).ingestResult.value;
            var s' := Run(s, Cut(FinalizePlan(s, m, r, t, io).acts, k));
            var reply := IngestPlan(s', base.uploadId, again, lib, later, io').reply;
            Current(s').Some? && Current(s').value.status.Ingested? ==>
              && (reply.Ok? ==> SameReceipt(reply.value, published) && reply.value.idempotentReplay)
              && (io' == ALL_WELL ==> reply == Ok(Final(published).(idempotentReplay := true)))
    ensures FinalizePlan(s, m, r, t, ALL_WELL).reply == Ok(Final(Published(m, r, t).ingestResult.value))
  {
    var s' := Run(s, Cut(FinalizePlan(s, m, r, t, io).acts, k));
    PublishBeforeDelete(base, s, m, r, t, io, k);
    CurrentIsNewest(base, s);
    if Fallback(s).Some? {
      FallbackIsOlder(base, s);
    }
    hide FinalizePlan, IngestPlan, Run;
    if Current(s').Some? && Current(s').value.status.Ingested? {
      ReplayOf(s', base.uploadId, Current(s').value, again, lib, later, io');
    }
    UninterruptedReply(s, m, r, t);
  }

  lemma UninterruptedReply(s: Store, m: Manifest, r: Receipt, t: IngestClock)
    requires !r.deletedStagedFile
    ensures FinalizePlan(s, m, r, t, ALL_WELL).reply == Ok(Final(Published(m, r, t).ingestResult.value))
  {
  }

  // --------------------------------------------------------------- when finishing a cleanup is safe --

  ghost predicate HasReceipt(s: Store) {
    Current(s).Some? && Current(s).value.status.Ingested?
  }

  // Something is left to answer from, or to ingest from.
  ghost predicate KeepsReceiptOrFile(m: Manifest, s: Store) {
    HasReceipt(s) || m.sanitizedFilename in s.files
  }

  // The receipt does not depend on tmp.
  ghost predicate HasOwnReceipt(s: Store) {
    HasReceipt(s.(tmp := Absent)) && (s.tmp.Valid? ==> s.tmp.m.status.Ingested?)
  }

  lemma ReceiptStep(s: Store, m: Manifest, io: WriteIo, t: Store, a: Act)
    requires !s.primary.Garbage? && HasOwnReceipt(s) && m.status.Ingested?
    requires WriteStep(s, m, io, t, a)
    ensures HasOwnReceipt(Apply(t, a))
  {
  }

  // Deleting the staged file and recording it, cut short anywhere, keeps such a receipt.
  lemma CleanupKeepsReceipt(s: Store, cleanup: seq<Act>, m: Manifest, io: WriteIo, k: nat)
    requires !s.primary.Garbage? && HasOwnReceipt(s) && m.status.Ingested?
    requires |cleanup| <= 1 && (cleanup != [] ==> cleanup[0].RemoveFile?)
    ensures HasOwnReceipt(Run(s, Cut(cleanup + WritePlan(s, m, io).acts, k)))
  {
    var inv := (t: Store) => HasOwnReceipt(t);
    var allowed := (t: Store, a: Act) => HasOwnReceipt(Apply(t, a));
    assert cleanup == [] || cleanup == [cleanup[0]] + [];
    if cleanup != [] { AlongCons(allowed, s, cleanup[0], []); }
    var t := Run(s, cleanup);
    hide Run, WritePlan;
    WriteKeepsReceipt(t, m, io);
    SameRegisterSameWrite(s, t, m, io);
    AlongConcat(allowed, s, cleanup, WritePlan(s, m, io).acts);
    Preserved(inv, allowed, s, cleanup + WritePlan(s, m, io).acts, k);
  }

  lemma WriteKeepsReceipt(s: Store, m: Manifest, io: WriteIo)
    requires !s.primary.Garbage? && HasOwnReceipt(s) && m.status.Ingested?
    ensures Along((t: Store, a: Act) => HasOwnReceipt(Apply(t, a)), s, WritePlan(s, m, io).acts)
  {
    hide HasOwnReceipt, WritePlan;
    var allowed := (t: Store, a: Act) => HasOwnReceipt(Apply(t, a));
    forall t, a | WriteStep(s, m, io, t, a) ensures allowed(t, a) {
      ReceiptStep(s, m, io, t, a);
    }
    WriteWalk(allowed, s, m, io);
  }

  lemma ReplayKeepsReceipt(base: Manifest, s: Store, m: Manifest, io: IngestIo, k: nat)
    requires Good(base, s) && Current(s) == Some(m) && m.status.Ingested? && m.ingestResult.Some?
    requires HasReceipt(s.(tmp := Absent))
    ensures HasReceipt(Run(s, Cut(ReplayPlan(s, m, io).acts, k)))
  {
    var r := m.ingestResult.value;
    if r.retainedSourceFile || r.deletedStagedFile {
      NothingRun(s);
    } else {
      CleanupKeepsReceipt(s, CleanupActs(m, r, io), m.(ingestResult := Some(r.(deletedStagedFile := io.removeFinal))),
                          io.first, k);
    }
  }

  // A repeated ingest that finishes the cleanup of its predecessor first deletes the staged file, and
  // the write of its manifest then begins by deleting tmp. Whatever fails and wherever it is cut short,
  // the receipt or the file survives if and only if the receipt is not in tmp alone.
  lemma ReplayKeepsReceiptIff(base: Manifest, s: Store, m: Manifest)
    requires Good(base, s) && Current(s) == Some(m) && m.status.Ingested?
    requires m.ingestResult.Some? && !m.ingestResult.value.retainedSourceFile && !m.ingestResult.value.deletedStagedFile
    ensures (forall io, k: nat :: KeepsReceiptOrFile(m, Run(s, Cut(ReplayPlan(s, m, io).acts, k))))
            <==> HasReceipt(s.(tmp := Absent))
  {
    if HasReceipt(s.(tmp := Absent)) {
      forall io, k: nat ensures KeepsReceiptOrFile(m, Run(s, Cut(ReplayPlan(s, m, io).acts, k))) {
        ReplayKeepsReceipt(base, s, m, io, k);
      }
    } else {
      var s' := Run(s, Cut(ReplayPlan(s, m, ALL_WELL).acts, 2));
      FirstTwoCalls(s, m);
      assert !KeepsReceiptOrFile(m, s');
    }
  }

  lemma FirstTwoCalls(s: Store, m: Manifest)
    requires m.ingestResult.Some? && !m.ingestResult.value.retainedSourceFile && !m.ingestResult.value.deletedStagedFile
    ensures Run(s, Cut(ReplayPlan(s, m, ALL_WELL).acts, 2))
            == s.(tmp := Absent, files := s.files - {m.sanitizedFilename})
  {
    var retry := ReplayPlan(s, m, ALL_WELL).acts;
    assert Cut(retry, 2) == [RemoveFile(m.sanitizedFilename)] + ([RemoveTmp] + []);
    AlongCons((x, a) => true, s, RemoveFile(m.sanitizedFilename), [RemoveTmp] + []);
    AlongCons((x, a) => true, s.(files := s.files - {m.sanitizedFilename}), RemoveTmp, []);
  }

  // --------------------------------------------------------------------- at most one ingest --

  // What an unexpired manifest lacks to be ingested: when committed its staged file, when open the bytes
  // that it counts. Without any, it can start afresh.
  ghost predicate Barren(s: Store, m: Manifest) {
    || (m.status.Committed? && m.sanitizedFilename !in s.files)
    || (m.status.Open? && m.bytesReceived > 0 && |Content(s, PART)| != m.bytesReceived)
  }

  // Nothing that this manifest allows from now on writes to the library.
  ghost predicate Dead(r: Receipt, now: int, s: Store, m: Manifest) {
    && (m.status.Ingested? ==> m.ingestResult.Some? && SameReceipt(m.ingestResult.value, r))
    && (m.status.Ingested? || m.status.Aborted? || IsExpiredAt(m, now) || Barren(s, m))
  }

  // Every manifest that recovery could surface from here is dead.
  ghost predicate Sealed(r: Receipt, now: int, s: Store) {
    && (s.tmp.Valid? ==> Dead(r, now, s, s.tmp.m))
    && (s.primary.Valid? ==> Dead(r, now, s, s.primary.m))
    && (!s.primary.Valid? && s.backup.Valid? ==> Dead(r, now, s, s.backup.m))
    && (s.backup.Valid? && s.backup.m.status.Ingested? ==> Dead(r, now, s, s.backup.m))
  }

  ghost predicate SealedAct(r: Receipt, now: int, s: Store, a: Act) {
    && (Outside(a) ==> a.RemoveFile?)
    && (a.FillTmp? ==> Dead(r, now, s, a.m))
    && (a.RemovePrimary? && s.backup.Valid? ==> Dead(r, now, s, s.backup.m))
  }

  ghost function SealedActs(base: Manifest, r: Receipt, now: int): (Store, Act) -> bool {
    (s, a) => GoodAct(base, s, a) && SealedAct(r, now, s, a)
  }

  ghost predicate SealedWith(base: Manifest, r: Receipt, now: int, log: seq<LibraryWrite>, s: Store) {
    Good(base, s) && Sealed(r, now, s) && s.log == log
  }

  lemma SealedStep(base: Manifest, r: Receipt, now: int, log: seq<LibraryWrite>, s: Store, a: Act)
    requires SealedWith(base, r, now, log, s) && SealedActs(base, r, now)(s, a)
    ensures SealedWith(base, r, now, log, Apply(s, a))
  {
    GoodStep(base, s, a);
  }

  lemma SealIsKept(base: Manifest, r: Receipt, now: int, s: Store, acts: seq<Act>, k: nat)
    requires Good(base, s) && Sealed(r, now, s) && Along(SealedActs(base, r, now), s, acts)
    ensures SealedWith(base, r, now, s.log, Run(s, Cut(acts, k)))
  {
    var inv := t => SealedWith(base, r, now, s.log, t);
    forall t, a | inv(t) && SealedActs(base, r, now)(t, a) ensures inv(Apply(t, a)) {
      SealedStep(base, r, now, s.log, t, a);
    }
    Preserved(inv, SealedActs(base, r, now), s, acts, k);
  }

  ghost predicate DeadAndNewest(base: Manifest, r: Receipt, now: int, s: Store, m: Manifest) {
    && Proper(base, m) && Older(s.primary, Valid(m)) && Older(s.backup, Valid(m))
    && Dead(r, now, s, m) && (m.status.Ingested? || m.status.Aborted?)
  }

  lemma WriteStepIsSealed(
    base: Manifest, r: Receipt, now: int, s: Store, m: Manifest, io: WriteIo, t: Store, a: Act)
    requires Good(base, s) && DeadAndNewest(base, r, now, s, m) && WriteStep(s, m, io, t, a)
    ensures SealedActs(base, r, now)(t, a)
  {
  }

  lemma DeadWriteIsSealed(base: Manifest, r: Receipt, now: int, s: Store, m: Manifest, io: WriteIo)
    requires Good(base, s) && DeadAndNewest(base, r, now, s, m)
    ensures Along(SealedActs(base, r, now), s, WritePlan(s, m, io).acts)
  {
    forall t, a | WriteStep(s, m, io, t, a) ensures SealedActs(base, r, now)(t, a) {
      WriteStepIsSealed(base, r, now, s, m, io, t, a);
    }
    WriteWalk(SealedActs(base, r, now), s, m, io);
  }

  lemma {:induction false} RemovalsAreSealed(base: Manifest, r: Receipt, now: int, s: Store, acts: seq<Act>)
    requires forall a | a in acts :: a.RemoveFile?
    ensures Along(SealedActs(base, r, now), s, acts) && SameRegister(s, Run(s, acts))
    decreases |acts|
  {
    if acts != [] {
      assert acts[0] in acts;
      RemovalsAreSealed(base, r, now, Apply(s, acts[0]), acts[1..]);
    }
  }

  // Removals of staged files, then a write of a dead manifest.
  lemma DeadTailIsSealed(
    base: Manifest, r: Receipt, now: int, s: Store, before: seq<Act>, m: Manifest, io: WriteIo)
    requires Good(base, s) && DeadAndNewest(base, r, now, s, m) && forall a | a in before :: a.RemoveFile?
    ensures Along(SealedActs(base, r, now), s, before)
    ensures Along(SealedActs(base, r, now), s, before + WritePlan(s, m, io).acts)
  {
    RemovalsAreSealed(base, r, now, s, before);
    DeadWriteIsSealed(base, r, now, Run(s, before), m, io);
    AlongConcat(SealedActs(base, r, now), s, before, WritePlan(s, m, io).acts);
  }

  lemma AbortIsSealed(base: Manifest, r: Receipt, s: Store, now: int, io: AbortIo)
    requires PreparedBase(base) && Good(base, s) && Sealed(r, now, s) && ReceiptOutlives(base, now)
    ensures Along(SealedActs(base, r, now), s, AbortPlan(s, base.uploadId, now, io).acts)
  {
    var p := AbortPlan(s, base.uploadId, now, io);
    if p.acts != [] {
      CurrentIsNewest(base, s);
      var m := Current(s).value;
      DeadTailIsSealed(base, r, now, s, [RemoveFile(PART)], AbortedManifest(m, now), io.write);
      DeadTailIsSealed(base, r, now, s, [RemoveFile(PART)] + [RemoveFile(m.sanitizedFilename)],
                        AbortedManifest(m, now), io.write);
    }
  }

  lemma RemovalsOfExpired(base: Manifest, r: Receipt, s: Store, now: int, m: Manifest)
    requires Good(base, s) && Sealed(r, now, s) && Current(s) == Some(m) && IsExpiredAt(m, now)
    ensures var allowed := SealedActs(base, r, now);
            var emptied := s.(files := s.files - {PART} - {m.sanitizedFilename});
            && allowed(s, RemoveFile(PART))
            && allowed(s.(files := s.files - {PART}), RemoveFile(m.sanitizedFilename))
            && allowed(emptied, RemoveTmp)
            && allowed(emptied.(tmp := Absent), RemovePrimary)
            && allowed(emptied.(tmp := Absent, primary := Absent), RemoveBackup)
  {
  }

  lemma SweepIsSealed(base: Manifest, r: Receipt, s: Store, now: int, removals: nat)
    requires Good(base, s) && Sealed(r, now, s)
    ensures Along(SealedActs(base, r, now), s, SweepPlan(s, base.uploadId, now, removals).acts)
  {
    hide Run, SealedActs, RemovalActs, Sealed, Good;
    if SweepPlan(s, base.uploadId, now, removals).acts != [] {
      RemovalsOfExpired(base, r, s, now, Current(s).value);
      RemovalWalk(SealedActs(base, r, now), s, Current(s).value);
      AlongCut(SealedActs(base, r, now), s, RemovalActs(Current(s).value), removals);
    }
  }

  lemma ReplayIsSealed(base: Manifest, r: Receipt, now: int, s: Store, m: Manifest, io: IngestIo)
    requires Good(base, s) && DeadAndNewest(base, r, now, s, m) && m.status.Ingested?
    ensures var p := ReplayPlan(s, m, io);
            && Along(SealedActs(base, r, now), s, p.acts)
            && (p.reply.Ok? ==> SameReceipt(p.reply.value, r))
  {
    hide Run, WritePlan;
    var stored := m.ingestResult.value;
    var m' := m.(ingestResult := Some(stored.(deletedStagedFile := io.removeFinal)));
    if !stored.retainedSourceFile && !stored.deletedStagedFile {
      DeadTailIsSealed(base, r, now, s, CleanupActs(m, stored, io), m', io.first);
    }
  }

  lemma IngestIsSealed(
    base: Manifest, r: Receipt, s: Store, req: IngestRequest, lib: LibraryAnswers, t: IngestClock, io: IngestIo)
    requires Good(base, s) && Sealed(r, t.now, s)
    ensures var p := IngestPlan(s, base.uploadId, req, lib, t, io);
            && Along(SealedActs(base, r, t.now), s, p.acts)
            && (p.reply.Ok? ==> SameReceipt(p.reply.value, r))
  {
    hide ReplayPlan, FinalizePlan, LibraryPlan;
    if Current(s).Some? {
      CurrentIsNewest(base, s);
      var m := Current(s).value;
      if m.status.Ingested? {
        ReplayIsSealed(base, r, t.now, s, m, io);
      }
    }
  }

  lemma OperationIsSealed(base: Manifest, hash: Hash, r: Receipt, s: Store, op: Op)
    requires PreparedBase(base) && Good(base, s) && Sealed(r, FirstReading(op), s) && ClockOk(base, op)
    ensures var p := PlanOf(s, base.uploadId, hash, op);
            && Along(SealedActs(base, r, FirstReading(op)), s, p.acts)
            && (op.Ingest? && p.reply.ingest.Ok? ==> SameReceipt(p.reply.ingest.value, r))
  {
    if Current(s).Some? { CurrentIsNewest(base, s); }
    match op
    case Append(req, now, later, io) =>
    case Commit(requested, now, later, io) =>
    case Ingest(req, lib, clock, io) => IngestIsSealed(base, r, s, req, lib, clock, io);
    case Abort(now, io) => AbortIsSealed(base, r, s, now, io);
    case Sweep(now, removals) => SweepIsSealed(base, r, s, now, removals);
    case Status(_) =>
  }

  lemma SealOutlives(r: Receipt, now: int, later: int, s: Store)
    requires Sealed(r, now, s) && now <= later
    ensures Sealed(r, later, s)
  {
  }

  // The first clock readings of successive operations do not go back.
  ghost predicate Chronological(now: int, events: seq<Event>)
    decreases |events|
  {
    events == [] || (now <= FirstReading(events[0].op) && Chronological(FirstReading(events[0].op), events[1..]))
  }

  // Every successful ingest reply along a run.
  ghost predicate RepliesAgree(s: Store, base: Manifest, hash: Hash, r: Receipt, events: seq<Event>)
    decreases |events|
  {
    events == [] ||
    (var reply := PlanOf(s, base.uploadId, hash, events[0].op).reply;
     && (reply.IngestDone? && reply.ingest.Ok? ==> SameReceipt(reply.ingest.value, r))
     && RepliesAgree(After(s, base.uploadId, hash, events[0]), base, hash, r, events[1..]))
  }

  // A settled receipt in tmp, over manifests that recovery does not reach: no operation has anything
  // to write, until a sweep finds it expired, and then those are expired as well.
  ghost predicate Held(r: Receipt, s: Store) {
    && s.tmp.Valid? && s.tmp.m.status.Ingested? && s.tmp.m.ingestResult.Some?
    && var stored := s.tmp.m.ingestResult.value;
       SameReceipt(stored, r) && (stored.retainedSourceFile || stored.deletedStagedFile)
  }

  ghost predicate Closed(r: Receipt, now: int, s: Store) {
    Sealed(r, now, s) || Held(r, s)
  }

  lemma HeldThenExpired(base: Manifest, r: Receipt, now: int, s: Store)
    requires Good(base, s) && Held(r, s) && IsExpiredAt(s.tmp.m, now)
    ensures Sealed(r, now, s)
  {
  }

  lemma HeldIsIdle(base: Manifest, hash: Hash, r: Receipt, s: Store, op: Op)
    requires Good(base, s) && Held(r, s) && (op.Sweep? ==> !IsExpiredAt(s.tmp.m, op.now))
    ensures var p := PlanOf(s, base.uploadId, hash, op);
            p.acts == [] && (op.Ingest? && p.reply.ingest.Ok? ==> SameReceipt(p.reply.ingest.value, r))
  {
  }

  lemma ClosedEvent(base: Manifest, hash: Hash, r: Receipt, now: int, s: Store, e: Event)
    requires PreparedBase(base) && Good(base, s) && Closed(r, now, s)
    requires ClockOk(base, e.op) && now <= FirstReading(e.op)
    ensures var p := PlanOf(s, base.uploadId, hash, e.op);
            var s' := After(s, base.uploadId, hash, e);
            && (p.reply.IngestDone? && p.reply.ingest.Ok? ==> SameReceipt(p.reply.ingest.value, r))
            && Good(base, s') && Closed(r, FirstReading(e.op), s') && s'.log == s.log
  {
    hide PlanOf, Run, Good;
    var later := FirstReading(e.op);
    if Sealed(r, now, s) {
      SealOutlives(r, now, later, s);
    } else if e.op.Sweep? && IsExpiredAt(s.tmp.m, e.op.now) {
      HeldThenExpired(base, r, later, s);
    }
    ReplyIsOfItsOp(s, base.uploadId, hash, e.op);
    if Sealed(r, later, s) {
      OperationIsSealed(base, hash, r, s, e.op);
      SealIsKept(base, r, later, s, PlanOf(s, base.uploadId, hash, e.op).acts, e.k);
    } else {
      HeldIsIdle(base, hash, r, s, e.op);
      NothingRun(s);
    }
  }

  lemma ReplyIsOfItsOp(s: Store, id: string, hash: Hash, op: Op)
    ensures PlanOf(s, id, hash, op).reply.IngestDone? <==> op.Ingest?
  {
  }

  // At most once: from a closed store on, no sequence of operations, whatever they ask for, wherever
  // they crash and whichever calls fail, writes to the library again; and every successful ingest
  // among them answers with the one receipt.
  lemma {:induction false} AtMostOneIngest(
    base: Manifest, hash: Hash, r: Receipt, now: int, s: Store, events: seq<Event>)
    requires PreparedBase(base) && Good(base, s) && Closed(r, now, s)
    requires ClocksOk(base, events) && Chronological(now, events)
    ensures AfterAll(s, base.uploadId, hash, events).log == s.log
    ensures RepliesAgree(s, base, hash, r, events)
    decreases |events|
  {
    if events != [] {
      var e := events[0];
      assert e in events;
      ClosedEvent(base, hash, r, now, s, e);
      AtMostOneIngest(base, hash, r, FirstReading(e.op), After(s, base.uploadId, hash, e), events[1..]);
    }
  }

  // The manifest that surfaces when tmp is lost could still be ingested.
  ghost predicate Revives(s: Store, now: int) {
    && Fallback(s).Some?
    && var m := Fallback(s).value;
       (m.status.Open? || m.status.Committed?) && !IsExpiredAt(m, now) && !Barren(s, m)
  }

  lemma SealedIff(base: Manifest, s: Store, m: Manifest, now: int)
    requires Good(base, s) && Current(s) == Some(m) && m.status.Ingested?
    ensures m.ingestResult.Some?
    ensures Sealed(m.ingestResult.value, now, s) <==> !Revives(s, now)
  {
    CurrentIsNewest(base, s);
  }

  lemma SealIsShared(base: Manifest, r: Receipt, r': Receipt, now: int, s: Store)
    requires Sealed(r, now, s) && SameReceipt(r, r')
    ensures Sealed(r', now, s)
  {
  }

  // At every crash point of the publication of a receipt, with any calls failing: if recovery finds the
  // receipt, the upload is sealed exactly when nothing under tmp could still be ingested; and once the
  // receipt has been renamed into place, it is sealed.
  lemma PublishingSeals(
    base: Manifest, s: Store, m: Manifest, r: Receipt, t: IngestClock, io: IngestIo, now: int, k: nat)
    requires PreparedBase(base) && ReadyToIngest(base, s, m) && WellFormedReceipt(r) && ReceiptOutlives(base, t.terminal)
    ensures var acts := Cut(FinalizePlan(s, m, r, t, io).acts, k);
            var s' := Run(s, acts);
            && Good(base, s') && s'.log == s.log
            && (HasReceipt(s') ==> (Sealed(Published(m, r, t).ingestResult.value, now, s') <==> !Revives(s', now)))
            && (Publish in acts ==> HasReceipt(s') && !Revives(s', now))
  {
    hide FinalizePlan, Run, Sealed, Good, Revives, Current, WellFormedReceipt, Older;
    var s' := Run(s, Cut(FinalizePlan(s, m, r, t, io).acts, k));
    var r1 := Published(m, r, t).ingestResult.value;
    FinalizeStaysGood(base, s, m, r, t, io, k);
    if Publish in Cut(FinalizePlan(s, m, r, t, io).acts, k) {
      InPlace(base, s, m, r, t, io, k);
      OwnReceiptRemains(base, s', now);
    }
    if HasReceipt(s') {
      var m' := Current(s').value;
      FoundIsPublished(base, s, m, r, t, io, k);
      SealedIff(base, s', m', now);
      if Sealed(m'.ingestResult.value, now, s') {
        SealIsShared(base, m'.ingestResult.value, r1, now, s');
      } else if Sealed(r1, now, s') {
        SealIsShared(base, r1, m'.ingestResult.value, now, s');
      }
    }
  }

  lemma OwnReceiptRemains(base: Manifest, s: Store, now: int)
    requires HasOwnReceipt(s)
    ensures HasReceipt(s) && !Revives(s, now)
  {
  }

  // A receipt that recovery finds during its publication is the one that is being published.
  lemma FoundIsPublished(
    base: Manifest, s: Store, m: Manifest, r: Receipt, t: IngestClock, io: IngestIo, k: nat)
    requires ReadyToIngest(base, s, m) && HasReceipt(Run(s, Cut(FinalizePlan(s, m, r, t, io).acts, k)))
    ensures var m' := Current(Run(s, Cut(FinalizePlan(s, m, r, t, io).acts, k))).value;
            m'.ingestResult.Some? && SameReceipt(m'.ingestResult.value, Published(m, r, t).ingestResult.value)
  {
    PublishBeforeDelete(base, s, m, r, t, io, k);
    if Fallback(s).Some? {
      FallbackIsOlder(base, s);
    }
    hide FinalizePlan, Run, Good;
  }

  lemma FinalizeStaysGood(
    base: Manifest, s: Store, m: Manifest, r: Receipt, t: IngestClock, io: IngestIo, k: nat)
    requires PreparedBase(base) && ReadyToIngest(base, s, m) && WellFormedReceipt(r) && ReceiptOutlives(base, t.terminal)
    ensures var s' := Run(s, Cut(FinalizePlan(s, m, r, t, io).acts, k));
            Good(base, s') && s'.log == s.log
  {
    CurrentIsNewest(base, s);
    hide FinalizePlan, Run;
    FinalizeIsGood(base, s, m, r, t, io);
    GoodIsKept(base, s, FinalizePlan(s, m, r, t, io).acts, k);
    FinalizeCallsNoLibrary(s, m, r, t, io);
    LogIsKept(s, Cut(FinalizePlan(s, m, r, t, io).acts, k));
  }

  lemma WriteCallsNoLibrary(s: Store, m: Manifest, io: WriteIo)
    ensures forall a | a in WritePlan(s, m, io).acts :: !a.Library?
  {
  }

  lemma FinalizeCallsNoLibrary(s: Store, m: Manifest, r: Receipt, t: IngestClock, io: IngestIo)
    ensures forall a | a in FinalizePlan(s, m, r, t, io).acts :: !a.Library?
  {
    hide WritePlan, Written;
    var m1 := Published(m, r, t);
    WriteCallsNoLibrary(s, m1, io.first);
    WriteCallsNoLibrary(Written(s, m1, io.first), Recorded(m1, io.removeFinal), io.second);
  }

  lemma {:induction false} LogIsKept(s: Store, acts: seq<Act>)
    requires forall a | a in acts :: !a.Library?
    ensures Run(s, acts).log == s.log
    decreases |acts|
  {
    if acts != [] {
      assert acts[0] in acts;
      LogIsKept(Apply(s, acts[0]), acts[1..]);
    }
  }

  lemma PublishingCalls(s: Store, m: Manifest, io: WriteIo)
    ensures var p := WritePlan(s, m, io);
            && (!p.reply ==> Publish !in p.acts)
            && (p.reply && s.primary.Absent? ==> p.acts == [RemoveTmp, CreateTmp, FillTmp(m), Publish])
            && (p.reply && !s.primary.Absent? ==>
                 p.acts == [RemoveTmp, CreateTmp, FillTmp(m), RemoveBackup, Rotate, Publish]
                           + if io.dropBackup then [RemoveBackup] else [])
  {
  }

  // Of the calls of a manifest write, the one that renames it into place is the last or the last but one.
  lemma WriteUpToPublish(s: Store, m: Manifest, io: WriteIo, k: nat)
    requires Publish in Cut(WritePlan(s, m, io).acts, k)
    ensures WritePlan(s, m, io).reply
    ensures var s' := Run(s, Cut(WritePlan(s, m, io).acts, k)); s'.tmp.Absent? && s'.primary == Valid(m)
  {
    hide WritePlan, Run;
    var acts := WritePlan(s, m, io).acts;
    PublishingCalls(s, m, io);
    WriteWalk((x, a) => true, s, m, io);
    SuccessfulWriteIsVisible(s, m, io);
    if k < |acts| {
      assert acts == Cut(acts, k) + [RemoveBackup];
      RunSnoc(s, Cut(acts, k), RemoveBackup);
    } else {
      assert Cut(acts, k) == acts;
    }
  }

  // The first write, cut short, and what follows once it is complete.
  lemma CutOfFinalize(s: Store, m: Manifest, r: Receipt, t: IngestClock, io: IngestIo, k: nat)
    ensures var m1 := Published(m, r, t);
            var w1 := WritePlan(s, m1, io.first);
            var acts := Cut(FinalizePlan(s, m, r, t, io).acts, k);
            if k <= |w1.acts| || !w1.reply then acts == Cut(w1.acts, k)
            else
              acts == w1.acts + Cut(CleanupActs(m1, m1.ingestResult.value, io)
                                    + WritePlan(Written(s, m1, io.first), Recorded(m1, io.removeFinal), io.second).acts,
                                    k - |w1.acts|)
  {
    hide WritePlan, Written;
  }

  lemma InPlace(base: Manifest, s: Store, m: Manifest, r: Receipt, t: IngestClock, io: IngestIo, k: nat)
    requires ReadyToIngest(base, s, m) && Publish in Cut(FinalizePlan(s, m, r, t, io).acts, k)
    ensures HasOwnReceipt(Run(s, Cut(FinalizePlan(s, m, r, t, io).acts, k)))
  {
    var m1 := Published(m, r, t);
    var w1 := WritePlan(s, m1, io.first).acts;
    CutOfFinalize(s, m, r, t, io, k);
    hide WritePlan, Written, Run, Good, FinalizePlan, CleanupActs, Cut;
    if k <= |w1| || !WritePlan(s, m1, io.first).reply {
      WriteUpToPublish(s, m1, io.first, k);
    } else {
      var s1 := Written(s, m1, io.first);
      var cleanup := CleanupActs(m1, m1.ingestResult.value, io);
      SuccessfulWriteIsVisible(s, m1, io.first);
      WriteWalk((x, a) => true, s, m1, io.first);
      CleanupLength(m1, m1.ingestResult.value, io);
      CleanupKeepsReceipt(s1, cleanup, Recorded(m1, io.removeFinal), io.second, k - |w1|);
      var w2 := WritePlan(s1, Recorded(m1, io.removeFinal), io.second).acts;
      RunConcat(s, w1, Cut(cleanup + w2, k - |w1|));
    }
  }

  lemma CleanupLength(m: Manifest, r: Receipt, io: IngestIo)
    ensures var cleanup := CleanupActs(m, r, io);
            |cleanup| <= 1 && (cleanup != [] ==> cleanup[0].RemoveFile?)
  {
  }

  // ------------------------------------------------------------------ once it has answered --

  ghost predicate Sole(r: Receipt, slot: Slot) {
    slot.Valid? ==> slot.m.status.Ingested? && slot.m.ingestResult.Some? && SameReceipt(slot.m.ingestResult.value, r)
  }

  // No manifest is left but the receipt: nothing that depends on a clock.
  ghost predicate OneReceipt(r: Receipt, s: Store) {
    Sole(r, s.tmp) && Sole(r, s.primary) && Sole(r, s.backup)
  }

  ghost function OneReceiptActs(r: Receipt): (Store, Act) -> bool {
    (s: Store, a: Act) => !a.Library? && (a.FillTmp? ==> Sole(r, Valid(a.m)))
  }

  lemma {:induction false} RemovalsAreAllowed(r: Receipt, s: Store, acts: seq<Act>)
    requires forall a | a in acts :: a.RemoveFile?
    ensures Along(OneReceiptActs(r), s, acts) && SameRegister(s, Run(s, acts))
    decreases |acts|
  {
    if acts != [] {
      assert acts[0] in acts;
      RemovalsAreAllowed(r, Apply(s, acts[0]), acts[1..]);
    }
  }

  lemma CleanupLeavesOne(r: Receipt, s: Store, cleanup: seq<Act>, m: Manifest, io: WriteIo)
    requires Sole(r, Valid(m)) && forall a | a in cleanup :: a.RemoveFile?
    ensures Along(OneReceiptActs(r), s, cleanup + WritePlan(s, m, io).acts)
  {
    hide Run, WritePlan, Sole;
    RemovalsAreAllowed(r, s, cleanup);
    SameRegisterSameWrite(s, Run(s, cleanup), m, io);
    WriteWalk(OneReceiptActs(r), Run(s, cleanup), m, io);
    AlongConcat(OneReceiptActs(r), s, cleanup, WritePlan(s, m, io).acts);
  }

  lemma ReplayLeavesOne(r: Receipt, s: Store, m: Manifest, io: IngestIo)
    requires Sole(r, Valid(m))
    ensures Along(OneReceiptActs(r), s, ReplayPlan(s, m, io).acts)
    ensures ReplayPlan(s, m, io).reply.Ok? ==> SameReceipt(ReplayPlan(s, m, io).reply.value, r)
  {
    hide WritePlan;
    var stored := m.ingestResult.value;
    if !stored.retainedSourceFile && !stored.deletedStagedFile {
      CleanupLeavesOne(r, s, CleanupActs(m, stored, io),
                       m.(ingestResult := Some(stored.(deletedStagedFile := io.removeFinal))), io.first);
    }
  }

  lemma SweepLeavesOne(id: string, r: Receipt, s: Store, now: int, removals: nat)
    ensures Along(OneReceiptActs(r), s, SweepPlan(s, id, now, removals).acts)
  {
    if SweepPlan(s, id, now, removals).acts != [] {
      hide RemovalActs;
      RemovalWalk(OneReceiptActs(r), s, Current(s).value);
      AlongCut(OneReceiptActs(r), s, RemovalActs(Current(s).value), removals);
    }
  }

  lemma OperationLeavesOne(id: string, hash: Hash, r: Receipt, s: Store, op: Op)
    requires OneReceipt(r, s)
    ensures var p := PlanOf(s, id, hash, op);
            && Along(OneReceiptActs(r), s, p.acts)
            && (p.reply.IngestDone? && p.reply.ingest.Ok? ==> SameReceipt(p.reply.ingest.value, r))
  {
    hide ReplayPlan, FinalizePlan, LibraryPlan, SweepPlan, AppendActs, CommitRefusal, CommitActs, OneReceiptActs;
    match op
    case Append(req, now, later, io) =>
    case Commit(requested, now, later, io) =>
    case Ingest(req, lib, clock, io) =>
      if Current(s).Some? { ReplayLeavesOne(r, s, Current(s).value, io); }
    case Abort(now, io) =>
    case Sweep(now, removals) => SweepLeavesOne(id, r, s, now, removals);
    case Status(_) =>
  }

  lemma OneReceiptIsKept(r: Receipt, s: Store, acts: seq<Act>, k: nat)
    requires OneReceipt(r, s) && Along(OneReceiptActs(r), s, acts)
    ensures OneReceipt(r, Run(s, Cut(acts, k))) && Run(s, Cut(acts, k)).log == s.log
  {
    Preserved(t => OneReceipt(r, t) && t.log == s.log, OneReceiptActs(r), s, acts, k);
  }

  // From such a store no run of operations, at whatever clock readings, writes to the library again, and
  // every successful ingest answers with the one receipt.
  lemma {:induction false} ForGood(base: Manifest, hash: Hash, r: Receipt, s: Store, events: seq<Event>)
    requires OneReceipt(r, s)
    ensures AfterAll(s, base.uploadId, hash, events).log == s.log
    ensures RepliesAgree(s, base, hash, r, events)
    decreases |events|
  {
    if events != [] {
      var e := events[0];
      hide PlanOf, Run;
      OperationLeavesOne(base.uploadId, hash, r, s, e.op);
      OneReceiptIsKept(r, s, PlanOf(s, base.uploadId, hash, e.op).acts, e.k);
      ForGood(base, hash, r, After(s, base.uploadId, hash, e), events[1..]);
    }
  }

  lemma WrittenTwice(s: Store, s1: Store, s2: Store, m1: Manifest, m2: Manifest, r: Receipt, first: WriteIo, second: WriteIo)
    requires Sole(r, Valid(m1)) && Sole(r, Valid(m2))
    requires WritePlan(s, m1, first).reply && s1 == Written(s, m1, first) && SameRegister(s1, s2)
    requires WritePlan(s2, m2, second).reply
    ensures OneReceipt(r, Written(s2, m2, second))
  {
  }

  lemma FinalizeLeavesOne(s: Store, m: Manifest, r: Receipt, t: IngestClock, io: IngestIo)
    requires FinalizePlan(s, m, r, t, io).reply.Ok?
    ensures OneReceipt(FinalizePlan(s, m, r, t, io).reply.value, Run(s, FinalizePlan(s, m, r, t, io).acts))
  {
    hide Run, WritePlan, Written, OneReceipt;
    var m1 := Published(m, r, t);
    var m2 := Recorded(m1, io.removeFinal);
    var w1 := WritePlan(s, m1, io.first).acts;
    var s1 := Written(s, m1, io.first);
    var cleanup := CleanupActs(m1, m1.ingestResult.value, io);
    RemovalsAreAllowed(r, s1, cleanup);
    var s2 := Run(s1, cleanup);
    SameRegisterSameWrite(s1, s2, m2, io.second);
    var w2 := WritePlan(s1, m2, io.second).acts;
    WrittenTwice(s, s1, s2, m1, m2, m2.ingestResult.value, io.first, io.second);
    WriteWalk((x, a) => true, s, m1, io.first);
    WriteWalk((x, a) => true, s2, m2, io.second);
    RunConcat(s1, cleanup, w2);
    RunConcat(s, w1, cleanup + w2);
  }

  // A first ingest that answers Ok leaves nothing but its receipt.
  lemma FirstIngestLeavesOne(
    s: Store, id: string, req: IngestRequest, lib: LibraryAnswers, t: IngestClock, io: IngestIo)
    requires Current(s).Some? && !Current(s).value.status.Ingested?
    requires IngestPlan(s, id, req, lib, t, io).reply.Ok?
    ensures var p := IngestPlan(s, id, req, lib, t, io);
            OneReceipt(p.reply.value, Run(s, p.acts))
  {
    hide FinalizePlan, LibraryPlan, Run, OneReceipt;
    var m := Current(s).value;
    var l := LibraryPlan(req, lib);
    LibraryActsOutside(req, lib);
    assert forall a | a in l.acts :: Outside(a);
    OutsideLeavesRegister(s, l.acts);
    var s0 := Run(s, l.acts);
    FinalizeOnSameRegister(s, s0, m, l.reply.value, t, io);
    FinalizeLeavesOne(s0, m, l.reply.value, t, io);
    RunConcat(s, l.acts, FinalizePlan(s0, m, l.reply.value, t, io).acts);
  }

  lemma SettledIsClosed(base: Manifest, s: Store, m: Manifest, now: int)
    requires Good(base, s) && Current(s) == Some(m) && m.status.Ingested? && m.ingestResult.Some?
    requires m.ingestResult.value.retainedSourceFile || m.ingestResult.value.deletedStagedFile
    ensures Closed(m.ingestResult.value.(idempotentReplay := true), now, s)
  {
    CurrentIsNewest(base, s);
  }

  lemma StillOlder(s: Store, t: Store, m: Manifest, removed: bool)
    requires SameRegister(s, t) && Older(s.primary, Valid(m)) && Older(s.backup, Valid(m))
    requires m.status.Ingested? && m.ingestResult.Some?
    ensures var r := m.ingestResult.value;
            var m' := m.(ingestResult := Some(r.(deletedStagedFile := removed)));
            Older(t.primary, Valid(m')) && Older(t.backup, Valid(m'))
  {
  }

  // So does a repeated one, even when the receipt that it found was in tmp alone.
  lemma ReplayCloses(base: Manifest, s: Store, m: Manifest, now: int, io: IngestIo)
    requires Good(base, s) && Current(s) == Some(m) && m.status.Ingested? && ReplayPlan(s, m, io).reply.Ok?
    ensures var p := ReplayPlan(s, m, io);
            Closed(p.reply.value, now, Run(s, p.acts))
  {
    CurrentIsNewest(base, s);
    var r := m.ingestResult.value;
    hide Run, WritePlan, Good, Sealed, Held, Written, Older, Current, CleanupActs;
    if r.retainedSourceFile || r.deletedStagedFile {
      SettledIsClosed(base, s, m, now);
      NothingRun(s);
    } else {
      var m' := m.(ingestResult := Some(r.(deletedStagedFile := io.removeFinal)));
      CleanedAndWritten(base, s, m, m', io);
      var t := Run(s, CleanupActs(m, r, io));
      StillOlder(s, t, m, io.removeFinal);
      WrittenIsSealed(base, t, m', m'.ingestResult.value.(idempotentReplay := true), now, io.first);
    }
  }

  lemma CleanedAndWritten(base: Manifest, s: Store, m: Manifest, m': Manifest, io: IngestIo)
    requires Good(base, s) && m.ingestResult.Some?
    ensures var t := Run(s, CleanupActs(m, m.ingestResult.value, io));
            && SameRegister(s, t) && Good(base, t) && WritePlan(t, m', io.first) == WritePlan(s, m', io.first)
            && Run(s, CleanupActs(m, m.ingestResult.value, io) + WritePlan(s, m', io.first).acts)
               == Written(t, m', io.first)
  {
    var cleanup := CleanupActs(m, m.ingestResult.value, io);
    assert cleanup == [] || cleanup == [cleanup[0]] + [];
    if cleanup != [] { AlongCons((x, a) => true, s, cleanup[0], []); }
    var t := Run(s, cleanup);
    SameRegisterSameWrite(s, t, m', io.first);
    hide WritePlan, Good, Written;
    RunConcat(s, cleanup, WritePlan(s, m', io.first).acts);
    WriteWalk((x, a) => true, t, m', io.first);
  }

  lemma WrittenIsSealed(base: Manifest, t: Store, m': Manifest, r: Receipt, now: int, io: WriteIo)
    requires Good(base, t) && m'.status.Ingested? && m'.ingestResult.Some? && SameReceipt(m'.ingestResult.value, r)
    requires Older(t.primary, Valid(m')) && Older(t.backup, Valid(m'))
    requires WritePlan(t, m', io).reply
    ensures Sealed(r, now, Written(t, m', io))
  {
  }

  // What a repeated ingest needs of the clocks of the operations around it: that a terminal receipt
  // outlives the upload and that the clock does not go back afterwards.
  ghost predicate ClocksRun(base: Manifest, events: seq<Event>, e: Event, later: seq<Event>) {
    ClocksOk(base, events) && Chronological(FirstReading(e.op), later)
  }

  // An ingest that runs to its end and answers Ok, first or repeated, is the last to touch the library:
  // every later run of operations leaves the log alone and repeats that answer. After a first ingest
  // that holds from any store and at any clock readings.
  lemma IngestIsFinal(base: Manifest, hash: Hash, s: Store, e: Event, later: seq<Event>)
    requires e.op.Ingest? && Complete(s, base.uploadId, hash, e)
    requires PlanOf(s, base.uploadId, hash, e.op).reply.ingest.Ok?
    requires HasReceipt(s) ==> PreparedBase(base) && Good(base, s) && ClocksRun(base, [e] + later, e, later)
    ensures var s' := After(s, base.uploadId, hash, e);
            var r := PlanOf(s, base.uploadId, hash, e.op).reply.ingest.value;
            AfterAll(s', base.uploadId, hash, later).log == s'.log && RepliesAgree(s', base, hash, r, later)
  {
    hide ReplayPlan, LibraryPlan, FinalizePlan, Run, OneReceipt, Good;
    var Ingest(req, lib, t, io) := e.op;
    var p := IngestPlan(s, base.uploadId, req, lib, t, io);
    var s' := After(s, base.uploadId, hash, e);
    assert Cut(p.acts, e.k) == p.acts;
    if HasReceipt(s) {
      assert e in [e] + later && forall x | x in later :: x in [e] + later;
      EventIsGood(base, hash, s, e);
      ReplayCloses(base, s, Current(s).value, t.now, io);
      AtMostOneIngest(base, hash, p.reply.value, t.now, s', later);
    } else {
      FirstIngestLeavesOne(s, base.uploadId, req, lib, t, io);
      ForGood(base, hash, p.reply.value, s', later);
    }
  }

  // From prepare on: once some ingest of the upload has answered Ok, the library is never written for it
  // again, whatever happened before and happens later; and all later ingests that answer Ok give the
  // same receipt.
  lemma IngestedOnce(
    base: Manifest, hash: Hash, s0: Store, before: seq<Event>, e: Event, later: seq<Event>)
    requires PreparedBase(base) && Prepared(base, s0) && e.op.Ingest?
    requires var s := AfterAll(s0, base.uploadId, hash, before);
             && Complete(s, base.uploadId, hash, e) && PlanOf(s, base.uploadId, hash, e.op).reply.ingest.Ok?
             && (HasReceipt(s) ==> ClocksRun(base, before + [e] + later, e, later))
    ensures var s := AfterAll(s0, base.uploadId, hash, before);
            var r := PlanOf(s, base.uploadId, hash, e.op).reply.ingest.value;
            var s' := After(s, base.uploadId, hash, e);
            && AfterAll(s0, base.uploadId, hash, before + [e] + later).log == s'.log
            && RepliesAgree(s', base, hash, r, later)
  {
    hide PlanOf, Good, Prepared, Complete, HasReceipt, RepliesAgree, After, ClockOk, Chronological;
    var s := AfterAll(s0, base.uploadId, hash, before);
    var all := before + [e] + later;
    if HasReceipt(s) {
      assert forall x | x in before :: x in all;
      assert forall x | x in [e] + later :: x in all;
      PreparedIsGood(base, s0);
      RunsAreGood(base, hash, s0, before);
    }
    IngestIsFinal(base, hash, s, e, later);
    AfterAllConcat(s0, base.uploadId, hash, before, [e] + later);
    assert all == before + ([e] + later);
    assert ([e] + later)[1..] == later;
  }

  lemma {:induction false} LibraryRun(s: Store, acts: seq<Act>)
    requires forall a | a in acts :: a.Library?
    ensures Run(s, acts).(log := s.log) == s
    ensures |Run(s, acts).log| == |s.log| + |acts|
    decreases |acts|
  {
    if acts != [] {
      assert acts[0] in acts;
      LibraryRun(Apply(s, acts[0]), acts[1..]);
    }
  }

  // The run behind that condition: an ingest that dies once its receipt is complete in tmp, followed
  // by a retry that dies once it has deleted the staged file and that tmp, leaves the upload
  // committed, without its bytes and without a receipt, although the library was written.
  lemma TwoCrashesCanLoseTheReceipt(
    base: Manifest, hash: Hash, s: Store, m: Manifest, req: IngestRequest, lib: LibraryAnswers, t: IngestClock)
    requires ReadyToIngest(base, s, m) && !s.tmp.Valid? && !IsExpiredAt(m, t.now) && !req.retainSourceFile
    requires lib.chunkConfigValid && LibraryPlan(req, lib).reply.Ok?
    ensures exists j: nat, k: nat ::
              var ingest := Ingest(req, lib, t, ALL_WELL);
              var s1 := After(s, base.uploadId, hash, Event(ingest, j));
              var s2 := After(s1, base.uploadId, hash, Event(ingest, k));
              && Current(s1) == Some(Published(m, LibraryPlan(req, lib).reply.value, t))
              && Current(s2) == Some(m) && m.sanitizedFilename !in s2.files && |s2.log| > |s.log|
  {
    var m1 := Published(m, LibraryPlan(req, lib).reply.value, t);
    var ingest := Ingest(req, lib, t, ALL_WELL);
    CurrentIsNewest(base, s);
    var j := FirstCrash(base, hash, s, m, req, lib, t);
    var s1 := After(s, base.uploadId, hash, Event(ingest, j));
    SecondCrash(base, hash, s1, m1, ingest);
    var s2 := After(s1, base.uploadId, hash, Event(ingest, 2));
    assert Current(s2) == Current(s);
  }

  lemma FirstCrash(
    base: Manifest, hash: Hash, s: Store, m: Manifest, req: IngestRequest, lib: LibraryAnswers, t: IngestClock)
    returns (j: nat)
    requires ReadyToIngest(base, s, m) && m.uploadId == base.uploadId && !IsExpiredAt(m, t.now)
    requires lib.chunkConfigValid && LibraryPlan(req, lib).reply.Ok?
    ensures var s1 := After(s, base.uploadId, hash, Event(Ingest(req, lib, t, ALL_WELL), j));
            && s1.(log := s.log) == s.(tmp := Valid(Published(m, LibraryPlan(req, lib).reply.value, t)))
            && |s1.log| > |s.log|
  {
    var l := LibraryPlan(req, lib);
    var m1 := Published(m, l.reply.value, t);
    var f := FinalizePlan(s, m, l.reply.value, t, ALL_WELL).acts;
    hide Run, FinalizePlan, LibraryPlan, WritePlan, Written;
    assert |l.acts| > 0 by {
      LibraryWrites(req, lib);
    }
    assert PlanOf(s, base.uploadId, hash, Ingest(req, lib, t, ALL_WELL)).acts == l.acts + f;
    j := |l.acts| + 3;
    FinalizeStarts(s, m, l.reply.value, t);
    hide PlanOf, ReadyToIngest;
    LibraryActsOutside(req, lib);
    LibraryRun(s, l.acts);
    var s0 := Run(s, l.acts);
    var filled := [RemoveTmp] + ([CreateTmp] + ([FillTmp(m1)] + []));
    assert Cut(l.acts + f, j) == l.acts + filled;
    RunConcat(s, l.acts, filled);
    FillWalk(s0, m1);
  }

  lemma LibraryWrites(req: IngestRequest, lib: LibraryAnswers)
    requires LibraryPlan(req, lib).reply.Ok?
    ensures LibraryPlan(req, lib).acts != []
  {
  }

  lemma FinalizeStarts(s: Store, m: Manifest, r: Receipt, t: IngestClock)
    ensures var f := FinalizePlan(s, m, r, t, ALL_WELL).acts;
            |f| >= 3 && f[..3] == [RemoveTmp] + ([CreateTmp] + ([FillTmp(Published(m, r, t))] + []))
  {
  }

  lemma FillWalk(s: Store, m: Manifest)
    ensures Run(s, [RemoveTmp] + ([CreateTmp] + ([FillTmp(m)] + []))) == s.(tmp := Valid(m))
  {
    AlongCons((x, a) => true, s, RemoveTmp, [CreateTmp] + ([FillTmp(m)] + []));
    AlongCons((x, a) => true, s.(tmp := Absent), CreateTmp, [FillTmp(m)] + []);
    AlongCons((x, a) => true, s.(tmp := Garbage), FillTmp(m), []);
  }

  lemma SecondCrash(base: Manifest, hash: Hash, s1: Store, m1: Manifest, ingest: Op)
    requires s1.tmp == Valid(m1) && m1.uploadId == base.uploadId && m1.status.Ingested? && m1.ingestResult.Some?
    requires !m1.ingestResult.value.retainedSourceFile && !m1.ingestResult.value.deletedStagedFile
    requires ingest.Ingest? && ingest.ingestIo == ALL_WELL
    ensures After(s1, base.uploadId, hash, Event(ingest, 2))
            == s1.(tmp := Absent, files := s1.files - {m1.sanitizedFilename})
  {
    FirstTwoCalls(s1, m1);
  }
}
