/**
 What a receipt says of the Memory Library: exactly the writes that were made for it.
 */
module LibraryReceipts {
  import opened Outcomes
  import opened UploadStore
  import opened ManifestRegister
  import opened UploadPlans
  import opened UploadInvariant
  import opened UploadRuns
  import opened UploadIngest

  // The library writes that a receipt vouches for, in the order in which they are made.
  function WritesOf(r: Receipt): seq<LibraryWrite> {
    (if r.asset.Some? then [StoredAsset(r.asset.value)] else [])
    + ((if r.report.Some? then [IngestedDocument(r.report.value)] else [])
       + ((if r.link.Some? then [LinkedAsset(r.link.value)] else [])
          + (if r.extraction.Some? then [RecordedExtraction(r.extraction.value)] else [])))
  }

  function Calls(writes: seq<LibraryWrite>): seq<Act> {
    if writes == [] then [] else [Library(writes[0])] + Calls(writes[1..])
  }

  // An ingest keeps the original when the request asks for it, or is silent and the library does so by
  // default.
  predicate KeepsOriginal(req: IngestRequest, lib: LibraryAnswers) {
    match req.storeOriginalFile
    case Some(wanted) => wanted
    case None => lib.storeByDefault
  }

  lemma {:induction false} CallsConcat(a: seq<LibraryWrite>, b: seq<LibraryWrite>)
    ensures Calls(a + b) == Calls(a) + Calls(b)
    decreases |a|
  {
    if a == [] {
      assert a + b == b;
    } else {
      assert (a + b)[1..] == a[1..] + b;
      CallsConcat(a[1..], b);
    }
  }

  lemma {:induction false} CallsHold(writes: seq<LibraryWrite>, w: LibraryWrite)
    ensures Library(w) in Calls(writes) <==> w in writes
    decreases |writes|
  {
    if writes != [] {
      CallsHold(writes[1..], w);
    }
  }

  lemma CallsOfReceipt(r: Receipt)
    ensures Calls(WritesOf(r)) ==
            (if r.asset.Some? then [Library(StoredAsset(r.asset.value))] else [])
            + ((if r.report.Some? then [Library(IngestedDocument(r.report.value))] else [])
               + ((if r.link.Some? then [Library(LinkedAsset(r.link.value))] else [])
                  + (if r.extraction.Some? then [Library(RecordedExtraction(r.extraction.value))] else [])))
  {
    var asset := if r.asset.Some? then [StoredAsset(r.asset.value)] else [];
    var document := if r.report.Some? then [IngestedDocument(r.report.value)] else [];
    var link := if r.link.Some? then [LinkedAsset(r.link.value)] else [];
    var extraction := if r.extraction.Some? then [RecordedExtraction(r.extraction.value)] else [];
    CallsConcat(asset, document + (link + extraction));
    CallsConcat(document, link + extraction);
    CallsConcat(link, extraction);
  }

  // The library calls of an ingest that gets its receipt are those that the receipt vouches for, no more
  // and no fewer.
  lemma ReceiptTellsTheWrites(req: IngestRequest, lib: LibraryAnswers)
    requires LibraryPlan(req, lib).reply.Ok?
    ensures var p := LibraryPlan(req, lib);
            var r := p.reply.value;
            && p.acts == Calls(WritesOf(r))
            && (forall x :: Library(StoredAsset(x)) in p.acts <==> r.asset == Some(x))
            && (forall x :: Library(IngestedDocument(x)) in p.acts <==> r.report == Some(x))
            && (forall x :: Library(LinkedAsset(x)) in p.acts <==> r.link == Some(x))
            && (forall x :: Library(RecordedExtraction(x)) in p.acts <==> r.extraction == Some(x))
  {
    ReceiptCalls(req, lib);
    hide LibraryPlan, WritesOf, Calls;
    var r := LibraryPlan(req, lib).reply.value;
    WritesHold(r);
    forall w: LibraryWrite ensures Library(w) in Calls(WritesOf(r)) <==> w in WritesOf(r) {
      CallsHold(WritesOf(r), w);
    }
  }

  lemma WritesHold(r: Receipt)
    ensures forall x :: StoredAsset(x) in WritesOf(r) <==> r.asset == Some(x)
    ensures forall x :: IngestedDocument(x) in WritesOf(r) <==> r.report == Some(x)
    ensures forall x :: LinkedAsset(x) in WritesOf(r) <==> r.link == Some(x)
    ensures forall x :: RecordedExtraction(x) in WritesOf(r) <==> r.extraction == Some(x)
  {
  }

  lemma ReceiptCalls(req: IngestRequest, lib: LibraryAnswers)
    requires LibraryPlan(req, lib).reply.Ok?
    ensures LibraryPlan(req, lib).acts == Calls(WritesOf(LibraryPlan(req, lib).reply.value))
  {
    hide Calls, WritesOf;
    CallsOfReceipt(LibraryPlan(req, lib).reply.value);
  }

  // Which writes those are, that each is the library's own answer, and that the summary of the document is
  // the library's.
  lemma ReceiptTellsTheAnswers(req: IngestRequest, lib: LibraryAnswers)
    requires LibraryPlan(req, lib).reply.Ok?
    ensures var r := LibraryPlan(req, lib).reply.value;
            && (r.asset.Some? <==> KeepsOriginal(req, lib)) && (r.asset.Some? ==> r.asset == lib.asset)
            && (r.report.Some? <==> lib.outcome.Parsed? && (KeepsOriginal(req, lib) ==> lib.documentAllowed))
            && (r.report.Some? ==> r.report == Some(lib.outcome.report))
            && (r.link.Some? <==> r.report.Some? && r.asset.Some?) && (r.link.Some? ==> r.link == lib.link)
            && (r.extraction.Some? <==> r.asset.Some?) && (r.extraction.Some? ==> r.extraction == lib.extraction)
    ensures var r := LibraryPlan(req, lib).reply.value;
            match r.report
            case Some(x) =>
              && r.documentId == Some(x.docId) && r.chunksPersisted == x.chunks && r.bytesIngested == x.bytes
              && r.deduped == x.deduped && r.extractionStatus == "extracted" && r.extractionError.None?
            case None =>
              && r.documentId.None? && r.chunksPersisted == 0 && r.bytesIngested == 0 && !r.deduped
              && r.extractionStatus ==
                 (if lib.documentAllowed && !lib.outcome.hasNoText then "failed" else "stored_unparsed")
              && r.extractionError.Some? && (lib.documentAllowed ==> r.extractionError == Some(lib.outcome.message))
    ensures var r := LibraryPlan(req, lib).reply.value;
            && r.storedOriginalFile == KeepsOriginal(req, lib) && r.retainedSourceFile == req.retainSourceFile
            && !r.deletedStagedFile && !r.idempotentReplay
  {
  }

  // When an ingest gets as far as a receipt: the library has done all that was asked of it.
  lemma ReceiptIff(req: IngestRequest, lib: LibraryAnswers)
    ensures LibraryPlan(req, lib).reply.Ok? <==>
            if KeepsOriginal(req, lib) then
              && lib.asset.Some? && lib.extraction.Some?
              && (lib.documentAllowed && lib.outcome.Parsed? ==> lib.link.Some?)
            else lib.outcome.Parsed?
    ensures LibraryPlan(req, lib).reply.Err? ==> LibraryPlan(req, lib).reply.error == LibraryError
  {
  }

  lemma {:induction false} CallsRun(s: Store, writes: seq<LibraryWrite>)
    ensures Run(s, Calls(writes)) == s.(log := s.log + writes)
    decreases |writes|
  {
    if writes == [] {
      assert s.log + writes == s.log;
    } else {
      CallsRun(Apply(s, Library(writes[0])), writes[1..]);
      AlongCons((t, a) => true, s, Library(writes[0]), Calls(writes[1..]));
      assert s.log + [writes[0]] + writes[1..] == s.log + writes;
    }
  }

  // A first ingest that runs to its end and answers Ok has written to the library exactly what its
  // receipt says.
  lemma IngestWritesItsReceipt(
    s: Store, id: string, req: IngestRequest, lib: LibraryAnswers, t: IngestClock, io: IngestIo)
    requires Current(s).Some? && !Current(s).value.status.Ingested?
    requires IngestPlan(s, id, req, lib, t, io).reply.Ok?
    ensures var p := IngestPlan(s, id, req, lib, t, io);
            Run(s, p.acts).log == s.log + WritesOf(p.reply.value)
  {
    hide FinalizePlan, LibraryPlan, Run;
    var m := Current(s).value;
    var l := LibraryPlan(req, lib);
    var r := l.reply.value;
    var f := FinalizePlan(s, m, r, t, io);
    ReceiptTellsTheWrites(req, lib);
    CallsRun(s, WritesOf(r));
    FinalizeCallsNoLibrary(s, m, r, t, io);
    LogIsKept(Run(s, l.acts), f.acts);
    RunConcat(s, l.acts, f.acts);
    FinalReceipt(s, m, r, t, io);
  }

  lemma FinalReceipt(s: Store, m: Manifest, r: Receipt, t: IngestClock, io: IngestIo)
    requires FinalizePlan(s, m, r, t, io).reply.Ok?
    ensures WritesOf(FinalizePlan(s, m, r, t, io).reply.value) == WritesOf(r)
  {
    hide WritePlan, Written;
  }

  // ------------------------------------------------------ no receipt without its writes, ever --

  ghost predicate InLogAt(log: seq<LibraryWrite>, writes: seq<LibraryWrite>, i: nat) {
    i + |writes| <= |log| && log[i..i + |writes|] == writes
  }

  // One after another, with nothing between them
  ghost predicate InLog(log: seq<LibraryWrite>, writes: seq<LibraryWrite>) {
    exists i: nat :: InLogAt(log, writes, i)
  }

  ghost predicate BackedSlot(log: seq<LibraryWrite>, slot: Slot) {
    slot.Valid? && slot.m.status.Ingested? ==>
      slot.m.ingestResult.Some? && InLog(log, WritesOf(slot.m.ingestResult.value))
  }

  // Every receipt that recovery could surface, now or after any loss of newer manifests
  ghost predicate Backed(s: Store) {
    BackedSlot(s.log, s.tmp) && BackedSlot(s.log, s.primary) && BackedSlot(s.log, s.backup)
  }

  ghost predicate BackedAct(s: Store, a: Act) {
    a.FillTmp? ==> BackedSlot(s.log, Valid(a.m))
  }

  lemma LongerLog(log: seq<LibraryWrite>, more: seq<LibraryWrite>, writes: seq<LibraryWrite>)
    ensures InLog(log, writes) ==> InLog(log + more, writes)
    ensures InLog(log + writes, writes)
  {
    if InLog(log, writes) {
      var i: nat :| InLogAt(log, writes, i);
      assert InLogAt(log + more, writes, i);
    }
    assert InLogAt(log + writes, writes, |log|);
  }

  lemma BackedStep(s: Store, a: Act)
    requires Backed(s) && BackedAct(s, a)
    ensures Backed(Apply(s, a))
  {
    if a.Library? {
      forall slot | BackedSlot(s.log, slot) ensures BackedSlot(s.log + [a.w], slot) {
        if slot.Valid? && slot.m.status.Ingested? {
          LongerLog(s.log, [a.w], WritesOf(slot.m.ingestResult.value));
        }
      }
    }
  }

  lemma BackingIsKept(s: Store, acts: seq<Act>, k: nat)
    requires Backed(s) && Along(BackedAct, s, acts)
    ensures Backed(Run(s, Cut(acts, k)))
  {
    forall t, a | Backed(t) && BackedAct(t, a) ensures Backed(Apply(t, a)) {
      BackedStep(t, a);
    }
    Preserved(Backed, BackedAct, s, acts, k);
  }

  // Acts that write only manifests that the log backs already.
  lemma {:induction false} BackedAlong(log: seq<LibraryWrite>, s: Store, acts: seq<Act>)
    requires s.log == log
    requires forall a | a in acts :: !a.Library? && (a.FillTmp? ==> BackedSlot(log, Valid(a.m)))
    ensures Along(BackedAct, s, acts)
    decreases |acts|
  {
    if acts != [] {
      assert acts[0] in acts;
      BackedAlong(log, Apply(s, acts[0]), acts[1..]);
    }
  }

  lemma {:induction false} CallsAreBacked(s: Store, acts: seq<Act>)
    requires forall a | a in acts :: a.Library?
    ensures Along(BackedAct, s, acts)
    decreases |acts|
  {
    if acts != [] {
      assert acts[0] in acts;
      CallsAreBacked(Apply(s, acts[0]), acts[1..]);
    }
  }

  lemma WriteFillsWith(s: Store, m: Manifest, io: WriteIo)
    ensures forall a | a in WritePlan(s, m, io).acts :: !a.Library? && (a.FillTmp? ==> a.m == m)
  {
    NoFillingAfter(s, io);
    hide AfterFilling;
  }

  lemma NoFillingAfter(s: Store, io: WriteIo)
    ensures forall a | a in AfterFilling(s, io) :: !a.Library? && !a.FillTmp?
  {
  }

  // Every operation but an ingest writes only manifests without a receipt.
  lemma OthersWriteNoReceipt(s: Store, id: string, hash: Hash, op: Op)
    requires !op.Ingest?
    ensures forall a | a in PlanOf(s, id, hash, op).acts :: !a.Library? && (a.FillTmp? ==> !a.m.status.Ingested?)
  {
    hide WritePlan, LibraryPlan, FinalizePlan, BytePlan, Cut;
    if Current(s).Some? {
      var m := Current(s).value;
      match op
      case Append(req, now, later, io) =>
        BytesOutside(PART, req.bytes[..Min(io.written, |req.bytes|)]);
        WriteFillsWith(s, m.(bytesReceived := m.bytesReceived + |req.bytes|), io.write);
      case Commit(requested, now, later, io) =>
        if PART in s.files {
          WriteFillsWith(s, m.(actualSha256 := Some(hash(s.files[PART])), status := Committed), io.write);
        }
      case Abort(now, io) => WriteFillsWith(s, AbortedManifest(m, now), io.write);
      case Sweep(now, removals) => CutRemoves(m, removals);
      case _ =>
    }
  }

  lemma CutRemoves(m: Manifest, removals: nat)
    ensures forall a | a in Cut(RemovalActs(m), removals) :: !a.Library? && !a.FillTmp?
  {
  }

  lemma FinalizeFillsWith(s: Store, m: Manifest, r: Receipt, t: IngestClock, io: IngestIo)
    ensures forall a | a in FinalizePlan(s, m, r, t, io).acts :: !a.Library?
    ensures forall a | a in FinalizePlan(s, m, r, t, io).acts && a.FillTmp? ::
              a.m.ingestResult.Some? && WritesOf(a.m.ingestResult.value) == WritesOf(r)
  {
    hide WritePlan, Written;
    var m1 := Published(m, r, t);
    WriteFillsWith(s, m1, io.first);
    WriteFillsWith(Written(s, m1, io.first), Recorded(m1, io.removeFinal), io.second);
  }

  lemma ReplayIsBacked(s: Store, m: Manifest, io: IngestIo)
    requires BackedSlot(s.log, Valid(m)) && m.status.Ingested?
    ensures Along(BackedAct, s, ReplayPlan(s, m, io).acts)
  {
    var r := m.ingestResult.value;
    var m' := m.(ingestResult := Some(r.(deletedStagedFile := io.removeFinal)));
    WriteFillsWith(s, m', io.first);
    assert WritesOf(m'.ingestResult.value) == WritesOf(r);
    hide WritePlan, WritesOf, InLog;
    BackedAlong(s.log, s, ReplayPlan(s, m, io).acts);
  }

  lemma FirstIngestIsBacked(
    s: Store, m: Manifest, req: IngestRequest, lib: LibraryAnswers, t: IngestClock, io: IngestIo)
    requires LibraryPlan(req, lib).reply.Ok?
    ensures var l := LibraryPlan(req, lib);
            Along(BackedAct, s, l.acts + FinalizePlan(s, m, l.reply.value, t, io).acts)
  {
    hide LibraryPlan, FinalizePlan, Run, WritesOf, InLog;
    var l := LibraryPlan(req, lib);
    var r := l.reply.value;
    var f := FinalizePlan(s, m, r, t, io).acts;
    LibraryOnly(req, lib);
    ReceiptTellsTheWrites(req, lib);
    CallsAreBacked(s, l.acts);
    CallsRun(s, WritesOf(r));
    LongerLog(s.log, [], WritesOf(r));
    FinalizeFillsWith(s, m, r, t, io);
    BackedAlong(s.log + WritesOf(r), Run(s, l.acts), f);
    AlongConcat(BackedAct, s, l.acts, f);
  }

  lemma OperationIsBacked(s: Store, id: string, hash: Hash, op: Op)
    requires Backed(s)
    ensures Along(BackedAct, s, PlanOf(s, id, hash, op).acts)
  {
    hide BackedSlot, BackedAct, LibraryPlan, FinalizePlan, ReplayPlan;
    if op.Ingest? {
      var Ingest(req, lib, t, io) := op;
      if Current(s).Some? {
        var m := Current(s).value;
        if m.status.Ingested? {
          ReplayIsBacked(s, m, io);
        } else if LibraryPlan(req, lib).reply.Ok? {
          FirstIngestIsBacked(s, m, req, lib, t, io);
        } else {
          LibraryOnly(req, lib);
          CallsAreBacked(s, LibraryPlan(req, lib).acts);
        }
      }
    } else {
      OthersWriteNoReceipt(s, id, hash, op);
      NoReceiptIsBacked(s, PlanOf(s, id, hash, op).acts);
    }
  }

  lemma NoReceiptIsBacked(s: Store, acts: seq<Act>)
    requires forall a | a in acts :: !a.Library? && (a.FillTmp? ==> !a.m.status.Ingested?)
    ensures Along(BackedAct, s, acts)
  {
    BackedAlong(s.log, s, acts);
  }

  lemma {:induction false} RunsAreBacked(base: Manifest, hash: Hash, s: Store, events: seq<Event>)
    requires Backed(s)
    ensures Backed(AfterAll(s, base.uploadId, hash, events))
    decreases |events|
  {
    if events != [] {
      hide PlanOf, Run, Backed;
      OperationIsBacked(s, base.uploadId, hash, events[0].op);
      BackingIsKept(s, PlanOf(s, base.uploadId, hash, events[0].op).acts, events[0].k);
      RunsAreBacked(base, hash, After(s, base.uploadId, hash, events[0]), events[1..]);
    }
  }

  // From prepare on, over every run with any crashes and failures and at any clock readings: a receipt
  // that recovery could surface vouches only for what was written; and so does every receipt that an
  // ingest answers with.
  lemma ReceiptsAreBacked(base: Manifest, hash: Hash, s0: Store, events: seq<Event>)
    requires base.status.Open? && Prepared(base, s0)
    ensures Backed(AfterAll(s0, base.uploadId, hash, events))
  {
    var io: WriteIo, k: nat :| s0 == Run(EMPTY, Cut(WritePlan(EMPTY, base, io).acts, k));
    WriteFillsWith(EMPTY, base, io);
    NoReceiptIsBacked(EMPTY, WritePlan(EMPTY, base, io).acts);
    BackingIsKept(EMPTY, WritePlan(EMPTY, base, io).acts, k);
    RunsAreBacked(base, hash, s0, events);
  }

  lemma ReplayReply(s: Store, m: Manifest, io: IngestIo)
    requires m.status.Ingested? && ReplayPlan(s, m, io).reply.Ok?
    ensures m.ingestResult.Some?
    ensures WritesOf(ReplayPlan(s, m, io).reply.value) == WritesOf(m.ingestResult.value)
    ensures Run(s, ReplayPlan(s, m, io).acts).log == s.log
  {
    hide WritePlan, Run;
    var r := m.ingestResult.value;
    WriteFillsWith(s, m.(ingestResult := Some(r.(deletedStagedFile := io.removeFinal))), io.first);
    LogIsKept(s, ReplayPlan(s, m, io).acts);
  }

  lemma RepliesAreBacked(
    s: Store, id: string, req: IngestRequest, lib: LibraryAnswers, t: IngestClock, io: IngestIo)
    requires Backed(s) && IngestPlan(s, id, req, lib, t, io).reply.Ok?
    ensures var p := IngestPlan(s, id, req, lib, t, io);
            InLog(Run(s, p.acts).log, WritesOf(p.reply.value))
  {
    hide ReplayPlan, FinalizePlan, LibraryPlan, Run, InLog, WritesOf;
    var m := Current(s).value;
    if m.status.Ingested? {
      ReplayReply(s, m, io);
    } else {
      IngestWritesItsReceipt(s, id, req, lib, t, io);
      LongerLog(s.log, [], WritesOf(IngestPlan(s, id, req, lib, t, io).reply.value));
    }
  }
}
