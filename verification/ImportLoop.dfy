/**
 Importing the collected files one by one, counting what became of each.
 */
module ImportLoop {
  import opened Outcomes
  import opened ImportWalk

  const U32: nat := 0x1_0000_0000

  type u32 = x: nat | x < U32

  // u32 addition in a release build.
  function WrappingAdd(a: u32, b: nat): u32 {
    (a + b) % U32
  }

  datatype Report = Report(docId: string, chunks: nat, bytes: nat, deduped: bool)
  datatype Retained = Retained(assetId: string, deduped: bool)
  datatype Original = Original(asset: Retained, linkId: string)

  // What the library answers for one file: the document, then, when originals are kept, the asset
  // stored and linked or the error that prevented it.
  datatype Answer = Answer(document: Result<Report, string>, original: Result<Original, string>)

  datatype ImportResult = ImportResult(
    path: string,
    bytes: nat,
    docId: Option<string>,
    chunksPersisted: nat,
    bytesIngested: nat,
    deduped: bool,
    asset: Option<Retained>,
    linkId: Option<string>,
    assetError: Option<string>,
    error: Option<string>)

  datatype Summary = Summary(
    imported: nat,
    deduped: nat,
    failed: nat,
    chunksPersisted: u32,
    assetsRetained: nat,
    assetsDeduped: nat,
    assetLinks: nat,
    assetFailed: nat,
    results: seq<ImportResult>)

  function ResultOf(file: ImportFile, answer: Answer, keep: bool): ImportResult {
    match answer.document
    case Err(e) => ImportResult(file.path, file.bytes, None, 0, 0, false, None, None, None, Some(e))
    case Ok(r) =>
      ImportResult(
        file.path, file.bytes, Some(r.docId), r.chunks, r.bytes, r.deduped,
        if keep && answer.original.Ok? then Some(answer.original.value.asset) else None,
        if keep && answer.original.Ok? then Some(answer.original.value.linkId) else None,
        if keep && answer.original.Err? then Some(answer.original.error) else None,
        None)
  }

  function Count(p: ImportResult -> bool, results: seq<ImportResult>): (n: nat)
    ensures n <= |results|
  {
    if results == [] then 0
    else Count(p, results[..|results| - 1]) + if p(results[|results| - 1]) then 1 else 0
  }

  function Chunks(results: seq<ImportResult>): nat {
    if results == [] then 0 else Chunks(results[..|results| - 1]) + results[|results| - 1].chunksPersisted
  }

  lemma CountSnoc(p: ImportResult -> bool, results: seq<ImportResult>, r: ImportResult)
    ensures Count(p, results + [r]) == Count(p, results) + if p(r) then 1 else 0
    ensures Chunks(results + [r]) == Chunks(results) + r.chunksPersisted
  {
    assert (results + [r])[..|results|] == results;
  }

  predicate IsImported(r: ImportResult) { r.docId.Some? && !r.deduped }
  predicate IsDeduped(r: ImportResult) { r.docId.Some? && r.deduped }
  predicate IsFailed(r: ImportResult) { r.docId.None? }
  predicate IsRetained(r: ImportResult) { r.asset.Some? }
  predicate IsRetainedAgain(r: ImportResult) { r.asset.Some? && r.asset.value.deduped }
  predicate IsAssetFailed(r: ImportResult) { r.assetError.Some? }

  // Every counter counts the results that it names.
  ghost predicate Tallies(s: Summary) {
    && s.imported == Count(IsImported, s.results)
    && s.deduped == Count(IsDeduped, s.results)
    && s.failed == Count(IsFailed, s.results)
    && s.chunksPersisted == Chunks(s.results) % U32
    && s.assetsRetained == Count(IsRetained, s.results)
    && s.assetsDeduped == Count(IsRetainedAgain, s.results)
    && s.assetLinks == Count(IsRetained, s.results)
    && s.assetFailed == Count(IsAssetFailed, s.results)
  }

  ghost predicate OnePerFile(files: seq<ImportFile>, answers: seq<Answer>, keep: bool, results: seq<ImportResult>)
    requires |files| == |answers|
  {
    && |results| == |files|
    && forall i | 0 <= i < |files| :: results[i] == ResultOf(files[i], answers[i], keep)
  }

  const NOTHING: Summary := Summary(0, 0, 0, 0, 0, 0, 0, 0, [])

  // The counters after one more result
  function Add(s: Summary, r: ImportResult): Summary {
    Summary(
      s.imported + (if IsImported(r) then 1 else 0),
      s.deduped + (if IsDeduped(r) then 1 else 0),
      s.failed + (if IsFailed(r) then 1 else 0),
      WrappingAdd(s.chunksPersisted, r.chunksPersisted),
      s.assetsRetained + (if IsRetained(r) then 1 else 0),
      s.assetsDeduped + (if IsRetainedAgain(r) then 1 else 0),
      s.assetLinks + (if IsRetained(r) then 1 else 0),
      s.assetFailed + (if IsAssetFailed(r) then 1 else 0),
      s.results + [r])
  }

  lemma TallySnoc(s: Summary, r: ImportResult)
    requires Tallies(s)
    ensures Tallies(Add(s, r))
  {
    CountSnoc(IsImported, s.results, r);
    CountSnoc(IsDeduped, s.results, r);
    CountSnoc(IsFailed, s.results, r);
    CountSnoc(IsRetained, s.results, r);
    CountSnoc(IsRetainedAgain, s.results, r);
    CountSnoc(IsAssetFailed, s.results, r);
    WrapsOnce(Chunks(s.results), r.chunksPersisted);
  }

  lemma WrapsOnce(total: nat, x: nat)
    ensures (total % U32 + x) % U32 == (total + x) % U32
  {
  }

  lemma OnePerFileNext(files: seq<ImportFile>, answers: seq<Answer>, keep: bool, results: seq<ImportResult>, i: nat)
    requires i < |files| == |answers| && OnePerFile(files[..i], answers[..i], keep, results)
    ensures OnePerFile(files[..i + 1], answers[..i + 1], keep, results + [ResultOf(files[i], answers[i], keep)])
  {
  }

  // One turn of the loop: the counters that the file and its original move, then the result.
  method ImportOne(before: Summary, file: ImportFile, answer: Answer, storeOriginalFile: bool) returns (s: Summary)
    ensures s == Add(before, ResultOf(file, answer, storeOriginalFile))
  {
    s := before;
    match answer.document {
      case Ok(report) =>
        var asset, linkId, assetError := None, None, None;
        if storeOriginalFile {
          match answer.original {
            case Ok(stored) =>
              s := s.(assetsRetained := s.assetsRetained + 1);
              if stored.asset.deduped {
                s := s.(assetsDeduped := s.assetsDeduped + 1);
              }
              s := s.(assetLinks := s.assetLinks + 1);
              asset, linkId := Some(stored.asset), Some(stored.linkId);
            case Err(e) =>
              s := s.(assetFailed := s.assetFailed + 1);
              assetError := Some(e);
          }
        }
        if report.deduped {
          s := s.(deduped := s.deduped + 1);
        } else {
          s := s.(imported := s.imported + 1);
        }
        s := s.(chunksPersisted := WrappingAdd(s.chunksPersisted, report.chunks));
        s := s.(results := s.results + [ImportResult(file.path, file.bytes, Some(report.docId), report.chunks,
                                                     report.bytes, report.deduped, asset, linkId, assetError, None)]);
      case Err(e) =>
        s := s.(failed := s.failed + 1);
        s := s.(results := s.results + [ImportResult(file.path, file.bytes, None, 0, 0, false, None, None, None,
                                                     Some(e))]);
    }
  }

  // ingest_import_files, when it is not cancelled
  method IngestImportFiles(files: seq<ImportFile>, answers: seq<Answer>, storeOriginalFile: bool)
    returns (s: Summary)
    requires |answers| == |files|
    ensures OnePerFile(files, answers, storeOriginalFile, s.results) && Tallies(s)
    ensures forall i | 0 <= i < |files| :: Tells(files[i], answers[i], storeOriginalFile, s.results[i])
  {
    assert Tallies(NOTHING) && OnePerFile([], [], storeOriginalFile, []);
    assert files[..0] == [] && answers[..0] == [];
    s := NOTHING;
    hide Tallies, OnePerFile, ResultOf;
    for i := 0 to |files|
      invariant OnePerFile(files[..i], answers[..i], storeOriginalFile, s.results)
      invariant Tallies(s)
    {
      OnePerFileNext(files, answers, storeOriginalFile, s.results, i);
      TallySnoc(s, ResultOf(files[i], answers[i], storeOriginalFile));
      s := ImportOne(s, files[i], answers[i], storeOriginalFile);
    }
    assert files[..|files|] == files && answers[..|files|] == answers;
    ResultsTell(files, answers, storeOriginalFile, s.results);
  }

  // What each result says of its file and of the library's answer
  predicate Tells(file: ImportFile, answer: Answer, keep: bool, r: ImportResult) {
    && r.path == file.path && r.bytes == file.bytes
    && (r.error.Some? <==> answer.document.Err?) && (r.docId.Some? <==> answer.document.Ok?)
    && (answer.document.Err? ==>
         && r.error.value == answer.document.error
         && r.chunksPersisted == 0 && r.bytesIngested == 0 && !r.deduped && r.asset.None? && r.assetError.None?)
    && (answer.document.Ok? ==>
         var report := answer.document.value;
         && r.docId.value == report.docId && r.chunksPersisted == report.chunks && r.bytesIngested == report.bytes
         && r.deduped == report.deduped)
    && (r.asset.Some? <==> keep && answer.document.Ok? && answer.original.Ok?) && (r.linkId.Some? <==> r.asset.Some?)
    && (r.asset.Some? ==> r.asset.value == answer.original.value.asset && r.linkId.value == answer.original.value.linkId)
    && (r.assetError.Some? <==> keep && answer.document.Ok? && answer.original.Err?)
    && (r.assetError.Some? ==> r.assetError.value == answer.original.error)
  }

  ghost function Where(p: Answer -> bool, answers: seq<Answer>): set<nat> {
    set i: nat | i < |answers| && p(answers[i])
  }

  lemma {:induction false} CountIsWhere(
    p: ImportResult -> bool, q: Answer -> bool, answers: seq<Answer>, results: seq<ImportResult>)
    requires |results| == |answers| && forall i | 0 <= i < |answers| :: p(results[i]) == q(answers[i])
    ensures Count(p, results) == |Where(q, answers)|
    decreases |answers|
  {
    if answers == [] {
      assert Where(q, answers) == {};
    } else {
      var n := |answers| - 1;
      CountIsWhere(p, q, answers[..n], results[..n]);
      assert Where(q, answers) == Where(q, answers[..n]) + if q(answers[n]) then {n} else {};
    }
  }

  predicate Ingests(a: Answer) { a.document.Ok? && !a.document.value.deduped }
  predicate Dedupes(a: Answer) { a.document.Ok? && a.document.value.deduped }
  predicate Fails(a: Answer) { a.document.Err? }
  predicate Retains(a: Answer) { a.document.Ok? && a.original.Ok? }
  predicate RetainsAgain(a: Answer) { a.document.Ok? && a.original.Ok? && a.original.value.asset.deduped }
  predicate FailsToRetain(a: Answer) { a.document.Ok? && a.original.Err? }

  lemma ResultsTell(files: seq<ImportFile>, answers: seq<Answer>, keep: bool, results: seq<ImportResult>)
    requires |answers| == |files| && OnePerFile(files, answers, keep, results)
    ensures |results| == |files| && forall i | 0 <= i < |files| :: Tells(files[i], answers[i], keep, results[i])
  {
  }

  // Every result tells its file's answer, and every counter is the number of files with such an answer;
  // without originals to keep, nothing is counted of them.
  lemma SummaryTellsTheAnswers(files: seq<ImportFile>, answers: seq<Answer>, keep: bool, s: Summary)
    requires |answers| == |files| && OnePerFile(files, answers, keep, s.results) && Tallies(s)
    ensures |s.results| == |files| && forall i | 0 <= i < |files| :: Tells(files[i], answers[i], keep, s.results[i])
    ensures s.imported == |Where(Ingests, answers)| && s.deduped == |Where(Dedupes, answers)|
    ensures s.failed == |Where(Fails, answers)|
    ensures keep ==> && s.assetsRetained == s.assetLinks == |Where(Retains, answers)|
                     && s.assetsDeduped == |Where(RetainsAgain, answers)|
                     && s.assetFailed == |Where(FailsToRetain, answers)|
    ensures !keep ==> s.assetsRetained == s.assetLinks == s.assetsDeduped == s.assetFailed == 0
  {
    ResultsTell(files, answers, keep, s.results);
    hide OnePerFile, ResultOf, Count, Where;
    CountIsWhere(IsImported, Ingests, answers, s.results);
    CountIsWhere(IsDeduped, Dedupes, answers, s.results);
    CountIsWhere(IsFailed, Fails, answers, s.results);
    if keep {
      CountIsWhere(IsRetained, Retains, answers, s.results);
      CountIsWhere(IsRetainedAgain, RetainsAgain, answers, s.results);
      CountIsWhere(IsAssetFailed, FailsToRetain, answers, s.results);
    } else {
      NoneCounted(IsRetained, s.results);
      NoneCounted(IsRetainedAgain, s.results);
      NoneCounted(IsAssetFailed, s.results);
    }
  }

  lemma {:induction false} NoneCounted(p: ImportResult -> bool, results: seq<ImportResult>)
    requires forall r | r in results :: !p(r)
    ensures Count(p, results) == 0
    decreases |results|
  {
    if results != [] {
      assert results[|results| - 1] in results;
      NoneCounted(p, results[..|results| - 1]);
    }
  }

  // The books balance, for any files and any pattern of answers.
  lemma {:induction false} BooksBalance(files: seq<ImportFile>, answers: seq<Answer>, keep: bool, results: seq<ImportResult>)
    requires |answers| == |files| && OnePerFile(files, answers, keep, results)
    ensures Count(IsImported, results) + Count(IsDeduped, results) + Count(IsFailed, results) == |files|
    ensures keep ==> Count(IsRetained, results) + Count(IsAssetFailed, results)
                     == Count(IsImported, results) + Count(IsDeduped, results)
    ensures !keep ==> Count(IsRetained, results) == Count(IsAssetFailed, results) == 0
    ensures Count(IsRetainedAgain, results) <= Count(IsRetained, results)
    decreases |files|
  {
    if files != [] {
      var n := |files| - 1;
      BooksBalance(files[..n], answers[..n], keep, results[..n]);
    }
  }
}
