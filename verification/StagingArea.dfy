/**
 The uploads of one data directory, as one process sees them: the lock of each, the operation that
 holds it, and the sweep over all of them.
 */
module StagingArea {
  import opened Outcomes
  import opened UploadStore
  import opened ManifestRegister
  import opened UploadPlans
  import opened UploadInvariant
  import opened UploadRuns
  import opened UploadAnswers
  import opened StagedUpload

  // ---------------------------------------------------------------------- the directory listing --

  function StripSuffix(s: string, suffix: string): Option<string> {
    if |suffix| <= |s| && s[|s| - |suffix|..] == suffix then Some(s[..|s| - |suffix|]) else None
  }

  // upload_id_from_manifest_entry
  function IdOf(filename: string): Option<string> {
    if StripSuffix(filename, ".json").Some? then StripSuffix(filename, ".json")
    else if StripSuffix(filename, ".json.tmp").Some? then StripSuffix(filename, ".json.tmp")
    else StripSuffix(filename, ".json.bak")
  }

  // A listed file belongs to an upload if and only if it is one of its three manifest files.
  lemma IdOfIff(filename: string, id: string)
    ensures IdOf(filename) == Some(id) <==>
            filename == id + ".json" || filename == id + ".json.tmp" || filename == id + ".json.bak"
  {
    SuffixIff(filename, id, ".json");
    SuffixIff(filename, id, ".json.tmp");
    SuffixIff(filename, id, ".json.bak");
    LastOf(id, ".json");
    LastOf(id, ".json.tmp");
    LastOf(id, ".json.bak");
    if StripSuffix(filename, ".json").Some? {
      SuffixIff(filename, StripSuffix(filename, ".json").value, ".json");
      LastOf(StripSuffix(filename, ".json").value, ".json");
    }
    if StripSuffix(filename, ".json.tmp").Some? {
      SuffixIff(filename, StripSuffix(filename, ".json.tmp").value, ".json.tmp");
      LastOf(StripSuffix(filename, ".json.tmp").value, ".json.tmp");
    }
  }

  lemma SuffixIff(s: string, id: string, suffix: string)
    ensures StripSuffix(s, suffix) == Some(id) <==> s == id + suffix
  {
    if s == id + suffix {
      assert s[|s| - |suffix|..] == suffix && s[..|s| - |suffix|] == id;
    }
  }

  lemma LastOf(id: string, suffix: string)
    requires suffix != []
    ensures (id + suffix)[|id + suffix| - 1] == suffix[|suffix| - 1]
  {
  }

  // ---------------------------------------------------------------------------------- one sweep --

  datatype LockIo = LockIo(open: bool, lock: bool, record: bool)

  // What happens around one entry: the calls on the lock file, the clock once the lock is held, and
  // how many of the removals succeed.
  datatype EntryIo = EntryIo(lock: LockIo, later: int, removals: nat)

  type Uploads = map<string, Store>

  // How far a sweep has come; `failed` when it has given up.
  datatype Sweeping = Sweeping(uploads: Uploads, seen: set<string>, swept: nat, failed: bool)

  predicate Due(uploads: Uploads, id: string, now: int) {
    id in uploads && Load(uploads[id], id).Ok? && IsExpiredAt(Load(uploads[id], id).value, now)
  }

  lemma DueIff(uploads: Uploads, id: string, now: int, m: Manifest)
    requires id in uploads && Current(uploads[id]) == Some(m)
    requires m.status.Open? || m.status.Committed? || m.status.Ingested? || m.status.Aborted?
    ensures Due(uploads, id, now) <==> m.uploadId == id && m.expiresAtMs < now
  {
  }

  function SweepEntry(w: Sweeping, locked: set<string>, filename: string, now: int, io: EntryIo): Sweeping {
    match IdOf(filename)
    case None => w
    case Some(id) =>
      if id in w.seen then w
      else
        var w := w.(seen := w.seen + {id});
        if !Due(w.uploads, id, now) then w
        else if !io.lock.open then w.(failed := true)
        else if id in locked then w
        else if !io.lock.lock || !io.lock.record then w.(failed := true)
        else
          var p := SweepPlan(w.uploads[id], id, io.later, io.removals);
          var uploads := w.uploads[id := Run(w.uploads[id], p.acts)];
          match p.reply
          case Err(_) => w.(uploads := uploads, failed := true)
          case Ok(gone) => w.(uploads := uploads, swept := w.swept + if gone then 1 else 0)
  }

  function SweepAll(w: Sweeping, locked: set<string>, entries: seq<string>, now: int, ios: seq<EntryIo>): Sweeping
    requires |ios| == |entries|
    decreases |entries|
  {
    if entries == [] || w.failed then w
    else SweepAll(SweepEntry(w, locked, entries[0], now, ios[0]), locked, entries[1..], now, ios[1..])
  }

  // What a complete sweep takes: every listed upload that is expired and that nobody holds.
  ghost function Doomed(w: Sweeping, locked: set<string>, entries: seq<string>, now: int): set<string> {
    set id | id in w.uploads && id !in w.seen && id !in locked && Due(w.uploads, id, now)
          && Some(id) in IdsOf(entries) :: id
  }

  function IdsOf(entries: seq<string>): (r: set<Option<string>>) {
    set e | e in entries :: IdOf(e)
  }

  function Emptied(s: Store, id: string): Store
    requires Load(s, id).Ok?
  {
    s.(tmp := Absent, primary := Absent, backup := Absent,
       files := s.files - {PART} - {Load(s, id).value.sanitizedFilename})
  }

  ghost predicate Swept(before: Sweeping, after: Sweeping, doomed: set<string>) {
    && after.swept == before.swept + |doomed|
    && after.uploads.Keys == before.uploads.Keys
    && forall id | id in before.uploads ::
         if id in doomed then Load(before.uploads[id], id).Ok? && after.uploads[id] == Emptied(before.uploads[id], id)
         else after.uploads[id] == before.uploads[id]
  }

  lemma SweptEntry(w: Sweeping, locked: set<string>, filename: string, now: int, io: EntryIo)
    requires !w.failed && now <= io.later && !SweepEntry(w, locked, filename, now, io).failed
    ensures Swept(w, SweepEntry(w, locked, filename, now, io), Doomed(w, locked, [filename], now))
  {
    var doomed := Doomed(w, locked, [filename], now);
    assert IdsOf([filename]) == {IdOf(filename)};
    match IdOf(filename)
    case None =>
      assert doomed == {};
    case Some(id) =>
      if id in w.seen || !Due(w.uploads, id, now) || id in locked {
        assert doomed == {};
      } else {
        assert doomed == {id};
        var s := w.uploads[id];
        RemovalWalk((t, a) => true, s, Load(s, id).value);
        assert Cut(RemovalActs(Load(s, id).value), io.removals) == RemovalActs(Load(s, id).value);
      }
  }

  lemma SeenAfterEntry(w: Sweeping, locked: set<string>, filename: string, now: int, io: EntryIo)
    ensures SweepEntry(w, locked, filename, now, io).seen ==
            if IdOf(filename).Some? then w.seen + {IdOf(filename).value} else w.seen
  {
  }

  lemma IdsOfCons(entries: seq<string>)
    requires entries != []
    ensures IdsOf([entries[0]]) == {IdOf(entries[0])}
    ensures IdsOf(entries) == {IdOf(entries[0])} + IdsOf(entries[1..])
  {
    assert entries == [entries[0]] + entries[1..];
  }

  // The uploads that the rest of a sweep takes are those it would have taken, but for the first.
  lemma DoomedAfterEntry(w: Sweeping, locked: set<string>, entries: seq<string>, now: int, io: EntryIo)
    requires entries != [] && Swept(w, SweepEntry(w, locked, entries[0], now, io), Doomed(w, locked, [entries[0]], now))
    ensures var first := Doomed(w, locked, [entries[0]], now);
            var rest := Doomed(SweepEntry(w, locked, entries[0], now, io), locked, entries[1..], now);
            first !! rest && first + rest == Doomed(w, locked, entries, now)
  {
    hide SweepEntry, IdOf, IdsOf, Load, IsExpiredAt, Emptied;
    SeenAfterEntry(w, locked, entries[0], now, io);
    IdsOfCons(entries);
  }

  lemma SweptThenSwept(a: Sweeping, b: Sweeping, c: Sweeping, first: set<string>, rest: set<string>)
    requires Swept(a, b, first) && Swept(b, c, rest) && first !! rest
    ensures Swept(a, c, first + rest)
  {
    assert |first + rest| == |first| + |rest|;
  }

  // A sweep that reports success has emptied every listed upload that was expired and not locked, has
  // left every other one exactly as it was, and counts the ones it has emptied.
  lemma {:induction false} SweepTakesExactlyTheDoomed(
    w: Sweeping, locked: set<string>, entries: seq<string>, now: int, ios: seq<EntryIo>)
    requires !w.failed && |ios| == |entries| && forall io | io in ios :: now <= io.later
    requires !SweepAll(w, locked, entries, now, ios).failed
    ensures Swept(w, SweepAll(w, locked, entries, now, ios), Doomed(w, locked, entries, now))
    decreases |entries|
  {
    if entries == [] {
      assert Doomed(w, locked, entries, now) == {};
    } else {
      assert ios[0] in ios;
      var next := SweepEntry(w, locked, entries[0], now, ios[0]);
      SweptEntry(w, locked, entries[0], now, ios[0]);
      DoomedAfterEntry(w, locked, entries, now, ios[0]);
      SweepTakesExactlyTheDoomed(next, locked, entries[1..], now, ios[1..]);
      SweptThenSwept(w, next, SweepAll(w, locked, entries, now, ios),
                     Doomed(w, locked, [entries[0]], now), Doomed(next, locked, entries[1..], now));
    }
  }

  // Even a sweep that fails half-way, or whose clock goes back, never touches an upload that is locked
  // or was not expired when it looked.
  lemma {:induction false} SweepSparesTheRest(
    w: Sweeping, locked: set<string>, entries: seq<string>, now: int, ios: seq<EntryIo>, id: string)
    requires |ios| == |entries| && id in w.uploads && (id in locked || !Due(w.uploads, id, now))
    ensures var w' := SweepAll(w, locked, entries, now, ios);
            id in w'.uploads && w'.uploads[id] == w.uploads[id]
    decreases |entries|
  {
    if entries != [] && !w.failed {
      SweepSparesTheRest(SweepEntry(w, locked, entries[0], now, ios[0]), locked, entries[1..], now, ios[1..], id);
    }
  }

  // --------------------------------------------------------------------------------- the class --

  predicate Known(operation: string) {
    operation in ["append", "commit", "ingest", "abort", "sweep"]
  }

  class StagingArea {
    const hash: Hash
    var uploads: Uploads
    var locked: set<string>                 // held by any process
    var active: map<string, string>         // held by this process, with the operation
    var owners: map<string, Option<string>> // lock files: the operation recorded last, if readable

    ghost predicate Valid()
      reads this
    {
      active.Keys <= locked
    }

    constructor (hash: Hash, uploads: Uploads, locked: set<string>, owners: map<string, Option<string>>)
      ensures Valid() && this.hash == hash && this.uploads == uploads && this.locked == locked
      ensures this.owners == owners && active == map[]
    {
      this.hash, this.uploads, this.locked, this.owners, this.active := hash, uploads, locked, owners, map[];
    }

    // try_acquire_upload_lock: false when another operation, here or elsewhere, holds the lock
    method TryAcquire(id: string, operation: string, io: LockIo) returns (r: Result<bool, Error>)
      requires Valid()
      modifies this`locked, this`active, this`owners
      ensures Valid()
      ensures r == Ok(true) <==> io == LockIo(true, true, true) && id !in old(locked)
      ensures r == Ok(false) <==> io.open && id in old(locked)
      ensures r == Ok(true) ==>
                && locked == old(locked) + {id} && active == old(active)[id := operation]
                && owners == old(owners)[id := Some(operation)]
      ensures r == Ok(false) ==> owners == if id in old(owners) then old(owners) else old(owners)[id := None]
      ensures r != Ok(true) ==> locked == old(locked) && active == old(active)
      ensures r == Ok(true) && Known(operation) ==> OperationOf(id) == operation
      ensures r.Err? ==> r.error == Storage
      ensures forall other | other != id && other in old(owners) :: other in owners && owners[other] == old(owners[other])
    {
      if !io.open {
        return Err(Storage);
      }
      if id !in owners {
        owners := owners[id := None];
      }
      if id in locked {
        return Ok(false);
      }
      if !io.lock {
        return Err(Storage);
      }
      locked := locked + {id};
      active := active[id := operation];
      if !io.record {
        owners := owners[id := None];
        active := active - {id};
        locked := locked - {id};
        return Err(Storage);
      }
      owners := owners[id := Some(operation)];
      return Ok(true);
    }

    // UploadLock::drop
    method Release(id: string)
      requires Valid() && id in active
      modifies this`locked, this`active
      ensures Valid() && locked == old(locked) - {id} && active == old(active) - {id}
    {
      active := active - {id};
      locked := locked - {id};
    }

    // read_upload_lock_operation
    function OperationOf(id: string): (r: string)
      reads this
      ensures Known(r) || r == "unknown"
    {
      var operation :=
        if id in active then Some(active[id]) else if id in owners then owners[id] else None;
      if operation.Some? && Known(operation.value) then operation.value else "unknown"
    }

    // upload_status; a busy upload is never reported under its stored status
    method Status(id: string, now: int, io: LockIo) returns (r: Result<StatusResponse, Error>)
      requires Valid()
      modifies this`locked, this`active, this`owners
      ensures Valid() && locked == old(locked) && active == old(active)
      ensures var loaded := Load(if id in uploads then uploads[id] else EMPTY, id);
              if !io.open || (id !in locked && !(io.lock && io.record)) then r == Err(Storage)
              else if loaded.Err? then r == Err(loaded.error)
              else if id !in locked then r == Ok(StatusOf(loaded.value, now))
              else r == Ok(StatusOf(loaded.value, now).(
                             status := Busy, operationInProgress := true,
                             activeOperation := Some(OperationOf(id)), terminal := false))
    {
      var acquired := TryAcquire(id, "status", io);
      if acquired.Err? {
        return Err(acquired.error);
      }
      var store := if id in uploads then uploads[id] else EMPTY;
      var loaded := Load(store, id);
      if acquired.value {
        Release(id);
      }
      if loaded.Err? {
        return Err(loaded.error);
      }
      r := Ok(StatusOf(loaded.value, now));
      if !acquired.value {
        r := Ok(r.value.(status := Busy, operationInProgress := true,
                         activeOperation := Some(OperationOf(id)), terminal := false));
      }
    }

    // prepare_upload: the request is checked, expired uploads are swept, whatever comes of that, and the
    // manifest of a new upload is published
    method PrepareUpload(
      id: string, req: PrepareRequest, entries: seq<string>, sweepNow: int, ios: seq<EntryIo>, now: int, io: WriteIo)
      returns (r: Result<(), Error>)
      requires Valid() && |ios| == |entries| && id !in uploads
      modifies this
      ensures Valid() && locked == old(locked) && active == old(active)
      ensures var base := PreparedManifest(id, req, now);
              var swept := SweepAll(Sweeping(old(uploads), {}, 0, false), locked, entries, sweepNow, ios).uploads;
              if base.Err? then r == Err(base.error) && uploads == old(uploads)
              else if WritePlan(EMPTY, base.value, io).reply then
                r == Ok(()) && uploads == swept[id := Run(EMPTY, WritePlan(EMPTY, base.value, io).acts)]
              else r == Err(Storage) && uploads == swept[id := Run(EMPTY, WritePlan(EMPTY, base.value, io).acts)]
      ensures PreparedManifest(id, req, now).Ok? ==>
                var base := PreparedManifest(id, req, now).value;
                && PreparedBase(base) && id in uploads && Prepared(base, uploads[id])
                && (r.Ok? ==> Current(uploads[id]) == Some(base))
    {
      hide Run, WritePlan, SweepAll;
      var base := PreparedManifest(id, req, now);
      if base.Err? {
        return Err(base.error);
      }
      var _ := SweepExpiredUploads(entries, sweepNow, ios);
      var upload := new Upload(id, hash, EMPTY);
      var ok := upload.WriteManifest(base.value, io);
      uploads := uploads[id := upload.Now()];
      PrepareIff(id, req, now);
      WholeWriteIsPrepared(base.value, io);
      if !ok {
        return Err(Storage);
      }
      SuccessfulWriteIsVisible(EMPTY, base.value, io);
      return Ok(());
    }

    // sweep_expired_uploads
    method SweepExpiredUploads(entries: seq<string>, now: int, ios: seq<EntryIo>) returns (r: Result<nat, Error>)
      requires Valid() && |ios| == |entries|
      modifies this
      ensures Valid() && locked == old(locked) && active == old(active)
      ensures var w := SweepAll(Sweeping(old(uploads), {}, 0, false), locked, entries, now, ios);
              uploads == w.uploads && (if w.failed then r.Err? else r == Ok(w.swept))
    {
      hide Run, SweepPlan, Load, IdOf;
      ghost var whole := SweepAll(Sweeping(uploads, {}, 0, false), locked, entries, now, ios);
      var swept: nat := 0;
      var seen: set<string> := {};
      for i := 0 to |entries|
        invariant Valid() && locked == old(locked) && active == old(active)
        invariant whole == SweepAll(Sweeping(uploads, seen, swept, false), locked, entries[i..], now, ios[i..])
      {
        ghost var w := Sweeping(uploads, seen, swept, false);
        assert entries[i..][1..] == entries[i + 1..] && ios[i..][1..] == ios[i + 1..];
        assert whole == SweepAll(SweepEntry(w, locked, entries[i], now, ios[i]), locked, entries[i + 1..], now, ios[i + 1..]);
        var id := IdOf(entries[i]);
        if id.None? || id.value in seen {
          continue;
        }
        seen := seen + {id.value};
        if !Due(uploads, id.value, now) {
          continue;
        }
        var acquired := TryAcquire(id.value, "sweep", ios[i].lock);
        if acquired.Err? {
          return Err(acquired.error);
        }
        if !acquired.value {
          continue;
        }
        var upload := new Upload(id.value, hash, uploads[id.value]);
        var gone := upload.SweepUpload(ios[i].later, ios[i].removals);
        uploads := uploads[id.value := upload.Now()];
        Release(id.value);
        if gone.Err? {
          return Err(gone.error);
        }
        swept := swept + if gone.value then 1 else 0;
      }
      return Ok(swept);
    }
  }
}
