/**
 Writing one manifest: the temporary file is completed first, then the primary is rotated to the
 backup, then the temporary file is renamed over the primary. Recovery prefers tmp, then primary,
 then backup.
 */
module ManifestRegister {
  import opened Outcomes
  import opened UploadStore

  // Whether the operating system performs each call of one manifest write. `prepare` covers
  // everything before the temporary file is created.
  datatype WriteIo = WriteIo(
    prepare: bool,
    create: bool,
    fill: bool,
    removeBackup: bool,
    rotate: bool,
    publish: bool,
    restore: bool,
    cleanTmp: bool,
    dropBackup: bool)

  const FAULTLESS: WriteIo := WriteIo(true, true, true, true, true, true, true, true, true)

  datatype Plan<+R> = Plan(acts: seq<Act>, reply: R)

  function Clean(io: WriteIo): seq<Act> {
    if io.cleanTmp then [RemoveTmp] else []
  }

  // The calls that follow the rotation of the primary to the backup.
  function AfterRotation(io: WriteIo): seq<Act> {
    if io.publish then [Publish] + (if io.dropBackup then [RemoveBackup] else [])
    else (if io.restore then [Restore] else []) + Clean(io)
  }

  // The calls that follow the completion of the temporary file.
  function AfterFilling(s: Store, io: WriteIo): seq<Act> {
    if s.primary.Absent? then (if io.publish then [Publish] else Clean(io))
    else if !io.removeBackup then []
    else if !io.rotate then [RemoveBackup] + Clean(io)
    else [RemoveBackup] + ([Rotate] + AfterRotation(io))
  }

  function WritePlan(s: Store, m: Manifest, io: WriteIo): Plan<bool> {
    if !io.prepare then Plan([], false)
    else if !io.create then Plan([RemoveTmp], false)
    else if !io.fill then Plan([RemoveTmp] + [CreateTmp], false)
    else
      Plan([RemoveTmp] + ([CreateTmp] + ([FillTmp(m)] + AfterFilling(s, io))),
           if s.primary.Absent? then io.publish else io.removeBackup && io.rotate && io.publish)
  }

  // The stores between the calls of a manifest write, with the call each of them may see next.
  ghost predicate WriteStep(s: Store, m: Manifest, io: WriteIo, t: Store, a: Act) {
    var filled := s.(tmp := Valid(m));
    var unbacked := filled.(backup := Absent);
    var rotated := filled.(backup := s.primary, primary := Absent);
    || (t == s && a == RemoveTmp)
    || (t == s.(tmp := Absent) && a == CreateTmp)
    || (t == s.(tmp := Garbage) && a == FillTmp(m))
    || (s.primary.Absent? && t == filled && (a == Publish || (a == RemoveTmp && !io.publish)))
    || (!s.primary.Absent? &&
        (|| (t == filled && a == RemoveBackup)
         || (t == unbacked && (a == Rotate || (a == RemoveTmp && (!io.rotate || !io.publish))))
         || (t == rotated && (a == Publish || ((a == Restore || a == RemoveTmp) && !io.publish)))
         || (t == s.(tmp := Absent, primary := Valid(m), backup := s.primary) && a == RemoveBackup)))
  }

  lemma SameRegisterSameWrite(s: Store, t: Store, m: Manifest, io: WriteIo)
    requires SameRegister(s, t)
    ensures WritePlan(s, m, io) == WritePlan(t, m, io)
  {
  }

  // Where a manifest write leaves the store.
  function Written(s: Store, m: Manifest, io: WriteIo): Store {
    if !io.prepare then s
    else if !io.create then s.(tmp := Absent)
    else if !io.fill then s.(tmp := Garbage)
    else
      var tmp := if io.cleanTmp then Absent else Valid(m);
      if s.primary.Absent? then
        if io.publish then s.(tmp := Absent, primary := Valid(m)) else s.(tmp := tmp)
      else if !io.removeBackup then s.(tmp := Valid(m))
      else if !io.rotate then s.(tmp := tmp, backup := Absent)
      else if io.publish then
        s.(tmp := Absent, primary := Valid(m), backup := if io.dropBackup then Absent else s.primary)
      else if io.restore then s.(tmp := tmp, backup := Absent)
      else s.(tmp := tmp, backup := s.primary, primary := Absent)
  }

  lemma WriteWalk(allowed: (Store, Act) -> bool, s: Store, m: Manifest, io: WriteIo)
    ensures Run(s, WritePlan(s, m, io).acts) == Written(s, m, io)
    ensures (forall t, a | WriteStep(s, m, io, t, a) :: allowed(t, a)) ==>
            Along(allowed, s, WritePlan(s, m, io).acts)
  {
    var rest := AfterFilling(s, io);
    if io.prepare && io.create {
      if io.fill {
        AlongCons(allowed, s, RemoveTmp, [CreateTmp] + ([FillTmp(m)] + rest));
        AlongCons(allowed, s.(tmp := Absent), CreateTmp, [FillTmp(m)] + rest);
        AlongCons(allowed, s.(tmp := Garbage), FillTmp(m), rest);
        FilledWalk(allowed, s, m, io);
      } else {
        AlongCons(allowed, s, RemoveTmp, [CreateTmp]);
      }
    }
  }

  predicate SameFiles(s: Store, t: Store) {
    s.files == t.files && s.log == t.log
  }

  lemma StepLeavesFiles(s: Store, m: Manifest, io: WriteIo, t: Store, a: Act)
    requires WriteStep(s, m, io, t, a)
    ensures SameFiles(s, Apply(t, a))
  {
  }

  // A manifest write, cut short anywhere, touches nothing but the register.
  lemma WriteLeavesFiles(s: Store, m: Manifest, io: WriteIo, k: nat)
    ensures SameFiles(s, Run(s, Cut(WritePlan(s, m, io).acts, k)))
  {
    var allowed := (t: Store, a: Act) => SameFiles(s, Apply(t, a));
    forall t, a | WriteStep(s, m, io, t, a) ensures allowed(t, a) {
      StepLeavesFiles(s, m, io, t, a);
    }
    WriteWalk(allowed, s, m, io);
    Preserved(t => SameFiles(s, t), allowed, s, WritePlan(s, m, io).acts, k);
  }

  lemma FilledWalk(allowed: (Store, Act) -> bool, s: Store, m: Manifest, io: WriteIo)
    requires io.prepare && io.create && io.fill
    ensures Run(s.(tmp := Valid(m)), AfterFilling(s, io)) == Written(s, m, io)
    ensures (forall t, a | WriteStep(s, m, io, t, a) :: allowed(t, a)) ==>
            Along(allowed, s.(tmp := Valid(m)), AfterFilling(s, io))
  {
    var filled := s.(tmp := Valid(m));
    var unbacked := filled.(backup := Absent);
    if !s.primary.Absent? && io.removeBackup {
      if io.rotate {
        AlongCons(allowed, filled, RemoveBackup, [Rotate] + AfterRotation(io));
        AlongCons(allowed, unbacked, Rotate, AfterRotation(io));
        RotatedWalk(allowed, s, m, io);
      } else {
        AlongCons(allowed, filled, RemoveBackup, Clean(io));
      }
    }
  }

  lemma RotatedWalk(allowed: (Store, Act) -> bool, s: Store, m: Manifest, io: WriteIo)
    requires io.prepare && io.create && io.fill && !s.primary.Absent? && io.removeBackup && io.rotate
    ensures Run(s.(tmp := Valid(m), backup := s.primary, primary := Absent), AfterRotation(io)) == Written(s, m, io)
    ensures (forall t, a | WriteStep(s, m, io, t, a) :: allowed(t, a)) ==>
            Along(allowed, s.(tmp := Valid(m), backup := s.primary, primary := Absent), AfterRotation(io))
  {
    var rotated := s.(tmp := Valid(m), backup := s.primary, primary := Absent);
    if io.publish {
      AlongCons(allowed, rotated, Publish, if io.dropBackup then [RemoveBackup] else []);
    } else if io.restore {
      AlongCons(allowed, rotated, Restore, Clean(io));
    } else {
      assert AfterRotation(io) == Clean(io);
    }
  }

  // ------------------------------------------------------------------------- crash atomicity --

  ghost predicate OldOrNew(before: Option<Manifest>, m: Manifest, s: Store) {
    Current(s) == before || Current(s) == Some(m)
  }

  // Wherever a crash strikes the write, recovery finds what was current before it, or m.
  ghost predicate CrashAtomic(s: Store, m: Manifest, io: WriteIo) {
    forall s' | CrashPoint(s, WritePlan(s, m, io).acts, s') :: OldOrNew(Current(s), m, s')
  }

  // The caller's check that the first call of a write, deleting a leftover tmp, loses nothing.
  predicate LeftoverTmpRedundant(s: Store, m: Manifest) {
    var fallback := Current(s.(tmp := Absent));
    fallback == Current(s) || fallback == Some(m)
  }

  // A primary that does not parse is rotated over the only good copy.
  predicate PrimaryMasksBackup(s: Store) {
    s.primary.Garbage? && s.backup.Valid?
  }

  lemma CrashPointsAlong(s: Store, m: Manifest, io: WriteIo)
    requires forall t, a | WriteStep(s, m, io, t, a) :: OldOrNew(Current(s), m, Apply(t, a))
    ensures CrashAtomic(s, m, io)
  {
    var allowed := (t: Store, a: Act) => OldOrNew(Current(s), m, Apply(t, a));
    var inv := (t: Store) => OldOrNew(Current(s), m, t);
    WriteWalk(allowed, s, m, io);
    forall s' | CrashPoint(s, WritePlan(s, m, io).acts, s') ensures inv(s') {
      var k: nat :| k <= |WritePlan(s, m, io).acts| && s' == Run(s, Cut(WritePlan(s, m, io).acts, k));
      Preserved(inv, allowed, s, WritePlan(s, m, io).acts, k);
    }
  }

  // With every call succeeding, a write is crash-atomic exactly when tmp holds no state of its own;
  // in particular from every store whose tmp does not parse.
  lemma CrashAtomicIff(s: Store, m: Manifest)
    ensures CrashAtomic(s, m, FAULTLESS) <==> LeftoverTmpRedundant(s, m)
  {
    if LeftoverTmpRedundant(s, m) {
      CrashPointsAlong(s, m, FAULTLESS);
    } else {
      DeletingLeftoverIsACrashPoint(s, m, FAULTLESS);
    }
  }

  lemma DeletingLeftoverIsACrashPoint(s: Store, m: Manifest, io: WriteIo)
    requires io.prepare && io.create && io.fill
    ensures CrashPoint(s, WritePlan(s, m, io).acts, s.(tmp := Absent))
  {
    var acts := WritePlan(s, m, io).acts;
    assert Cut(acts, 1) == [RemoveTmp] + [];
    AlongCons((t, a) => true, s, RemoveTmp, []);
  }

  // Whatever calls fail, and wherever a crash strikes: exactly when, besides, the primary does not
  // hide the only good copy.
  lemma FaultAtomicIff(s: Store, m: Manifest)
    ensures (forall io :: CrashAtomic(s, m, io)) <==> LeftoverTmpRedundant(s, m) && !PrimaryMasksBackup(s)
  {
    if !LeftoverTmpRedundant(s, m) {
      DeletingLeftoverIsACrashPoint(s, m, FAULTLESS);
      assert !CrashAtomic(s, m, FAULTLESS);
    } else if PrimaryMasksBackup(s) {
      var io := FAULTLESS.(rotate := false);
      var acts := WritePlan(s, m, io).acts;
      WriteWalk((t, a) => true, s, m, io);
      assert Cut(acts, |acts|) == acts;
      assert CrashPoint(s, acts, Written(s, m, io));
      assert !CrashAtomic(s, m, io);
    } else {
      forall io ensures CrashAtomic(s, m, io) {
        CrashPointsAlong(s, m, io);
      }
    }
  }

  // The instance that writes from a completed state use, at any crash point.
  lemma CleanWriteIsAtomic(s: Store, m: Manifest, io: WriteIo, k: nat)
    requires !s.tmp.Valid? && !PrimaryMasksBackup(s)
    ensures OldOrNew(Current(s), m, Run(s, Cut(WritePlan(s, m, io).acts, k)))
  {
    FaultAtomicIff(s, m);
    assert CrashAtomic(s, m, io);
    var acts := WritePlan(s, m, io).acts;
    var j := if k <= |acts| then k else |acts|;
    assert Cut(acts, k) == Cut(acts, j);
    assert CrashPoint(s, acts, Run(s, Cut(acts, j)));
  }

  // What recovery would find without the leftover tmp
  function Fallback(s: Store): Option<Manifest> {
    Current(s.(tmp := Absent))
  }

  lemma StepInventsNothing(s: Store, m: Manifest, io: WriteIo, t: Store, a: Act)
    requires !PrimaryMasksBackup(s) && WriteStep(s, m, io, t, a)
    ensures Current(Apply(t, a)) == Fallback(s) || OldOrNew(Current(s), m, Apply(t, a))
  {
  }

  // Even from a store that is not clean, a write cut short anywhere leaves recovery with the old or
  // the new manifest, or with the one that the leftover tmp had superseded.
  lemma WriteInventsNothing(s: Store, m: Manifest, io: WriteIo, k: nat)
    requires !PrimaryMasksBackup(s)
    ensures var s' := Run(s, Cut(WritePlan(s, m, io).acts, k));
            Current(s') == Fallback(s) || OldOrNew(Current(s), m, s')
  {
    var inv := (t: Store) => Current(t) == Fallback(s) || OldOrNew(Current(s), m, t);
    var allowed := (t: Store, a: Act) => inv(Apply(t, a));
    forall t, a | WriteStep(s, m, io, t, a) ensures allowed(t, a) {
      StepInventsNothing(s, m, io, t, a);
    }
    WriteWalk(allowed, s, m, io);
    Preserved(inv, allowed, s, WritePlan(s, m, io).acts, k);
  }

  // A write that reports success is visible, from any store whatever, and leaves no tmp behind.
  lemma SuccessfulWriteIsVisible(s: Store, m: Manifest, io: WriteIo)
    requires WritePlan(s, m, io).reply
    ensures var s' := Run(s, WritePlan(s, m, io).acts);
            Current(s') == Some(m) && s'.tmp.Absent? && s'.primary == Valid(m)
            && s'.files == s.files && s'.log == s.log
  {
    WriteWalk((t, a) => true, s, m, io);
  }

  // A write that reports failure changed nothing that recovery sees, unless it left its own tmp:
  // the removal of the old backup, or of the abandoned tmp, failed as well.
  predicate LeavesStrayTmp(s: Store, io: WriteIo) {
    io.prepare && io.create && io.fill &&
    if s.primary.Absent? then !io.publish && !io.cleanTmp
    else !io.removeBackup || ((!io.rotate || !io.publish) && !io.cleanTmp)
  }

  lemma FailedWriteIff(s: Store, m: Manifest, io: WriteIo)
    requires !s.tmp.Valid? && !PrimaryMasksBackup(s)
    requires !WritePlan(s, m, io).reply && Current(s) != Some(m)
    ensures var s' := Run(s, WritePlan(s, m, io).acts);
            && (Current(s') == Current(s) <==> !LeavesStrayTmp(s, io))
            && (LeavesStrayTmp(s, io) ==> Current(s') == Some(m))
            && s'.files == s.files && s'.log == s.log
  {
    WriteWalk((t, a) => true, s, m, io);
  }

  // ------------------------------------------------------- any number of interrupted writes --

  // A write of m under some call outcomes, cut short after k calls (or complete).
  datatype Attempt = Attempt(m: Manifest, io: WriteIo, k: nat)

  function RunAttempts(s: Store, attempts: seq<Attempt>): Store
    decreases |attempts|
  {
    if attempts == [] then s
    else
      var a := attempts[0];
      RunAttempts(Run(s, Cut(WritePlan(s, a.m, a.io).acts, a.k)), attempts[1..])
  }

  // Recovery can surface only manifests of the given set, now or after deleting tmp.
  ghost predicate Holds(s: Store, known: set<Manifest>) {
    && (s.tmp.Valid? ==> s.tmp.m in known)
    && (if s.primary.Absent? then s.backup.Valid? && s.backup.m in known
        else s.primary.Valid? && s.primary.m in known)
  }

  // However many later writes are interrupted or fail, and wherever, recovery still finds the last
  // manifest that was written successfully or one whose write was attempted after it.
  lemma {:induction false} WritesAreDurable(s: Store, known: set<Manifest>, attempts: seq<Attempt>)
    requires Holds(s, known)
    ensures var s' := RunAttempts(s, attempts);
            Holds(s', known + set a | a in attempts :: a.m)
            && Current(s').Some? && Current(s').value in known + set a | a in attempts :: a.m
    decreases |attempts|
  {
    if attempts != [] {
      var a := attempts[0];
      AttemptHolds(s, known + {a.m}, a);
      WritesAreDurable(Run(s, Cut(WritePlan(s, a.m, a.io).acts, a.k)), known + {a.m}, attempts[1..]);
      assert attempts == [a] + attempts[1..];
      assert known + {a.m} + (set x | x in attempts[1..] :: x.m) == known + set x | x in attempts :: x.m;
    }
  }

  lemma AttemptHolds(s: Store, known: set<Manifest>, a: Attempt)
    requires Holds(s, known) && a.m in known
    ensures Holds(Run(s, Cut(WritePlan(s, a.m, a.io).acts, a.k)), known)
  {
    var allowed := (t: Store, x: Act) => Holds(Apply(t, x), known);
    forall t, x | WriteStep(s, a.m, a.io, t, x) ensures allowed(t, x) {
      StepHolds(s, known, a.m, a.io, t, x);
    }
    WriteWalk(allowed, s, a.m, a.io);
    Preserved(t => Holds(t, known), allowed, s, WritePlan(s, a.m, a.io).acts, a.k);
  }

  lemma StepHolds(s: Store, known: set<Manifest>, m: Manifest, io: WriteIo, t: Store, x: Act)
    requires Holds(s, known) && m in known && WriteStep(s, m, io, t, x)
    ensures Holds(Apply(t, x), known)
  {
  }
}
