/**
 The lock-free read of the busy branch of `upload_status`: it looks at tmp, then at the primary, then
 at the backup, while a lock holder may be rotating those very files.
 */
module UnlockedReader {
  import opened Outcomes
  import opened UploadStore
  import opened ManifestRegister

  // What every lock holder observes while it changes the register: tmp is renamed only once it is
  // complete, the backup is restored only in the place of a missing primary, and the primary is
  // deleted only when there is no tmp to recover from.
  ghost predicate Orderly(s: Store, a: Act) {
    && (a.Publish? ==> s.tmp.Valid?)
    && (a.Restore? ==> s.primary.Absent?)
    && (a.RemovePrimary? ==> !s.tmp.Valid?)
  }

  function At(s: Store, acts: seq<Act>, i: nat): Store {
    Run(s, Cut(acts, i))
  }

  // The candidate that a reader returns when it reads tmp after i acts of others, the primary
  // after j and the backup after k.
  function UnlockedRead(s: Store, acts: seq<Act>, i: nat, j: nat, k: nat): Option<Manifest> {
    Candidate(At(s, acts, i).tmp, At(s, acts, j).primary, At(s, acts, k).backup)
  }

  lemma AtNext(s: Store, acts: seq<Act>, i: nat)
    requires i < |acts| && Along(Orderly, s, acts)
    ensures At(s, acts, i + 1) == Apply(At(s, acts, i), acts[i])
    ensures Orderly(At(s, acts, i), acts[i])
  {
    assert Cut(acts, i + 1) == Cut(acts, i) + [acts[i]];
    RunSnoc(s, Cut(acts, i), acts[i]);
    assert acts == Cut(acts, i) + acts[i..];
    AlongConcat(Orderly, s, Cut(acts, i), acts[i..]);
  }

  // The manifests that an atomic load would have found at some instant from `from` to `until`.
  ghost function Seen(s: Store, acts: seq<Act>, from: nat, until: nat): iset<Manifest> {
    iset t: nat | from <= t <= until && Current(At(s, acts, t)).Some? :: Current(At(s, acts, t)).value
  }

  // What a reader may still take from the primary, or from the backup when the primary is missing.
  ghost predicate PrimaryIn(s: Store, seen: iset<Manifest>) {
    && (s.primary.Valid? ==> s.primary.m in seen)
    && (!s.primary.Valid? && s.backup.Valid? ==> s.backup.m in seen)
  }

  ghost predicate BackupIn(s: Store, seen: iset<Manifest>) {
    PrimaryIn(s, seen) && (s.backup.Valid? ==> s.backup.m in seen)
  }

  lemma StepIn(s: Store, a: Act, seen: iset<Manifest>, later: iset<Manifest>)
    requires Orderly(s, a) && PrimaryIn(s, seen) && seen <= later
    requires Current(s).Some? ==> Current(s).value in seen
    requires Current(Apply(s, a)).Some? ==> Current(Apply(s, a)).value in later
    ensures PrimaryIn(Apply(s, a), later)
    ensures BackupIn(s, seen) ==> BackupIn(Apply(s, a), later)
  {
  }

  // Once tmp was found without a manifest, whatever shows up in the primary was current since then;
  // once the primary was missing too, so was whatever shows up in the backup.
  lemma {:induction false} StaysIn(s: Store, acts: seq<Act>, from: nat, start: nat, until: nat)
    requires from <= start <= until <= |acts| && Along(Orderly, s, acts)
    requires PrimaryIn(At(s, acts, start), Seen(s, acts, from, start))
    ensures PrimaryIn(At(s, acts, until), Seen(s, acts, from, until))
    ensures BackupIn(At(s, acts, start), Seen(s, acts, from, start)) ==>
            BackupIn(At(s, acts, until), Seen(s, acts, from, until))
    decreases until
  {
    if start < until {
      StaysIn(s, acts, from, start, until - 1);
      AtNext(s, acts, until - 1);
      StepIn(At(s, acts, until - 1), acts[until - 1], Seen(s, acts, from, until - 1), Seen(s, acts, from, until));
    }
  }

  // Unlocked reads are regular: whatever any number of lock holders do meanwhile, a manifest that
  // the read returns was current at some instant during the read.
  lemma UnlockedReadIsRegular(s: Store, acts: seq<Act>, i: nat, j: nat, k: nat)
    requires i <= j <= k <= |acts| && Along(Orderly, s, acts)
    requires UnlockedRead(s, acts, i, j, k).Some?
    ensures exists t: nat :: i <= t <= k && Current(At(s, acts, t)) == UnlockedRead(s, acts, i, j, k)
  {
    if At(s, acts, i).tmp.Valid? {
      assert Current(At(s, acts, i)) == UnlockedRead(s, acts, i, j, k);
    } else {
      StaysIn(s, acts, i, i, j);
      if !At(s, acts, j).primary.Valid? {
        StaysIn(s, acts, i, j, k);
      }
      assert UnlockedRead(s, acts, i, j, k).value in Seen(s, acts, i, k);
    }
  }

  // ------------------------------------------------------------------- when a read can miss --

  lemma AtStep(s: Store, acts: seq<Act>, i: nat)
    requires i < |acts|
    ensures At(s, acts, i + 1) == Apply(At(s, acts, i), acts[i])
  {
    assert Cut(acts, i + 1) == Cut(acts, i) + [acts[i]];
    RunSnoc(s, Cut(acts, i), acts[i]);
  }

  // The calls of a write that gets past the rotation: three on tmp, two that rotate, and the rest.
  lemma RotatingCalls(s: Store, m: Manifest, io: WriteIo)
    requires s.primary.Valid? && io.prepare && io.create && io.fill && io.removeBackup && io.rotate
    ensures var acts := WritePlan(s, m, io).acts;
            acts == [RemoveTmp, CreateTmp, FillTmp(m), RemoveBackup, Rotate] + AfterRotation(io)
  {
  }

  lemma TailKeepsBackup(io: WriteIo, a: Act)
    requires a in AfterRotation(io) && !(if io.publish then io.dropBackup else io.restore)
    ensures a.Publish? || a.RemoveTmp?
  {
  }

  // The primary stays in place for four calls, and is in the backup after the fifth.
  lemma RotatedFirst(s: Store, m: Manifest, io: WriteIo, i: nat)
    requires s.primary.Valid? && io.prepare && io.create && io.fill && io.removeBackup && io.rotate && i <= 5
    ensures i <= |WritePlan(s, m, io).acts|
    ensures var t := At(s, WritePlan(s, m, io).acts, i);
            if i <= 4 then t.primary == s.primary else t.primary.Absent? && t.backup == s.primary
  {
    var acts := WritePlan(s, m, io).acts;
    RotatingCalls(s, m, io);
    hide WritePlan, AfterRotation, Run;
    AtStart(s, acts);
    if i > 0 {
      RotatedFirst(s, m, io, i - 1);
      AtStep(s, acts, i - 1);
    }
  }

  lemma LaterCalls(s: Store, m: Manifest, io: WriteIo, i: nat)
    requires s.primary.Valid? && io.prepare && io.create && io.fill && io.removeBackup && io.rotate
    requires 5 <= i < |WritePlan(s, m, io).acts|
    ensures WritePlan(s, m, io).acts[i] in AfterRotation(io)
  {
    RotatingCalls(s, m, io);
    hide WritePlan, AfterRotation;
  }

  // It stays there unless a later call takes it away.
  lemma {:induction false} RotatedAt(s: Store, m: Manifest, io: WriteIo, i: nat)
    requires s.primary.Valid? && io.prepare && io.create && io.fill && io.removeBackup && io.rotate
    requires i <= |WritePlan(s, m, io).acts|
    ensures var t := At(s, WritePlan(s, m, io).acts, i);
            && (i <= 4 ==> t.primary == s.primary)
            && (i == 5 ==> t.primary.Absent?)
            && (i >= 5 && !(if io.publish then io.dropBackup else io.restore) ==> t.backup == s.primary)
  {
    var acts := WritePlan(s, m, io).acts;
    hide WritePlan, AfterRotation, Run, At;
    if i <= 5 {
      RotatedFirst(s, m, io, i);
    } else {
      RotatedAt(s, m, io, i - 1);
      AtStep(s, acts, i - 1);
      LaterCalls(s, m, io, i - 1);
      if !(if io.publish then io.dropBackup else io.restore) {
        TailKeepsBackup(io, acts[i - 1]);
      }
    }
  }

  lemma AtStart(s: Store, acts: seq<Act>)
    ensures At(s, acts, 0) == s
  {
  }

  lemma AtEnd(s: Store, m: Manifest, io: WriteIo)
    ensures At(s, WritePlan(s, m, io).acts, |WritePlan(s, m, io).acts|) == Written(s, m, io)
  {
    WriteWalk((t, a) => true, s, m, io);
    var acts := WritePlan(s, m, io).acts;
    assert Cut(acts, |acts|) == acts;
  }

  // A write that does not get as far leaves the primary alone.
  lemma {:induction false} UnrotatedAt(s: Store, m: Manifest, io: WriteIo, i: nat)
    requires s.primary.Valid? && !(io.prepare && io.create && io.fill && io.removeBackup && io.rotate)
    requires i <= |WritePlan(s, m, io).acts|
    ensures At(s, WritePlan(s, m, io).acts, i).primary == s.primary
  {
    if i > 0 {
      UnrotatedAt(s, m, io, i - 1);
      AtStep(s, WritePlan(s, m, io).acts, i - 1);
      var a := WritePlan(s, m, io).acts[i - 1];
      assert a.RemoveTmp? || a.CreateTmp? || a.FillTmp? || a.RemoveBackup?;
    }
  }

  // A reader looks at tmp, the primary and the backup after i, j and k calls of one write and finds none.
  ghost predicate CanMiss(s: Store, acts: seq<Act>) {
    exists i: nat, j: nat, k: nat :: i <= j <= k <= |acts| && UnlockedRead(s, acts, i, j, k).None?
  }

  // What an unlocked read does not promise. While one write replaces a manifest, a reader can miss the
  // upload, although it exists throughout, if and only if the write rotates the primary away and then
  // empties the backup: by dropping it once the new manifest is published, or by restoring it.
  lemma UnlockedReadCanMissIff(s: Store, m: Manifest, io: WriteIo)
    requires s.primary.Valid?
    ensures CanMiss(s, WritePlan(s, m, io).acts) <==>
            && io.prepare && io.create && io.fill && io.removeBackup && io.rotate
            && (if io.publish then io.dropBackup else io.restore)
    ensures forall t: nat | t <= |WritePlan(s, m, io).acts| :: Current(At(s, WritePlan(s, m, io).acts, t)).Some?
  {
    var acts := WritePlan(s, m, io).acts;
    hide WritePlan;
    if io.prepare && io.create && io.fill && io.removeBackup && io.rotate {
      RotatingCalls(s, m, io);
      if if io.publish then io.dropBackup else io.restore {
        RotatedAt(s, m, io, 5);
        AtStart(s, acts);
        AtStep(s, acts, 0);
        AtEnd(s, m, io);
        assert UnlockedRead(s, acts, 1, 5, |acts|).None?;
      } else {
        forall i: nat, j: nat, k: nat | i <= j <= k <= |acts| ensures UnlockedRead(s, acts, i, j, k).Some? {
          RotatedAt(s, m, io, j);
          RotatedAt(s, m, io, k);
        }
      }
    } else {
      forall i: nat, j: nat, k: nat | i <= j <= k <= |acts| ensures UnlockedRead(s, acts, i, j, k).Some? {
        UnrotatedAt(s, m, io, j);
      }
    }
    forall t: nat | t <= |acts| ensures Current(At(s, acts, t)).Some? {
      WriteKeepsSome(s, m, io, t);
    }
  }

  lemma WriteKeepsSome(s: Store, m: Manifest, io: WriteIo, k: nat)
    requires s.primary.Valid?
    ensures Current(At(s, WritePlan(s, m, io).acts, k)).Some?
  {
    WriteInventsNothing(s, m, io, k);
  }
}
