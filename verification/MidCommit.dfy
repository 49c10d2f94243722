/**
 * Inside a group commit, whatever phase compaction is in: each disk at which power may be lost is that of an
 * intact state, but for a torn copy of the batch or a new segment whose directory entry is pending. What a power
 * loss leaves is therefore what it leaves of an intact state, with a torn tail behind the active segment.
 */
module MidCommit {
  import opened Wrappers
  import opened Bytes
  import opened Types
  import opened Frames
  import opened Index
  import opened LogMerge
  import opened Disk
  import opened GroupCommit
  import opened FlushIndex
  import opened Flusher
  import opened Recovery
  import opened Shelves
  import opened ShelfReplay
  import opened OpenAfterCrash
  import opened CommitSafety
  import opened DiskView
  import opened FrameSets
  import opened Compaction
  import opened CompactionFrames
  import opened Survival
  import opened CompactionSteps
  import opened CompactionCrash
  import opened Reopen
  import opened TornTail

  // ---------- Intact states beside a disk ----------

  /** `d` is the disk of `s0` with some bytes of the frames of `rest` at the end of the active segment, or with its next segment just created. */
  ghost predicate BesideDisk(c: Codec, s0: Sys, d: Disk, rest: seq<Record>)
  {
    || (Segment(s0.db.activeId) in s0.db.disk.dir
        && exists t: nat :: t <= |EncodeAll(c, rest)| && d == Append(s0.db.disk, Segment(s0.db.activeId), EncodeAll(c, rest)[..t]))
    || (s0.db.segmentCounter < COMPACTION_ID_BASE && d == Create(s0.db.disk, Segment(s0.db.segmentCounter)))
  }

  /** Intact; and the database is all there is on disk, if that is asked. */
  ghost predicate Intact(c: Codec, s: Sys, complete: bool)
  {
    Sane(c, s) && (complete ==> Complete(c, s))
  }

  /** The intact state `s0` has the first `k` records of the batch, on disk and in its database. */
  ghost predicate Beside(c: Codec, s0: Sys, d: Disk, phase: Phase, view: map<string, Record>, rs: seq<Record>, k: nat, complete: bool)
  {
    && k <= |rs| && Intact(c, s0, complete) && s0.phase == phase && s0.view == Fold(view, rs[..k])
    && AllWritable(c, rs) && Consecutive(rs[k..], s0.db.nextSeq)
    && (forall j :: 0 <= j < k ==> InFile(c, s0.db.disk, s0.db.activeId, rs[j]))
    && BesideDisk(c, s0, d, rs[k..])
  }

  /** A disk at a moment when the process may die, the batch `rs` being under way. */
  ghost predicate Shadow(c: Codec, d: Disk, phase: Phase, view: map<string, Record>, rs: seq<Record>, complete: bool)
  {
    exists s0, k :: Beside(c, s0, d, phase, view, rs, k, complete)
  }

  lemma {:induction false} NothingAppended(c: Codec, s0: Sys, rest: seq<Record>)
    requires Segment(s0.db.activeId) in s0.db.disk.dir
    ensures BesideDisk(c, s0, s0.db.disk, rest)
  {
    hide EncodeAll;
    NoTail(c, s0, rest);
  }

  // ---------- Committing part of a batch ----------

  function WholePlan(db: Db, rs: seq<Record>): Plan
  {
    Plan(db.nextSeq + |rs|, 0, {}, rs, [], false)
  }

  /** The state after writing, syncing and applying `rs`. */
  function AfterCommit(c: Codec, s: Sys, rs: seq<Record>): Sys
    requires Segment(s.db.activeId) in s.db.disk.dir
  {
    Sys(WriteStage(c, s.db.(fileOpen := true), EncodeAll(c, rs), WholePlan(s.db, rs), NoFault).db, Fold(s.view, rs), s.phase)
  }

  lemma {:induction false} OpenedAgain(c: Codec, s: Sys, complete: bool)
    requires Intact(c, s, complete)
    ensures Intact(c, s.(db := s.db.(fileOpen := true)), complete)
  {
    var s' := s.(db := s.db.(fileOpen := true));
    assert SysOk(c, s') by { hide Serves, FreshFrom, Leads, Copied, ActiveOk, FramesOk, Durable, Complete; OpenedPhase(c, s); }
    assert FramesOk(c, s') by { hide SysOk, DiskOk, PhaseFrames, PointsToFrames, Uppermost, PendingOk, NormalsNewer, Durable, Complete; }
    assert Durable(s') by { hide SysOk, FramesOk, WellFormed, Synced, Complete; }
    assert Complete(c, s) ==> Complete(c, s') by { hide Sane, ViewOnDisk, Stands; }
  }

  lemma {:induction false} OpenedPhase(c: Codec, s: Sys)
    requires PhaseOk(c, s.db, s.phase) && ActiveOk(s.db)
    ensures PhaseOk(c, s.db.(fileOpen := true), s.phase) && ActiveOk(s.db.(fileOpen := true))
  {
    hide Leads, Copied;
  }

  /** Every prefix of a batch can be committed, and leaves an intact state. */
  lemma {:induction false} CommittedSane(c: Codec, s: Sys, rs: seq<Record>, complete: bool)
    requires c.Lawful() && Intact(c, s, complete) && AllWritable(c, rs) && Consecutive(rs, s.db.nextSeq)
    ensures Segment(s.db.activeId) in s.db.disk.dir
    ensures
      var p, s' := Segment(s.db.activeId), AfterCommit(c, s, rs);
      && Intact(c, s', complete) && s'.phase == s.phase && s'.db.activeId == s.db.activeId && s'.db.nextSeq == s.db.nextSeq + |rs|
      && s'.db.disk == Sync(Append(s.db.disk, p, EncodeAll(c, rs)), p)
      && forall r :: r in rs ==> InFile(c, s'.db.disk, s.db.activeId, r)
  {
    hide FramesOk, Durable, ViewOk, LiveDurable, EncodeAll, ApplyAll, Fold, AllWritable, Consecutive;
    ActiveSize(c, s);
    var s1, plan := s.(db := s.db.(fileOpen := true)), WholePlan(s.db, rs);
    OpenedAgain(c, s, complete);
    var db, buf := s1.db, EncodeAll(c, plan.records);
    WriteServes(c, db, s1.view, plan, NoFault);
    WriteIds(c, db, buf, plan, NoFault);
    PhaseGrows(c, db, WriteStage(c, db, buf, plan, NoFault).db, s1.phase);
    WriteFrames(c, s1, plan, NoFault);
    WriteDurable(c, s1, Fold(s.view, rs), plan, NoFault);
    if complete {
      WriteLive(c, s1, plan, NoFault);
    }
    BatchInFile(c, s, rs);
  }

  lemma {:induction false} BatchInFile(c: Codec, s: Sys, rs: seq<Record>)
    requires c.Lawful() && Sane(c, s) && AllWritable(c, rs)
    ensures Segment(s.db.activeId) in s.db.disk.dir
    ensures
      var p := Segment(s.db.activeId);
      forall r :: r in rs ==> InFile(c, Sync(Append(s.db.disk, p, EncodeAll(c, rs)), p), s.db.activeId, r)
  {
    ActiveSize(c, s);
    hide SysOk, Durable, EncodeAll, AllWritable, FramesIn, FramesOk;
    WrittenFile(c, s, rs);
  }

  // ---------- Rolling over without settling removals ----------

  /** The next segment exists, durably; what was pending still is. */
  function Rolled(s: Sys): Sys
  {
    var id := s.db.segmentCounter;
    s.(db := s.db.(disk := Create(s.db.disk, Segment(id)).(creates := s.db.disk.creates), activeId := id, activeSize := 0,
                   fileOpen := true, segmentCounter := id + 1))
  }

  lemma {:induction false} RolledSane(c: Codec, s: Sys, complete: bool)
    requires Intact(c, s, complete) && s.db.segmentCounter < COMPACTION_ID_BASE
    ensures Intact(c, Rolled(s), complete) && Segment(s.db.segmentCounter) !in s.db.disk.dir
  {
    SegmentIsNew(c, s);
    RolledSysOk(c, s);
    assert Durable(Rolled(s)) by {
      RolledSynced(s);
      DurableKept(s, Rolled(s));
    }
    PhaseIds(c, s, s.db.segmentCounter);
    RolledSynced(s);
    assert Leaves(s, Rolled(s)) by { hide Durable, Volatile; }
    hide SysOk, Durable, FramesOk, ViewOk, LiveDurable, PhaseBelow;
    EmptySegmentFrames(c, s, Rolled(s), s.db.segmentCounter);
  }

  lemma {:induction false} RolledSysOk(c: Codec, s: Sys)
    requires SysOk(c, s) && !s.db.failed && s.db.segmentCounter < COMPACTION_ID_BASE && Segment(s.db.segmentCounter) !in s.db.disk.dir
    ensures SysOk(c, Rolled(s))
  {
    hide Serves, FreshFrom, PhaseOk;
    ServesGrows(c, s.db.disk, Rolled(s).db.disk, s.db.idx, s.view);
    PhaseGrows(c, s.db, Rolled(s).db, s.phase);
  }

  lemma {:induction false} RolledSynced(s: Sys)
    requires WellFormed(s.db.disk) && Segment(s.db.segmentCounter) !in s.db.disk.dir
    ensures KeepsSynced(s.db.disk, Rolled(s).db.disk)
  {
  }

  // ---------- The points of a commit ----------

  lemma {:induction false} SameAgain(c: Codec, s: Sys, complete: bool)
    requires Intact(c, s, complete)
    ensures !s.db.failed && Segment(s.db.activeId) in s.db.disk.dir && Sync(s.db.disk, Segment(s.db.activeId)) == s.db.disk
  {
    ActiveSize(c, s);
    PhaseOuts(c, s);
    hide SysOk, FramesOk, Complete;
    ActiveSynced(s);
    var d, p := s.db.disk, Segment(s.db.activeId);
    assert d.durable[p := |d.dir[p]|] == d.durable;
  }

  ghost predicate AllShadow(c: Codec, trace: seq<Disk>, phase: Phase, view: map<string, Record>, rs: seq<Record>, complete: bool)
  {
    forall i :: 0 <= i < |trace| ==> Shadow(c, trace[i], phase, view, rs, complete)
  }

  lemma {:induction false} ShadowOf(c: Codec, s: Sys, d: Disk, rs: seq<Record>, complete: bool)
    requires Intact(c, s, complete) && AllWritable(c, rs) && Consecutive(rs, s.db.nextSeq) && BesideDisk(c, s, d, rs)
    ensures Shadow(c, d, s.phase, s.view, rs, complete)
  {
    hide Intact, AllWritable, Consecutive, BesideDisk;
    assert rs[..0] == [] && rs[0..] == rs && Fold(s.view, []) == s.view;
    assert Beside(c, s, d, s.phase, s.view, rs, 0, complete);
  }

  // ---------- After a failure ----------

  /** Bytes of `rest` at the end of the active segment of `s0`; a new segment may have been named, but not created. */
  ghost predicate TailShape(c: Codec, s: Sys, s0: Sys, rest: seq<Record>)
  {
    && Segment(s0.db.activeId) in s0.db.disk.dir
    && (s.db.activeId == s0.db.activeId || s.db.activeId == s0.db.segmentCounter < COMPACTION_ID_BASE)
    && exists t: nat :: t <= |EncodeAll(c, rest)| && s.db.disk == Append(s0.db.disk, Segment(s0.db.activeId), EncodeAll(c, rest)[..t])
  }

  /** The next segment of `s0` has been created, and is pending. */
  ghost predicate PendingShape(s: Sys, s0: Sys)
  {
    s.db.activeId == s0.db.segmentCounter < COMPACTION_ID_BASE && s.db.disk == Create(s0.db.disk, Segment(s0.db.segmentCounter))
  }

  /** After a failure the flusher is dead; beside the engine's disk is that of the intact state `s0`, which serves the same. */
  ghost predicate Twin(c: Codec, s: Sys, s0: Sys, rs: seq<Record>, complete: bool)
  {
    && s.db.failed && Intact(c, s0, complete) && AllWritable(c, rs) && Consecutive(rs, s0.db.nextSeq)
    && s.phase == s0.phase && s.view == s0.view
    && s.db.idx == s0.db.idx && s.db.nextSeq == s0.db.nextSeq && s.db.compactionCounter == s0.db.compactionCounter
    && (TailShape(c, s, s0, rs) || PendingShape(s, s0))
  }

  ghost predicate HasTwin(c: Codec, s: Sys, rs: seq<Record>, complete: bool)
  {
    exists s0 :: Twin(c, s, s0, rs, complete)
  }

  /** Nothing of the batch has been written. */
  lemma {:induction false} NoTail(c: Codec, s0: Sys, rs: seq<Record>)
    requires Segment(s0.db.activeId) in s0.db.disk.dir
    ensures exists t: nat :: t <= |EncodeAll(c, rs)| && s0.db.disk == Append(s0.db.disk, Segment(s0.db.activeId), EncodeAll(c, rs)[..t])
  {
    hide EncodeAll;
    var d, p := s0.db.disk, Segment(s0.db.activeId);
    assert EncodeAll(c, rs)[..0] == [];
    assert d.dir[p] + [] == d.dir[p];
    assert Append(d, p, EncodeAll(c, rs)[..0]) == d;
  }

  lemma {:induction false} TwinOf(c: Codec, s: Sys, s0: Sys, rs: seq<Record>, complete: bool)
    requires Twin(c, s, s0, rs, complete)
    ensures HasTwin(c, s, rs, complete)
  {
    hide Twin;
  }

  /** The rollover: at each point, and wherever it fails, an intact state is beside the disk. */
  lemma {:induction false} RollOverShadows(c: Codec, s: Sys, fault: Fault, rs: seq<Record>, complete: bool)
    requires Intact(c, s, complete) && AllWritable(c, rs) && Consecutive(rs, s.db.nextSeq)
    ensures Segment(s.db.activeId) in s.db.disk.dir
    ensures
      var o := RollOver(s.db, fault);
      && AllShadow(c, o.trace, s.phase, s.view, rs, complete)
      && (o.db.failed ==> HasTwin(c, s.(db := o.db), rs, complete))
      && (!o.db.failed ==> Intact(c, s.(db := o.db), complete) && o.db.nextSeq == s.db.nextSeq)
  {
    hide Intact, AllWritable, Consecutive, BesideDisk, Shadow, HasTwin;
    SameAgain(c, s, complete);
    NothingAppended(c, s, rs);
    ShadowOf(c, s, s.db.disk, rs, complete);
    CreatedBeside(c, s, rs, complete);
    RollOverStates(c, s, fault, complete);
    var o := RollOver(s.db, fault);
    if o.ok {
      NothingAppended(c, s.(db := o.db), rs);
      ShadowOf(c, s.(db := o.db), o.db.disk, rs, complete);
    } else if o.db.failed {
      NoTail(c, s, rs);
      TwinOf(c, s.(db := o.db), s, rs, complete);
    }
  }

  lemma {:induction false} CreatedBeside(c: Codec, s: Sys, rs: seq<Record>, complete: bool)
    requires Intact(c, s, complete) && AllWritable(c, rs) && Consecutive(rs, s.db.nextSeq)
    ensures s.db.segmentCounter < COMPACTION_ID_BASE ==>
      && Segment(s.db.segmentCounter) !in s.db.disk.dir
      && BesideDisk(c, s, Create(s.db.disk, Segment(s.db.segmentCounter)), rs)
      && Shadow(c, Create(s.db.disk, Segment(s.db.segmentCounter)), s.phase, s.view, rs, complete)
  {
    SegmentIsNew(c, s);
    hide Intact, AllWritable, Consecutive;
    if s.db.segmentCounter < COMPACTION_ID_BASE {
      hide Shadow;
      ShadowOf(c, s, Create(s.db.disk, Segment(s.db.segmentCounter)), rs, complete);
    }
  }

  /** A rollover that does not fail ends in an intact state. */
  lemma {:induction false} RollOverStates(c: Codec, s: Sys, fault: Fault, complete: bool)
    requires Intact(c, s, complete) && Segment(s.db.activeId) in s.db.disk.dir
    ensures
      var o := RollOver(s.db, fault);
      && (!o.db.failed ==> Intact(c, s.(db := o.db), complete) && o.db.nextSeq == s.db.nextSeq)
      && (o.ok ==> !o.db.failed && Segment(o.db.activeId) in o.db.disk.dir)
  {
    hide FramesOk, Durable, ViewOk, LiveDurable, RollOver;
    RollOverFrames(c, s, fault);
    RollOverDurable(c, s, fault);
    assert SysOk(c, s.(db := RollOver(s.db, fault).db)) by {
      var o := RollOver(s.db, fault);
      RollOverGrows(s.db, fault);
      ServesGrows(c, s.db.disk, o.db.disk, s.db.idx, s.view);
      PhaseGrows(c, s.db, o.db, s.phase);
    }
    assert
      var o := RollOver(s.db, fault);
      o.db.nextSeq == s.db.nextSeq && (o.ok ==> !o.db.failed && Segment(o.db.activeId) in o.db.disk.dir) by {
      RollOverGrows(s.db, fault);
    }
    if complete {
      RollOverLive(c, s, fault);
    }
  }

  /** The write stage likewise. */
  lemma {:induction false} WriteShadows(c: Codec, s: Sys, plan: Plan, fault: Fault, complete: bool)
    requires c.Lawful() && Intact(c, s, complete) && Writes(c, s.db, plan)
    ensures Segment(s.db.activeId) in s.db.disk.dir
    ensures
      var o := WriteStage(c, s.db, EncodeAll(c, plan.records), plan, fault);
      && AllShadow(c, o.trace, s.phase, s.view, plan.records, complete)
      && (!o.ok ==> o.db.failed && HasTwin(c, s.(db := o.db), plan.records, complete))
  {
    hide Intact, AllWritable, HasTwin, EncodeAll, ApplyAll;
    SameAgain(c, s, complete);
    var rs := plan.records;
    var buf := EncodeAll(c, rs);
    NothingAppended(c, s, rs);
    NoTail(c, s, rs);
    var o := WriteStage(c, s.db, buf, plan, fault);
    if !s.db.fileOpen {
      TwinOf(c, s.(db := o.db), s, rs, complete);
    } else {
      var n := if fault.WriteFails? && fault.written < |buf| then fault.written else |buf|;
      assert buf[..|buf|] == buf;
      var d1 := Append(s.db.disk, Segment(s.db.activeId), buf[..n]);
      ShadowOf(c, s, d1, rs, complete);
      if !o.ok {
        TwinOf(c, s.(db := o.db), s, rs, complete);
      } else {
        CommittedSane(c, s, rs, complete);
        // The whole batch is durable, though not yet applied.
        assert Segment(s.db.activeId) in s.db.disk.dir && Shadow(c, AfterCommit(c, s, rs).db.disk, s.phase, s.view, rs, complete) by {
          CommittedSane(c, s, rs, complete);
          var s' := AfterCommit(c, s, rs);
          NothingAppended(c, s', rs[|rs|..]);
          assert rs[..|rs|] == rs && rs[|rs|..] == [];
          assert Beside(c, s', s'.db.disk, s.phase, s.view, rs, |rs|, complete);
        }
      }
    }
  }

  /** A whole group commit. */
  lemma {:induction false} CommitShadows(cfg: Config, s: Sys, plan: Plan, fault: Fault, complete: bool)
    requires cfg.codec.Lawful() && Intact(cfg.codec, s, complete) && Writes(cfg.codec, s.db, plan)
    ensures Segment(s.db.activeId) in s.db.disk.dir
    ensures
      var c, o := cfg.codec, Commit(cfg, s.db, plan, fault);
      && AllShadow(c, o.trace, s.phase, s.view, plan.records, complete)
      && (o.db.failed ==> HasTwin(c, s.(db := o.db), plan.records, complete))
  {
    hide Intact, RollOver, EncodeAll, HasTwin, Shadow;
    SameAgain(cfg.codec, s, complete);
    var c, rs := cfg.codec, plan.records;
    RollOverShadows(c, s, fault, rs, complete);
    WriteShadows(c, s, plan, fault, complete);
    if s.db.activeSize + |EncodeAll(c, rs)| > cfg.maxSegmentSize {
      var rolled := RollOver(s.db, fault);
      RollOverStates(c, s, fault, complete);
      if rolled.ok {
        WriteShadows(c, s.(db := rolled.db), plan, fault, complete);
      }
    }
  }

  lemma {:induction false} SaneHealthy(c: Codec, s: Sys)
    requires Sane(c, s)
    ensures !s.db.failed
  {
  }
}
