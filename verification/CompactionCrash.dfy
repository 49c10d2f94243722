/**
 * Crashes while compaction and group commits interleave: what a reopened engine serves, and the exact
 * condition under which that is still the database.
 */
module CompactionCrash {
  import opened Wrappers
  import opened Bytes
  import opened Types
  import opened Frames
  import opened Index
  import opened LogMerge
  import opened Disk
  import opened GroupCommit
  import opened FlushIndex
  import opened Flusher
  import opened Resync
  import opened Recovery
  import opened ShelfReplay
  import opened CommitSafety
  import opened DiskView
  import opened FrameSets
  import opened Compaction
  import opened CompactionFrames
  import opened Survival
  import opened CompactionSteps

  // ---------- What is durable ----------

  ghost predicate Synced(d: Disk, id: nat)
  {
    var p := Segment(id);
    p in d.dir && p in d.durable && d.durable[p] == |d.dir[p]| && p !in d.creates
  }

  /** Everything but compaction's unfinished, or abandoned, output is durable between two steps. */
  ghost predicate Durable(s: Sys)
  {
    !s.db.failed ==>
      var d := s.db.disk;
      && WellFormed(d)
      && (forall id: nat :: Segment(id) in d.dir && id < COMPACTION_ID_BASE ==> Synced(d, id))
      && (s.phase.Sealed? ==> Synced(d, s.phase.out))
      && (s.phase.Unlinking? ==> forall id: nat :: Segment(id) in d.dir && id !in s.phase.inputs ==> Synced(d, id))
  }

  /** A step of the flusher keeps what is durable, and makes the segments it touches durable. */
  ghost predicate KeepsSynced(d: Disk, d': Disk)
  {
    && (WellFormed(d) ==> WellFormed(d'))
    && (forall id: nat :: Synced(d, id) ==> Synced(d', id))
    && (forall id: nat :: Segment(id) in d'.dir ==> Segment(id) in d.dir || Synced(d', id))
  }

  lemma {:induction false} DurableKept(s: Sys, s': Sys)
    requires Durable(s) && !s.db.failed && KeepsSynced(s.db.disk, s'.db.disk) && s'.phase == s.phase
    ensures Durable(s')
  {
    hide WellFormed, Synced;
  }

  lemma {:induction false} RollOverDurable(c: Codec, s: Sys, fault: Fault)
    requires SysOk(c, s) && Durable(s) && !s.db.failed && Segment(s.db.activeId) in s.db.disk.dir
    ensures Durable(s.(db := RollOver(s.db, fault).db))
  {
    hide SysOk;
    PhaseOuts(c, s);
    var s' := s.(db := RollOver(s.db, fault).db);
    if !s'.db.failed {
      DurableKept(s, s');
    }
  }

  /** Compaction's output is no segment the flusher writes to. */
  lemma {:induction false} PhaseOuts(c: Codec, s: Sys)
    requires SysOk(c, s)
    ensures s.phase.Copying? || s.phase.Sealed? ==> s.phase.out >= COMPACTION_ID_BASE
    ensures s.db.activeId < COMPACTION_ID_BASE
    ensures s.db.segmentCounter < COMPACTION_ID_BASE ==> Segment(s.db.segmentCounter) !in s.db.disk.dir
  {
    hide Serves, FreshFrom, ActiveOk;
  }

  lemma {:induction false} WriteDurable(c: Codec, s: Sys, view: map<string, Record>, plan: Plan, fault: Fault)
    requires SysOk(c, s) && Durable(s) && !s.db.failed && Segment(s.db.activeId) in s.db.disk.dir
    ensures
      var o := WriteStage(c, s.db, EncodeAll(c, plan.records), plan, fault);
      Durable(Sys(o.db, view, s.phase))
  {
    hide SysOk, EncodeAll, ApplyAll;
    PhaseOuts(c, s);
    var o := WriteStage(c, s.db, EncodeAll(c, plan.records), plan, fault);
    if o.ok {
      ActiveSynced(s);
      hide WriteStage, KeepsSynced, Synced;
      DurableKept(s, Sys(o.db, view, s.phase));
    }
  }

  lemma {:induction false} ActiveSynced(s: Sys)
    requires Durable(s) && !s.db.failed && s.db.activeId < COMPACTION_ID_BASE && Segment(s.db.activeId) in s.db.disk.dir
    ensures Synced(s.db.disk, s.db.activeId)
  {
  }

  lemma {:induction false} FlushDurable(cfg: Config, s: Sys, s': Sys, clock: Clock, batch: seq<LogEntry>, fault: Fault)
    requires SysOk(cfg.codec, s) && Durable(s) && FlushStep(cfg, s, s', clock, batch, fault)
    ensures Durable(s')
  {
    hide Durable, RollOver, WriteStage, Fold, PlanAll, AllWritable, EncodeAll;
    var c, db, plan := cfg.codec, s.db, PlanBatch(cfg, s.db, clock, batch);
    if db.activeSize + |EncodeAll(c, plan.records)| > cfg.maxSegmentSize {
      var rolled := RollOver(db, fault);
      RollOverDurable(c, s, fault);
      if rolled.ok {
        RollOverSysOk(c, s, fault);
        WriteDurable(c, s.(db := rolled.db), s'.view, plan, fault);
      }
    } else {
      WriteDurable(c, s, s'.view, plan, fault);
    }
  }

  lemma {:induction false} CreateDurable(c: Codec, s: Sys, s': Sys)
    requires SysOk(c, s) && Durable(s) && CreateStep(s, s')
    ensures Durable(s')
  {
    assert s.db.compactionCounter >= COMPACTION_ID_BASE by { hide Serves, FreshFrom, ActiveOk, PhaseOk; }
    hide SysOk;
    assert forall id: nat :: Synced(s.db.disk, id) ==> Synced(s'.db.disk, id);
  }

  lemma {:induction false} OutputGrows(s: Sys, s': Sys)
    requires Durable(s) && s.phase.Copying? && s.phase.out >= COMPACTION_ID_BASE
    requires s'.phase.NoCompaction? || (s'.phase.Copying? && s'.phase.out == s.phase.out)
    requires
      var d, d', p := s.db.disk, s'.db.disk, Segment(s.phase.out);
      && s'.db == s.db.(disk := d') && p in d.dir && p in d'.dir
      && d'.durable == d.durable && d'.creates == d.creates && d'.dir.Keys == d.dir.Keys
      && |d.dir[p]| <= |d'.dir[p]| && forall q :: q in d.dir && q != p ==> d'.dir[q] == d.dir[q]
    ensures Durable(s')
  {
    assert forall id: nat :: id != s.phase.out && Synced(s.db.disk, id) ==> Synced(s'.db.disk, id);
  }

  lemma {:induction false} CopyShape(c: Codec, s: Sys, s': Sys, k: string)
    requires CopyStep(c, s, s', k) || exists t :: CopyFailStep(c, s, s', k, t)
    ensures s.phase.Copying? && (s'.phase.NoCompaction? || (s'.phase.Copying? && s'.phase.out == s.phase.out))
    ensures s'.view == s.view
    ensures
      var d, d', p := s.db.disk, s'.db.disk, Segment(s.phase.out);
      && s'.db == s.db.(disk := d') && p in d.dir && p in d'.dir
      && d'.durable == d.durable && d'.creates == d.creates && d'.dir.Keys == d.dir.Keys
      && |d.dir[p]| <= |d'.dir[p]| && forall q :: q in d.dir && q != p ==> d'.dir[q] == d.dir[q]
  {
    hide ReadRecord, EncodeFrame;
  }

  lemma {:induction false} SealDurable(s: Sys, s': Sys)
    requires Durable(s) && (SealStep(s, s') || SyncOutStep(s, s'))
    ensures Durable(s')
  {
    assert forall id: nat :: Synced(s.db.disk, id) ==> Synced(s'.db.disk, id);
  }

  lemma {:induction false} SwapDurable(c: Codec, s: Sys, s': Sys, order: seq<string>)
    requires FramesOk(c, s) && Durable(s) && SwapStep(c, s, s', order)
    ensures Durable(s')
  {
    if !s.db.failed {
      hide FramesOk, SwapAll;
    }
  }

  lemma {:induction false} UnlinkDurable(c: Codec, s: Sys, s': Sys, id: nat)
    requires SysOk(c, s) && Durable(s) && UnlinkStep(s, s', id)
    ensures Durable(s')
  {
    InputIsNot(c, s, id);
    hide SysOk;
    UnlinkSynced(s.db.disk, id);
    hide Synced, WellFormed;
  }

  lemma {:induction false} InputIsNot(c: Codec, s: Sys, id: nat)
    requires SysOk(c, s) && s.phase.Unlinking? && id in s.phase.left
    ensures id in s.phase.inputs && id != s.db.activeId
  {
    hide Serves, FreshFrom, IdsOk, ActiveOk;
  }

  lemma {:induction false} UnlinkSynced(d: Disk, id: nat)
    requires Segment(id) in d.dir
    ensures WellFormed(d) ==> WellFormed(Unlink(d, Segment(id)))
    ensures forall j: nat :: j != id && Synced(d, j) ==> Synced(Unlink(d, Segment(id)), j)
  {
  }

  lemma {:induction false} FinishDurable(s: Sys, s': Sys)
    requires Durable(s) && (FinishStep(s, s') || FinishFailStep(s, s'))
    ensures Durable(s')
  {
    assert forall id: nat :: Synced(s.db.disk, id) ==> Synced(s'.db.disk, id);
  }

  lemma {:induction false} QuietSteps(s: Sys, s': Sys)
    requires Durable(s)
    requires BeginStep(s, s') || (exists k :: VisitStep(s, s', k)) || AbortStep(s, s') || (exists id :: UnlinkFailStep(s, s', id))
    ensures Durable(s')
  {
  }

  // ---------- Where the live records are ----------

  /** Segments that are going away, or still being written. */
  ghost function Volatile(phase: Phase): set<nat>
  {
    match phase
    case Copying(_, out, _, _) => {out}
    case Unlinking(inputs, _) => inputs
    case _ => {}
  }

  ghost predicate Stands(c: Codec, d: Disk, volatile: set<nat>, r: Record)
  {
    exists id: nat :: id !in volatile && Synced(d, id) && InFile(c, d, id, r)
  }

  /** Every live record is in a durable segment that stays. */
  ghost predicate LiveDurable(c: Codec, s: Sys)
  {
    !s.db.failed ==> forall k :: k in s.view ==> Stands(c, s.db.disk, Volatile(s.phase), s.view[k])
  }

  /** The database is all there is on disk, and durable. */
  ghost predicate Complete(c: Codec, s: Sys)
  {
    ViewOk(c, s) && LiveDurable(c, s)
  }

  /** Durable segments that stay are as they were. */
  ghost predicate Leaves(s: Sys, s': Sys)
  {
    forall id: nat :: id !in Volatile(s.phase) && Synced(s.db.disk, id) ==>
      id !in Volatile(s'.phase) && Synced(s'.db.disk, id) && s'.db.disk.dir[Segment(id)] == s.db.disk.dir[Segment(id)]
  }

  /** Compaction's own steps, but for the swap. */
  lemma {:induction false} StepLeaves(c: Codec, s: Sys, s': Sys)
    requires SysOk(c, s)
    requires
      || BeginStep(s, s') || (exists k :: VisitStep(s, s', k)) || CreateStep(s, s') || (exists k :: CopyStep(c, s, s', k))
      || (exists k, t :: CopyFailStep(c, s, s', k, t)) || SyncOutStep(s, s') || SealStep(s, s')
      || (exists id :: UnlinkStep(s, s', id)) || (exists id :: UnlinkFailStep(s, s', id))
      || FinishStep(s, s') || FinishFailStep(s, s') || AbortStep(s, s')
    ensures s'.view == s.view && s'.db.failed == s.db.failed && Leaves(s, s')
  {
    hide SysOk, CopyStep, CopyFailStep, Visited, SegmentIds;
    if id :| UnlinkStep(s, s', id) {
      assert Leaves(s, s') by {
        InputIsNot(c, s, id);
        UnlinkSynced(s.db.disk, id);
      }
    } else if k :| CopyStep(c, s, s', k) {
      assert s'.view == s.view && s'.db.failed == s.db.failed && Leaves(s, s') by {
        CopyShape(c, s, s', k);
      }
    } else if k, t :| CopyFailStep(c, s, s', k, t) {
      assert s'.view == s.view && s'.db.failed == s.db.failed && Leaves(s, s') by {
        CopyShape(c, s, s', k);
      }
    }
  }

  /** After the swap the live records are where the pointers lead, and all that is no input is durable. */
  lemma {:induction false} SwapLive(c: Codec, s: Sys, s': Sys, order: seq<string>)
    requires SysOk(c, s) && FramesOk(c, s) && Durable(s) && SwapStep(c, s, s', order)
    ensures LiveDurable(c, s')
  {
    hide SysOk, FramesOk, SwapAll;
    if s.db.failed {
      FailedLive(c, s');
    } else {
      SwapFacts(c, s, s', order);
      SwapDurable(c, s, s', order);
    }
  }

  lemma {:induction false} RollOverLive(c: Codec, s: Sys, fault: Fault)
    requires SysOk(c, s) && LiveDurable(c, s) && !s.db.failed && Segment(s.db.activeId) in s.db.disk.dir
    ensures LiveDurable(c, s.(db := RollOver(s.db, fault).db))
  {
    var s' := s.(db := RollOver(s.db, fault).db);
    PhaseOuts(c, s);
    if !s'.db.failed {
      assert LiveDurable(c, s') by {
        forall r | Stands(c, s.db.disk, Volatile(s.phase), r)
          ensures Stands(c, s'.db.disk, Volatile(s'.phase), r)
        {
          var id: nat :| id !in Volatile(s.phase) && Synced(s.db.disk, id) && InFile(c, s.db.disk, id, r);
          assert InFile(c, s'.db.disk, id, r);
        }
      }
    }
  }

  lemma {:induction false} WriteLive(c: Codec, s: Sys, plan: Plan, fault: Fault)
    requires c.Lawful() && Writes(c, s.db, plan)
    requires SysOk(c, s) && FramesOk(c, s) && Durable(s) && LiveDurable(c, s) && !s.db.failed && Segment(s.db.activeId) in s.db.disk.dir
    ensures
      var o := WriteStage(c, s.db, EncodeAll(c, plan.records), plan, fault);
      o.ok ==> LiveDurable(c, s.(db := o.db, view := Fold(s.view, plan.records)))
  {
    hide SysOk, Durable, EncodeAll, ApplyAll, Fold, AllWritable, Consecutive, FramesOk;
    PhaseOuts(c, s);
    ActiveSynced(s);
    ActiveStays(c, s);
    var rs, o := plan.records, WriteStage(c, s.db, EncodeAll(c, plan.records), plan, fault);
    if o.ok {
      WrittenFile(c, s, rs);
      assert LiveDurable(c, s.(db := o.db, view := Fold(s.view, rs))) by {
        FoldOrigin(s.view, rs);
        forall r | Stands(c, s.db.disk, Volatile(s.phase), r)
          ensures Stands(c, s.(db := o.db, view := Fold(s.view, rs)).db.disk, Volatile(s.phase), r)
        {
          var id: nat :| id !in Volatile(s.phase) && Synced(s.db.disk, id) && InFile(c, s.db.disk, id, r);
          assert InFile(c, s.(db := o.db, view := Fold(s.view, rs)).db.disk, id, r);
        }
        forall r | r in rs
          ensures Stands(c, s.(db := o.db, view := Fold(s.view, rs)).db.disk, Volatile(s.phase), r)
        {
          assert InFile(c, s.(db := o.db, view := Fold(s.view, rs)).db.disk, s.db.activeId, r);
        }
      }
    }
  }

  lemma {:induction false} ActiveStays(c: Codec, s: Sys)
    requires SysOk(c, s)
    ensures s.db.activeId !in Volatile(s.phase)
  {
    hide Serves, FreshFrom, ActiveOk, Leads, Copied;
  }

  lemma {:induction false} FlushLive(cfg: Config, s: Sys, s': Sys, clock: Clock, batch: seq<LogEntry>, fault: Fault)
    requires cfg.codec.Lawful() && Keeps(cfg.codec, s) && LiveDurable(cfg.codec, s) && FlushStep(cfg, s, s', clock, batch, fault)
    ensures LiveDurable(cfg.codec, s')
  {
    hide Durable, LiveDurable, FramesOk, RollOver, Fold, PlanAll, AllWritable, EncodeAll;
    var c, db, plan := cfg.codec, s.db, PlanBatch(cfg, s.db, clock, batch);
    PlanWrites(cfg, db, clock, batch);
    if s'.db.failed {
      FailedLive(c, s');
    } else if db.activeSize + |EncodeAll(c, plan.records)| > cfg.maxSegmentSize {
      var rolled := RollOver(db, fault);
      RollOverLive(c, s, fault);
      if rolled.ok {
        RollOverSysOk(c, s, fault);
        RollOverFrames(c, s, fault);
        RollOverDurable(c, s, fault);
        var s1 := s.(db := rolled.db);
        WriteLive(c, s1, plan, fault);
      }
    } else {
      WriteLive(c, s, plan, fault);
    }
  }

  lemma {:induction false} FailedLive(c: Codec, s: Sys)
    requires s.db.failed
    ensures LiveDurable(c, s)
  {
  }

  // ---------- The whole invariant ----------

  ghost predicate Keeps(c: Codec, s: Sys)
  {
    SysOk(c, s) && FramesOk(c, s) && Durable(s)
  }

  lemma {:induction false} StepDurable(cfg: Config, s: Sys, s': Sys)
    requires cfg.codec.Lawful() && Keeps(cfg.codec, s) && Next(cfg, s, s')
    ensures Durable(s')
  {
    hide SysOk, Durable, CopyStep, CopyFailStep;
    var c := cfg.codec;
    if clock, batch, fault :| FlushStep(cfg, s, s', clock, batch, fault) {
      FlushDurable(cfg, s, s', clock, batch, fault);
    } else if CreateStep(s, s') {
      CreateDurable(c, s, s');
    } else if k :| CopyStep(c, s, s', k) {
      assert Durable(s') by {
        PhaseOuts(c, s);
        CopyShape(c, s, s', k);
        OutputGrows(s, s');
      }
    } else if k, t :| CopyFailStep(c, s, s', k, t) {
      assert Durable(s') by {
        PhaseOuts(c, s);
        CopyShape(c, s, s', k);
        OutputGrows(s, s');
      }
    } else if SealStep(s, s') || SyncOutStep(s, s') {
      SealDurable(s, s');
    } else if order :| SwapStep(c, s, s', order) {
      SwapDurable(c, s, s', order);
    } else if id :| UnlinkStep(s, s', id) {
      UnlinkDurable(c, s, s', id);
    } else if FinishStep(s, s') || FinishFailStep(s, s') {
      FinishDurable(s, s');
    } else {
      QuietSteps(s, s');
    }
  }

  /** Every step keeps the whole invariant, and with luck where removals failed, the database on disk. */
  lemma {:induction false} StepKeeps(cfg: Config, s: Sys, s': Sys)
    requires cfg.codec.Lawful() && Keeps(cfg.codec, s) && Next(cfg, s, s')
    ensures Keeps(cfg.codec, s')
    ensures Complete(cfg.codec, s) && Lucky(cfg.codec, s, s') ==> Complete(cfg.codec, s')
  {
    hide SysOk, FramesOk, Durable, ViewOk, Lucky;
    StepOk(cfg, s, s');
    StepFrames(cfg, s, s');
    StepDurable(cfg, s, s');
    if LiveDurable(cfg.codec, s) {
      assert LiveDurable(cfg.codec, s') by {
        var c := cfg.codec;
        if clock, batch, fault :| FlushStep(cfg, s, s', clock, batch, fault) {
          FlushLive(cfg, s, s', clock, batch, fault);
        } else if order :| SwapStep(c, s, s', order) {
          SwapLive(c, s, s', order);
        } else {
          StepLeaves(c, s, s');
        }
      }
    }
  }

  // ---------- What a crash leaves ----------

  lemma {:induction false} SyncedSurvives(d: Disk, d': Disk, id: nat)
    requires CrashOf(d, d') && Synced(d, id)
    ensures Segment(id) in d'.dir && d'.dir[Segment(id)] == d.dir[Segment(id)]
  {
  }

  /** The state a crash may strike: everything invariant, the flusher not failed. */
  ghost predicate Sane(c: Codec, s: Sys)
  {
    SysOk(c, s) && FramesOk(c, s) && Durable(s) && !s.db.failed
  }

  /** The segments compaction is removing, or has removed without that being durable yet. */
  ghost function Doomed(phase: Phase, d: Disk): set<nat>
  {
    Hidden(phase) + Gone(d)
  }

  lemma {:induction false} CrashLoses(c: Codec, s: Sys, d': Disk)
    requires Sane(c, s) && CrashOf(s.db.disk, d')
    ensures Loses(c, Full(s.db.disk), d', Doomed(s.phase, s.db.disk))
  {
    var d, lost := Full(s.db.disk), Doomed(s.phase, s.db.disk);
    forall j: nat | Segment(j) in d'.dir
      ensures Segment(j) in d.dir
      ensures FramesIn(c, d'.dir[Segment(j)]) <= FramesIn(c, d.dir[Segment(j)])
    {
      PrefixFrames(c, d.dir[Segment(j)], d'.dir[Segment(j)]);
    }
    forall j: nat | j < COMPACTION_ID_BASE && Segment(j) in d'.dir
      ensures d'.dir[Segment(j)] == d.dir[Segment(j)]
    {
      assert Segment(j) in Full(s.db.disk).dir && d'.dir[Segment(j)] == Full(s.db.disk).dir[Segment(j)];
    }
    forall j: nat | j < COMPACTION_ID_BASE && j !in lost && Segment(j) in d.dir
      ensures Segment(j) in d'.dir
    {
      SyncedSurvives(s.db.disk, d', j);
    }
  }

  lemma {:induction false} CrashTidy(c: Codec, s: Sys, d': Disk)
    requires Sane(c, s) && CrashOf(s.db.disk, d')
    ensures Tidy(c, d')
  {
    assert Tidy(c, Full(s.db.disk));
    var d := Full(s.db.disk);
    forall j: nat | Segment(j) in d'.dir
      ensures if j < COMPACTION_ID_BASE then Clean(c, d'.dir[Segment(j)]) else TailTorn(c, d'.dir[Segment(j)])
    {
      if j < COMPACTION_ID_BASE {
        assert Segment(j) in Full(s.db.disk).dir && d'.dir[Segment(j)] == Full(s.db.disk).dir[Segment(j)] by {
          if Segment(j) in s.db.disk.dir {
            SyncedSurvives(s.db.disk, d', j);
          }
        }
      } else {
        assert TailTorn(c, d'.dir[Segment(j)]) by {
          assert d'.dir[Segment(j)] + d.dir[Segment(j)][|d'.dir[Segment(j)]|..] == d.dir[Segment(j)];
          CutAgain(c, d'.dir[Segment(j)], d.dir[Segment(j)][|d'.dir[Segment(j)]|..], 0);
        }
      }
    }
  }

  /** Whatever the crash, the frames found are in order. */
  lemma {:induction false} CrashDiskOk(c: Codec, s: Sys, d': Disk)
    requires Sane(c, s) && CrashOf(s.db.disk, d')
    ensures DiskOk(c, d', s.db.nextSeq, s.db.activeId, SegmentIds(d') - {s.db.activeId})
    ensures Consistent(OnDisk(c, d'))
  {
    var d, active, lost := Full(s.db.disk), s.db.activeId, Doomed(s.phase, s.db.disk);
    var skip := Skipped(s.phase, d, Gone(s.db.disk), active);
    CrashLoses(c, s, d');
    CrashTidy(c, s, d');
    LostIsSkipped(c, s);
    assert DiskOk(c, d, s.db.nextSeq, active, skip);
    hide Sane, CrashOf, Full, FramesSound, Ordered, CopiesActive, Originals, Tidy, SegmentIds, Skipped, Doomed, NormalsNewer, OnDiskExcept, Consistent, Gone;
    LosesDiskOk(c, d, d', s.db.nextSeq, lost, skip);
    IdleDisk(c, d', s.db.nextSeq, active, skip);
    SoundSets(c, d', s.db.nextSeq, {});
  }

  lemma {:induction false} LostIsSkipped(c: Codec, s: Sys)
    requires Sane(c, s)
    ensures
      var skip := Skipped(s.phase, Full(s.db.disk), Gone(s.db.disk), s.db.activeId);
      && Doomed(s.phase, s.db.disk) <= skip && s.db.activeId !in skip && NormalsNewer(Full(s.db.disk), skip)
  {
    ActiveThere(c, s);
    CompactionIds(c, s);
    GoneIff(s.db.disk, s.db.activeId);
    assert PendingOk(s.db.disk, s.phase) by { hide SysOk, Durable, DiskOk, PhaseFrames, PointsToFrames, Uppermost; }
    hide SysOk, DiskOk, Durable, PointsToFrames, Uppermost, PhaseFrames, Full, SegmentIds, Gone, NormalsNewer;
    GoneSkipped(s.db.disk, s.phase, s.db.activeId);
  }

  // ---------- The database a crash leaves ----------

  /** The newest frame of every key, the segments that are going away left aside, is durable. */
  lemma {:induction false} TopStands(c: Codec, s: Sys, t: Record)
    requires Sane(c, s) && Complete(c, s) && IsTop(OnDiskExcept(c, s.db.disk, Hidden(s.phase)), t)
    ensures Stands(c, s.db.disk, {}, t)
  {
    hide SysOk, OnDiskExcept, LiveView, Synced, WellFormed;
    var d, hidden := s.db.disk, Hidden(s.phase);
    LiveViewSound(OnDiskExcept(c, d, hidden));
    if t.IsActive() {
      assert t.Compound() in s.view && s.view[t.Compound()] == t;
      var id: nat :| id !in Volatile(s.phase) && Synced(d, id) && InFile(c, d, id, t);
      assert id !in {};
    } else {
      OnDiskIff(c, d, hidden, t);
      var id: nat :| id !in hidden && InFile(c, d, id, t);
      assert id < COMPACTION_ID_BASE by {
        assert InFile(c, Full(s.db.disk), id, t);
      }
      assert Synced(d, id);
    }
  }

  /**
   * A crash anywhere between two steps, whichever removals come back, keeps the database exactly when nothing found of
   * the segments that compaction was removing does harm: neither a deleted key's frame without a newer frame of that
   * key, nor a frame newer than a live record of its key.
   */
  lemma {:induction false} CrashViewExact(c: Codec, s: Sys, d': Disk)
    requires Sane(c, s) && Complete(c, s) && CrashOf(s.db.disk, d')
    ensures Consistent(OnDisk(c, d'))
    ensures LiveView(OnDisk(c, d')) == s.view <==> Survives(c, Doomed(s.phase, s.db.disk), d', s.view)
  {
    CrashLoses(c, s, d');
    CrashDiskOk(c, s, d');
    assert
      && OnDiskExcept(c, Full(s.db.disk), Doomed(s.phase, s.db.disk)) == OnDiskExcept(c, s.db.disk, Hidden(s.phase))
      && ViewOnDisk(c, Full(s.db.disk), Doomed(s.phase, s.db.disk), s.view) by {
      assert PendingOk(s.db.disk, s.phase) by { hide SysOk, Durable, DiskOk, PhaseFrames, PointsToFrames, Uppermost; }
      ExceptGone(c, s.db.disk, Hidden(s.phase));
    }
    hide Sane, OnDiskExcept, LiveView, Consistent, Full;
    var d, lost := Full(s.db.disk), Doomed(s.phase, s.db.disk);
    forall t | IsTop(OnDiskExcept(c, d, lost), t)
      ensures t in OnDisk(c, d')
    {
      TopStands(c, s, t);
      var id: nat :| id !in {} && Synced(s.db.disk, id) && InFile(c, s.db.disk, id, t);
      assert t in OnDisk(c, d') by {
        SyncedSurvives(s.db.disk, d', id);
        assert InFile(c, d', id, t);
        OnDiskIff(c, d', {}, t);
      }
    }
    SurvivesExactly(c, d, d', s.db.nextSeq, lost, s.view);
  }

  /** Before the pointer swap, or once all removals are durable, no crash can lose anything. */
  lemma {:induction false} CrashViewPlain(c: Codec, s: Sys, d': Disk)
    requires Sane(c, s) && Complete(c, s) && !s.phase.Unlinking? && s.db.disk.unlinks == map[] && CrashOf(s.db.disk, d')
    ensures Consistent(OnDisk(c, d')) && LiveView(OnDisk(c, d')) == s.view
  {
    NoneGone(s.db.disk);
    assert Doomed(s.phase, s.db.disk) == {};
    CrashViewExact(c, s, d');
    assert Survives(c, {}, d', s.view);
  }
}
