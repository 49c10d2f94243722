/** Every step of group commit and compaction keeps the frames on disk in order, and what is live on top. */
module CompactionSteps {
  import opened Wrappers
  import opened Bytes
  import opened Types
  import opened Frames
  import opened Index
  import opened LogMerge
  import opened Disk
  import opened GroupCommit
  import opened FlushIndex
  import opened Flusher
  import opened ShelfReplay
  import opened CommitSafety
  import opened DiskView
  import opened FrameSets
  import opened Compaction
  import opened CompactionFrames
  import opened Survival

  // ---------- Group commits ----------

  /** Replacing the newest normal segment's file by one with more frames. */
  lemma {:induction false} UpdateExtends(c: Codec, d: Disk, d': Disk, id: nat, file: bytes, rs: seq<Record>, next: nat)
    requires Tidy(c, d) && id < COMPACTION_ID_BASE
    requires forall j: nat :: Segment(j) in d.dir && j < COMPACTION_ID_BASE ==> j <= id
    requires d'.dir == d.dir[Segment(id) := file]
    requires Segment(id) in d.dir ==> d.dir[Segment(id)] <= file
    requires FramesIn(c, file) == FramesAt(c, d, id) + SetOf(rs) && Clean(c, file)
    requires AllWritable(c, rs) && Consecutive(rs, next)
    ensures Extends(c, d, d', id, rs, next) && Tidy(c, d')
  {
    hide FramesIn, Clean, AllWritable, Consecutive;
    UpdateAdds(c, d, d', id, file, rs);
    hide Tidy, Adds;
  }

  /** Segment `id` is no input and above all inputs, removed or not; compaction's output is a compacted segment. */
  ghost predicate PhaseBelow(s: Sys, id: nat)
  {
    && (!s.phase.NoCompaction? ==>
          id !in s.phase.inputs && forall i :: i in s.phase.inputs + Gone(s.db.disk) && i < COMPACTION_ID_BASE ==> i < id)
    && (s.phase.Copying? || s.phase.Sealed? ==> s.phase.out >= COMPACTION_ID_BASE)
    && s.db.idx.primary.Keys == s.view.Keys
    && s.db.activeId <= id
  }

  /** What a group commit needs to know of the phase it interleaves with. */
  lemma {:induction false} PhaseIds(c: Codec, s: Sys, id: nat)
    requires SysOk(c, s) && FramesOk(c, s) && !s.db.failed
    requires id == s.db.activeId || id == s.db.segmentCounter < COMPACTION_ID_BASE
    ensures PhaseBelow(s, id)
    ensures forall j: nat :: Segment(j) in Full(s.db.disk).dir && j < COMPACTION_ID_BASE ==> j <= s.db.activeId < s.db.segmentCounter
  {
    ActiveThere(c, s);
    CompactionIds(c, s);
    if !s.phase.NoCompaction? {
      assert forall i :: i in s.phase.inputs + Gone(s.db.disk) && i < COMPACTION_ID_BASE ==> i < s.db.activeId by {
        GoneIff(s.db.disk, s.db.activeId);
        assert Segment(s.db.activeId) in Full(s.db.disk).dir;
      }
    }
  }

  lemma {:induction false} CompactionIds(c: Codec, s: Sys)
    requires SysOk(c, s)
    ensures !s.phase.NoCompaction? ==> s.db.activeId !in s.phase.inputs
    ensures !s.phase.NoCompaction? ==> forall i :: i in s.phase.inputs && i < COMPACTION_ID_BASE ==> i < s.db.segmentCounter
    ensures s.phase.Copying? || s.phase.Sealed? ==> s.phase.out >= COMPACTION_ID_BASE
  {
    hide Serves, FreshFrom, IdsOk, ActiveOk, Leads, Copied;
  }

  lemma {:induction false} UpdateFull(d: Disk, d': Disk, id: nat, file: bytes)
    requires d'.dir == d.dir[Segment(id) := file] && d'.unlinks == d.unlinks
    ensures Full(d').dir == Full(d).dir[Segment(id) := file]
  {
  }

  /** A rollover settles what was pending and adds an empty newest segment. */
  lemma {:induction false} RollOverFrames(c: Codec, s: Sys, fault: Fault)
    requires SysOk(c, s) && FramesOk(c, s) && !s.db.failed
    requires Segment(s.db.activeId) in s.db.disk.dir
    ensures
      var s' := s.(db := RollOver(s.db, fault).db);
      FramesOk(c, s') && (ViewOk(c, s) ==> ViewOk(c, s'))
  {
    hide SysOk, RollOver;
    var o := RollOver(s.db, fault);
    var s' := s.(db := o.db);
    SegmentIsNew(c, s);
    RollOverShape(s.db, fault);
    if o.ok {
      var s1 := s.(db := s.db.(disk := s.db.disk.(unlinks := map[])));
      DirSyncFrames(c, s, s1);
      PhaseIds(c, s, s.db.segmentCounter);
      NoneGone(s1.db.disk);
      assert PhaseBelow(s1, s.db.segmentCounter) by { hide SysOk; }
      EmptySegmentFrames(c, s1, s', s.db.segmentCounter);
    } else if o.db.failed {
      FailedFrames(c, s');
    } else {
      assert FramesOk(c, s') && (ViewOk(c, s) ==> ViewOk(c, s')) by {
        var d, d' := s.db.disk, s'.db.disk;
        assert Full(d') == Full(d) && Gone(d') == Gone(d) && (PendingOk(d, s.phase) ==> PendingOk(d', s.phase));
        SameThere(c, d, d', s.db.idx, s.view, Hidden(s.phase));
        PhaseThere(c, d, d', Full(d), Full(d'), s.phase, s.view);
      }
    }
  }

  lemma {:induction false} SegmentIsNew(c: Codec, s: Sys)
    requires SysOk(c, s)
    ensures s.db.segmentCounter < COMPACTION_ID_BASE ==> Segment(s.db.segmentCounter) !in s.db.disk.dir
  {
    hide Serves, FreshFrom, ActiveOk, PhaseOk;
  }

  lemma {:induction false} RollOverShape(db: Db, fault: Fault)
    requires Segment(db.activeId) in db.disk.dir
    requires db.segmentCounter < COMPACTION_ID_BASE ==> Segment(db.segmentCounter) !in db.disk.dir
    ensures
      var o := RollOver(db, fault);
      && o.db.idx == db.idx && o.db.nextSeq == db.nextSeq
      && (o.ok ==>
            && db.segmentCounter < COMPACTION_ID_BASE && o.db.activeId == db.segmentCounter
            && o.db.disk.dir == db.disk.dir[Segment(db.segmentCounter) := []] && o.db.disk.unlinks == map[]
            && o.db.failed == db.failed)
      && (!o.ok && !o.db.failed ==>
            o.db.activeId == db.activeId && o.db.disk.dir == db.disk.dir && o.db.disk.unlinks == db.disk.unlinks)
  {
  }

  lemma {:induction false} SameThere(c: Codec, d: Disk, d': Disk, idx: Index, view: map<string, Record>, hidden: set<nat>)
    requires PointsToFrames(c, d, idx, view) && Uppermost(c, d, view) && d'.dir == d.dir
    ensures PointsToFrames(c, d', idx, view) && Uppermost(c, d', view)
    ensures ViewOnDisk(c, d, hidden, view) ==> ViewOnDisk(c, d', hidden, view)
  {
    SameOnDisk(c, d, d', {});
    SameOnDisk(c, d, d', hidden);
    hide OnDiskExcept, LiveView, Consistent, FramesIn;
    assert forall j: nat, r :: InFile(c, d', j, r) <==> InFile(c, d, j, r);
    hide InFile;
  }

  /** A new empty segment above all normal ones; removals stay pending. */
  lemma {:induction false} EmptySegmentFrames(c: Codec, s: Sys, s': Sys, id: nat)
    requires FramesOk(c, s) && !s.db.failed && !s'.db.failed && PhaseBelow(s, id) && s.db.activeId < id < COMPACTION_ID_BASE
    requires s'.db.disk.dir == s.db.disk.dir[Segment(id) := []] && s'.db.disk.unlinks == s.db.disk.unlinks
    requires s'.db.idx == s.db.idx && s'.db.nextSeq == s.db.nextSeq && s'.db.activeId == id
    requires s'.view == s.view && s'.phase == s.phase
    ensures FramesOk(c, s') && (ViewOk(c, s) ==> ViewOk(c, s'))
  {
    var d, f := s.db.disk, Full(s.db.disk);
    UpdateFull(d, s'.db.disk, id, []);
    EmptyFile(c);
    ThereTidy(c, s);
    assert FramesAt(c, f, id) == {} && FramesAt(c, d, id) == {};
    assert Segment(id) !in d.unlinks;
    hide FramesOk, ViewOk, FramesIn, Clean, AllWritable, Extends, Full, Tidy;
    UpdateExtends(c, f, Full(s'.db.disk), id, [], [], s.db.nextSeq);
    UpdateExtends(c, d, s'.db.disk, id, [], [], s.db.nextSeq);
    BatchFrames(c, s, s', id, 0, []);
  }

  /** Both the files there are and those with removals undone can be replayed. */
  lemma {:induction false} ThereTidy(c: Codec, s: Sys)
    requires FramesOk(c, s) && !s.db.failed
    ensures Tidy(c, Full(s.db.disk)) && Tidy(c, s.db.disk)
  {
    hide FramesSound, Ordered, CopiesActive, Originals, NewestIs, PhaseFrames, PointsToFrames, Uppermost, PendingOk, NormalsNewer, Skipped;
    assert FilesOf(Full(s.db.disk), s.db.disk);
  }

  /** A successful write adds the batch's frames to the active segment. */
  lemma {:induction false} WriteFrames(c: Codec, s: Sys, plan: Plan, fault: Fault)
    requires c.Lawful() && Writes(c, s.db, plan)
    requires SysOk(c, s) && FramesOk(c, s) && !s.db.failed
    requires Segment(s.db.activeId) in s.db.disk.dir
    ensures
      var o := WriteStage(c, s.db, EncodeAll(c, plan.records), plan, fault);
      var s' := s.(db := o.db, view := if o.ok then Fold(s.view, plan.records) else s.view);
      FramesOk(c, s') && (ViewOk(c, s) ==> ViewOk(c, s'))
  {
    hide EncodeAll, ApplyAll, Fold, AllWritable, Consecutive, FramesOk, SysOk, ViewOk;
    var rs := plan.records;
    var o := WriteStage(c, s.db, EncodeAll(c, rs), plan, fault);
    if o.ok {
      assert s.db.activeSize == |s.db.disk.dir[Segment(s.db.activeId)]| by { ActiveSize(c, s); }
      assert FramesOk(c, s.(db := o.db, view := Fold(s.view, rs))) && (ViewOk(c, s) ==> ViewOk(c, s.(db := o.db, view := Fold(s.view, rs)))) by {
        var d, d', id := s.db.disk, s.(db := o.db, view := Fold(s.view, rs)).db.disk, s.db.activeId;
        var file := d.dir[Segment(id)];
        PhaseIds(c, s, id);
        UpdateFull(d, d', id, file + EncodeAll(c, rs));
        WrittenFile(c, s, rs);
        ThereTidy(c, s);
        UpdateExtends(c, Full(d), Full(d'), id, file + EncodeAll(c, rs), rs, s.db.nextSeq);
        UpdateExtends(c, d, d', id, file + EncodeAll(c, rs), rs, s.db.nextSeq);
        BatchFrames(c, s, s.(db := o.db, view := Fold(s.view, rs)), id, s.db.activeSize, rs);
      }
    } else {
      FailedFrames(c, s.(db := o.db));
    }
  }

  lemma {:induction false} FailedFrames(c: Codec, s: Sys)
    requires s.db.failed
    ensures FramesOk(c, s) && ViewOk(c, s)
  {
  }

  lemma {:induction false} ActiveSize(c: Codec, s: Sys)
    requires SysOk(c, s) && !s.db.failed
    ensures Segment(s.db.activeId) in s.db.disk.dir && s.db.activeSize == |s.db.disk.dir[Segment(s.db.activeId)]|
  {
    hide Serves, FreshFrom, PhaseOk, IdsOk;
  }

  lemma {:induction false} WrittenFile(c: Codec, s: Sys, rs: seq<Record>)
    requires c.Lawful() && AllWritable(c, rs)
    requires FramesOk(c, s) && !s.db.failed
    requires Segment(s.db.activeId) in s.db.disk.dir
    ensures
      var p, f := Segment(s.db.activeId), Full(s.db.disk);
      var file := s.db.disk.dir[p];
      && p in f.dir && f.dir[p] == file && p !in s.db.disk.unlinks && s.db.activeId < COMPACTION_ID_BASE
      && Clean(c, file + EncodeAll(c, rs))
      && FramesIn(c, file + EncodeAll(c, rs)) == FramesIn(c, file) + SetOf(rs)
  {
    ThereTidy(c, s);
    hide FramesSound, Ordered, CopiesActive, Originals, PhaseFrames, PointsToFrames, Uppermost, NormalsNewer, Skipped, Gone, Clean, FramesIn, EncodeAll, AllWritable;
    AppendFrames(c, s.db.disk.dir[Segment(s.db.activeId)], rs);
  }

  lemma {:induction false} FlushFrames(cfg: Config, s: Sys, s': Sys, clock: Clock, batch: seq<LogEntry>, fault: Fault)
    requires cfg.codec.Lawful() && SysOk(cfg.codec, s) && FramesOk(cfg.codec, s)
    requires FlushStep(cfg, s, s', clock, batch, fault)
    ensures FramesOk(cfg.codec, s') && (ViewOk(cfg.codec, s) ==> ViewOk(cfg.codec, s'))
  {
    hide FramesOk, ViewOk, RollOver, WriteStage, Fold, PlanAll, AllWritable, EncodeAll;
    var c, db, plan := cfg.codec, s.db, PlanBatch(cfg, s.db, clock, batch);
    var buf := EncodeAll(c, plan.records);
    PlanWrites(cfg, db, clock, batch);
    if db.activeSize + |buf| > cfg.maxSegmentSize {
      var rolled := RollOver(db, fault);
      RollOverFrames(c, s, fault);
      if rolled.ok {
        var s1 := s.(db := rolled.db);
        RollOverSysOk(c, s, fault);
        WriteFrames(c, s1, plan, fault);
      }
    } else {
      WriteFrames(c, s, plan, fault);
    }
  }

  lemma {:induction false} RollOverSysOk(c: Codec, s: Sys, fault: Fault)
    requires SysOk(c, s) && !s.db.failed
    requires Segment(s.db.activeId) in s.db.disk.dir && RollOver(s.db, fault).ok
    ensures
      var o := RollOver(s.db, fault);
      && SysOk(c, s.(db := o.db)) && !o.db.failed
      && Segment(o.db.activeId) in o.db.disk.dir && o.db.nextSeq == s.db.nextSeq
  {
    hide Serves, FreshFrom, PhaseOk, RollOver, Grows;
    var o := RollOver(s.db, fault);
    RollOverGrows(s.db, fault);
    ServesGrows(c, s.db.disk, o.db.disk, s.db.idx, s.view);
    PhaseGrows(c, s.db, o.db, s.phase);
  }

  // ---------- Listing and walking ----------

  lemma {:induction false} BeginPending(d: Disk, phase: Phase, phase': Phase)
    requires PendingOk(d, phase) && phase'.Walking?
    ensures PendingOk(d, phase')
  {
    hide Gone;
  }

  lemma {:induction false} BeginSkipped(c: Codec, s: Sys, s': Sys)
    requires FramesOk(c, s) && !s.db.failed && BeginStep(s, s') && Segment(s.db.activeId) in s.db.disk.dir
    ensures
      var f, gone, active := Full(s.db.disk), Gone(s.db.disk), s.db.activeId;
      forall n: nat :: n in Skipped(s.phase, f, gone, active) <==> n in Skipped(s'.phase, f, gone, active)
  {
    hide DiskOk, ViewOnDisk, PointsToFrames, Uppermost, PhaseFrames, NormalsNewer, SegmentIds;
    forall n: nat
      ensures n in SegmentIds(Full(s.db.disk)) <==> n in SegmentIds(s.db.disk) || n in Gone(s.db.disk)
    {
      SegmentIdsIff(s.db.disk, n);
      SegmentIdsIff(Full(s.db.disk), n);
      GoneIff(s.db.disk, n);
    }
    GoneIff(s.db.disk, s.db.activeId);
    hide Gone;
  }

  lemma {:induction false} BeginPhase(c: Codec, s: Sys, s': Sys)
    requires BeginStep(s, s') && NewestIs(Full(s.db.disk), s.db.activeId)
    ensures PhaseFrames(c, s.db.disk, Full(s.db.disk), s'.phase, s.view) && Hidden(s'.phase) == Hidden(s.phase)
  {
    var d, inputs := s.db.disk, s'.phase.inputs;
    forall id: nat
      ensures id in inputs <==> Segment(id) in d.dir && id != s.db.activeId
    {
      SegmentIdsIff(s.db.disk, id);
    }
    hide Full, SegmentIds;
  }

  lemma {:induction false} VisitFrames(c: Codec, s: Sys, s': Sys, k: string)
    requires SysOk(c, s) && FramesOk(c, s) && VisitStep(s, s', k)
    ensures FramesOk(c, s') && (ViewOk(c, s) ==> ViewOk(c, s'))
  {
    if !s.db.failed {
      if k in s.db.idx.primary {
        assert PickOk(c, s.db.disk, s.phase.inputs, s.db.idx.primary[k]) by {
          LiveLeads(c, s.db.disk, s.db.idx, s.view, k);
          // A live record is the newest frame of its key.
          assert s.view[k].IsActive() && NotShadowed(c, s.db.disk, s.phase.inputs, s.view[k]) by {
            LiveViewSound(OnDisk(c, s.db.disk));
            forall id: nat, g | id in s.phase.inputs && InFile(c, s.db.disk, id, g) && g.Compound() == s.view[k].Compound()
              ensures g.seqId <= s.view[k].seqId
            {
              OnDiskIff(c, s.db.disk, {}, g);
            }
          }
        }
      }
      VisitPhase(c, s.db.disk, Full(s.db.disk), s, s', k);
    }
  }

  lemma {:induction false} VisitPhase(c: Codec, d: Disk, f: Disk, s: Sys, s': Sys, k: string)
    requires VisitStep(s, s', k) && PhaseFrames(c, d, f, s.phase, s.view)
    requires k in s.db.idx.primary ==> PickOk(c, d, s.phase.inputs, s.db.idx.primary[k])
    ensures PhaseFrames(c, d, f, s'.phase, s.view) && Hidden(s'.phase) == Hidden(s.phase)
  {
    hide PickOk, OnlyCompacted;
  }

  // ---------- Copying ----------

  lemma {:induction false} CreateFrames(c: Codec, s: Sys, s': Sys)
    requires SysOk(c, s) && FramesOk(c, s) && CreateStep(s, s')
    ensures FramesOk(c, s') && (ViewOk(c, s) ==> ViewOk(c, s'))
  {
    if !s.db.failed {
      var d, d', out := s.db.disk, s'.db.disk, s.db.compactionCounter;
      OutIsNew(c, s);
      // The files with removals undone, and what is pending.
      assert
        var f', skip := Full(s'.db.disk), Skipped(s'.phase, Full(s'.db.disk), Gone(s'.db.disk), s.db.activeId);
        DiskOk(c, f', s.db.nextSeq, s.db.activeId, skip) && NormalsNewer(f', skip) by {
        var f, f', out := Full(s.db.disk), Full(s'.db.disk), s.db.compactionCounter;
        UpdateFull(s.db.disk, s'.db.disk, out, []);
        EmptyFile(c);
        assert SetOf([]) == {};
        assert FramesAt(c, f, out) == {};
        UpdateAdds(c, f, f', out, [], []);
        EmptyOut(c, f, f', out, s.db.nextSeq, s.db.activeId, s.phase.inputs + Gone(s.db.disk));
      }
      CreatedThere(c, s, s');
      assert PendingOk(d', s'.phase);
    }
  }

  lemma {:induction false} OutIsNew(c: Codec, s: Sys)
    requires SysOk(c, s) && FramesOk(c, s) && !s.db.failed
    ensures COMPACTION_ID_BASE <= s.db.compactionCounter
    ensures s.phase.Walking? ==> forall i :: i in s.phase.inputs ==> i < s.db.compactionCounter
    ensures Segment(s.db.compactionCounter) !in s.db.disk.unlinks
  {
    hide Serves, FreshFrom, ActiveOk, DiskOk, PhaseFrames, PointsToFrames, Uppermost, NormalsNewer, Skipped, Full, Leads;
    assert PendingOk(s.db.disk, s.phase);
    GoneIff(s.db.disk, s.db.compactionCounter);
    hide Gone;
  }

  /** The files there are. */
  lemma {:induction false} CreatedThere(c: Codec, s: Sys, s': Sys)
    requires FramesOk(c, s) && !s.db.failed && CreateStep(s, s')
    requires COMPACTION_ID_BASE <= s.db.compactionCounter && forall i :: i in s.phase.inputs ==> i < s.db.compactionCounter
    ensures
      var d', f' := s'.db.disk, Full(s'.db.disk);
      && PointsToFrames(c, d', s.db.idx, s.view) && Uppermost(c, d', s.view) && PhaseFrames(c, d', f', s'.phase, s.view)
      && (ViewOnDisk(c, s.db.disk, {}, s.view) ==> ViewOnDisk(c, d', {}, s.view))
  {
    var d, d', out := s.db.disk, s'.db.disk, s.db.compactionCounter;
    EmptyFile(c);
    assert SetOf([]) == {};
    UpdateAdds(c, d, d', out, [], []);
    assert Grows(d, d');
    assert PointsToFrames(c, d', s.db.idx, s.view) && Uppermost(c, d', s.view) && OnDisk(c, d') == OnDisk(c, d) by {
      OnDiskAdds(c, d, d', out, [], {});
      assert OnDiskExcept(c, d', {}) == OnDiskExcept(c, d, {});
    }
    assert
      && OnlyCompacted(d', s.phase.inputs, {out}) && OutFrames(c, d', s.phase.inputs, out)
      && (forall k :: k in s.phase.picked ==> PickOk(c, d', s.phase.inputs, s.phase.picked[k])) by {
      forall k | k in s.phase.picked
        ensures PickOk(c, d', s.phase.inputs, s.phase.picked[k])
      {
        assert PickOk(c, d', s.phase.inputs, s.phase.picked[k]) by {
          ReadGrows(c, d, d', s.phase.picked[k]);
        }
      }
    }
  }

  lemma {:induction false} EmptyOut(c: Codec, d: Disk, d': Disk, out: nat, next: nat, active: nat, skip: set<nat>)
    requires DiskOk(c, d, next, active, skip) && Adds(c, d, d', out, []) && out >= COMPACTION_ID_BASE && Tidy(c, d')
    ensures DiskOk(c, d', next, active, skip)
  {
    hide Tidy;
    assert forall j: nat, r :: InFile(c, d', j, r) <==> InFile(c, d, j, r);
    hide InFile, Writable;
    forall x: nat, n: nat, g, r |
      x >= COMPACTION_ID_BASE && n < COMPACTION_ID_BASE && n !in skip && InFile(c, d', x, g) && InFile(c, d', n, r) && g.seqId > r.seqId
      ensures HasOriginal(c, d', n, g)
    {
      var m: nat :| n <= m < COMPACTION_ID_BASE && InFile(c, d, m, g);
      assert InFile(c, d', m, g);
    }
  }

  lemma {:induction false} CopyFrames(c: Codec, s: Sys, s': Sys, k: string)
    requires c.Lawful() && SysOk(c, s) && FramesOk(c, s) && CopyStep(c, s, s', k)
    ensures FramesOk(c, s') && (ViewOk(c, s) ==> ViewOk(c, s'))
  {
    if !s.db.failed {
      var from := s.phase.todo[k];
      var r := ReadRecord(c, s.db.disk, from).value;
      // The copy reads back.
      assert k in s'.phase.moved && ReadRecord(c, s'.db.disk, s'.phase.moved[k].to) == Some(r) by {
        CopyReads(c, s.db.disk.dir[Segment(s.phase.out)], r);
      }
      CopyDisks(c, s, s', k, r);
      CopiedThere(c, s, s', k, r);
      // The files with removals undone stay in order.
      assert
        var f', skip := Full(s'.db.disk), Skipped(s'.phase, Full(s'.db.disk), Gone(s'.db.disk), s.db.activeId);
        DiskOk(c, f', s.db.nextSeq, s.db.activeId, skip) && NormalsNewer(f', skip) by {
        var f, f', from := Full(s.db.disk), Full(s'.db.disk), s.phase.todo[k];
        assert PickOk(c, s.db.disk, s.phase.inputs, from);
        SameUnlinks(c, s, s', k);
        CopyDiskOk(c, f, f', s.phase.out, r, from.segmentId, s.db.nextSeq, s.phase.inputs + Gone(s.db.disk));
      }
      assert PendingOk(s'.db.disk, s'.phase);
    }
  }

  /** One more frame at the end of the output. */
  ghost predicate CopyExtends(c: Codec, d: Disk, d': Disk, out: nat, r: Record)
  {
    Adds(c, d, d', out, [r]) && Grows(d, d') && Tidy(c, d') && Segment(out) in d'.dir && Clean(c, d'.dir[Segment(out)])
  }

  lemma {:induction false} CopyDisks(c: Codec, s: Sys, s': Sys, k: string, r: Record)
    requires c.Lawful() && FramesOk(c, s) && !s.db.failed && CopyStep(c, s, s', k)
    requires Leads(c, s.db.disk, k, s.phase.todo[k]) && ReadRecord(c, s.db.disk, s.phase.todo[k]) == Some(r)
    requires s.phase.out >= COMPACTION_ID_BASE
    ensures CopyExtends(c, s.db.disk, s'.db.disk, s.phase.out, r)
    ensures CopyExtends(c, Full(s.db.disk), Full(s'.db.disk), s.phase.out, r)
  {
    hide DiskOk, NormalsNewer, PointsToFrames, Uppermost, PendingOk, PickOk, Tidy, FramesIn, TailTorn, EncodeFrame, Skipped, Gone;
    var d, d', out := s.db.disk, s'.db.disk, s.phase.out;
    var file := d.dir[Segment(out)];
    assert Clean(c, file) && Writable(c, r);
    ThereTidy(c, s);
    UpdateFull(d, d', out, file + EncodeFrame(c, r));
    OneFrame(c, file, r);
    assert Segment(out) in Full(d).dir && Full(d).dir[Segment(out)] == file;
    hide FramesOk, Full, Clean, Writable, Leads, ReadRecord;
    assert SetOf([r]) == {r};
    OutGrows(c, d, d', out, file + EncodeFrame(c, r), r);
    OutGrows(c, Full(d), Full(d'), out, file + EncodeFrame(c, r), r);
  }

  lemma {:induction false} OutGrows(c: Codec, d: Disk, d': Disk, out: nat, file: bytes, r: Record)
    requires Tidy(c, d) && Segment(out) in d.dir && d'.dir == d.dir[Segment(out) := file] && d.dir[Segment(out)] <= file
    requires FramesIn(c, file) == FramesIn(c, d.dir[Segment(out)]) + SetOf([r]) && Clean(c, file) && out >= COMPACTION_ID_BASE
    ensures CopyExtends(c, d, d', out, r)
  {
    UpdateAdds(c, d, d', out, file, [r]);
  }

  lemma {:induction false} OneFrame(c: Codec, file: bytes, r: Record)
    requires c.Lawful() && Writable(c, r) && Clean(c, file)
    ensures Clean(c, file + EncodeFrame(c, r))
    ensures FramesIn(c, file + EncodeFrame(c, r)) == FramesIn(c, file) + SetOf([r])
  {
    hide Clean, FramesIn, EncodeFrame, Writable;
    assert EncodeAll(c, [r]) == EncodeFrame(c, r) by {
      assert [r][1..] == [];
      assert EncodeFrame(c, r) + [] == EncodeFrame(c, r);
    }
    AppendFrames(c, file, [r]);
  }

  lemma {:induction false} SameUnlinks(c: Codec, s: Sys, s': Sys, k: string)
    requires CopyStep(c, s, s', k)
    ensures s.phase.Copying? && s'.phase.Copying? && s'.phase.inputs == s.phase.inputs && s'.phase.out == s.phase.out
    ensures Gone(s'.db.disk) == Gone(s.db.disk) && s'.db.disk.unlinks == s.db.disk.unlinks && s'.db.disk.dir.Keys == s.db.disk.dir.Keys
  {
    hide ReadRecord, EncodeFrame;
  }

  /** Frames that are copies change neither the view nor where it is found. */
  lemma {:induction false} CopiedThere(c: Codec, s: Sys, s': Sys, k: string, r: Record)
    requires FramesOk(c, s) && !s.db.failed && CopyStep(c, s, s', k) && s.phase.out >= COMPACTION_ID_BASE && s.phase.out !in s.phase.inputs
    requires ReadRecord(c, s.db.disk, s.phase.todo[k]) == Some(r) && CopyExtends(c, s.db.disk, s'.db.disk, s.phase.out, r)
    requires k in s'.phase.moved && ReadRecord(c, s'.db.disk, s'.phase.moved[k].to) == Some(r)
    ensures
      var d', f' := s'.db.disk, Full(s'.db.disk);
      && PointsToFrames(c, d', s.db.idx, s.view) && Uppermost(c, d', s.view) && PhaseFrames(c, d', f', s'.phase, s.view)
      && (ViewOnDisk(c, s.db.disk, {}, s.view) ==> ViewOnDisk(c, d', {}, s.view))
  {
    hide DiskOk, NormalsNewer, PendingOk, Skipped, Full, InFile, Clean, EncodeFrame, Grows, Writable, Tidy, ReadAt, Gone;
    var d, d', out, from := s.db.disk, s'.db.disk, s.phase.out, s.phase.todo[k];
    assert PickOk(c, d, s.phase.inputs, from);
    assert InFile(c, d, from.segmentId, r) && r.IsActive() && NotShadowed(c, d, s.phase.inputs, r);
    assert PhaseFrames(c, d', Full(d'), s'.phase, s.view) by {
      var inputs, out := s.phase.inputs, s.phase.out;
      forall q | NotShadowed(c, d, inputs, q)
        ensures NotShadowed(c, d', inputs, q)
      {
      }
      assert InFile(c, d', out, r);
      assert PickOk(c, d', inputs, s'.phase.moved[k].to);
      forall p | PickOk(c, d, inputs, p)
        ensures PickOk(c, d', inputs, p)
      {
        assert PickOk(c, d', inputs, p) by {
          ReadGrows(c, d, d', p);
        }
      }
      assert OutFrames(c, d', inputs, out);
    }
    CopyView(c, d, d', out, from.segmentId, r, s.db.idx, s.view);
    hide PhaseFrames, PointsToFrames, Uppermost, Consistent, LiveView, OnDiskExcept, CopyStep;
  }

  lemma {:induction false} CopyView(c: Codec, d: Disk, d': Disk, out: nat, from: nat, r: Record, idx: Index, view: map<string, Record>)
    requires Adds(c, d, d', out, [r]) && InFile(c, d, from, r)
    requires PointsToFrames(c, d, idx, view) && Uppermost(c, d, view)
    ensures PointsToFrames(c, d', idx, view) && Uppermost(c, d', view) && OnDisk(c, d') == OnDisk(c, d)
  {
    hide InFile, OnDiskExcept, LiveView, Consistent;
    OnDiskAdds(c, d, d', out, [r], {});
    OnDiskIff(c, d, {}, r);
    assert OnDiskExcept(c, d', {}) == OnDiskExcept(c, d, {});
  }

  lemma {:induction false} SealFrames(c: Codec, s: Sys, s': Sys)
    requires SysOk(c, s) && FramesOk(c, s) && SealStep(s, s')
    ensures FramesOk(c, s') && (ViewOk(c, s) ==> ViewOk(c, s'))
  {
    hide SysOk, DiskOk, ViewOnDisk, PointsToFrames, Uppermost, PickOk, NormalsNewer, OnlyCompacted, OutFrames, Full, Gone;
    if !s.db.failed {
      var s1 := s'.(phase := s.phase);
      assert FramesOk(c, s1) && (ViewOk(c, s) ==> ViewOk(c, s1)) by { hide FramesOk, ViewOk; DirSyncFrames(c, s, s1); }
      assert Hidden(s'.phase) == Hidden(s.phase);
    }
  }

  // ---------- Swapping ----------

  /** A moved key's copy is the live record, as long as its pointer has not moved on. */
  lemma {:induction false} MovedRecord(c: Codec, s: Sys, k: string)
    requires SysOk(c, s) && FramesOk(c, s) && !s.db.failed && s.phase.Sealed?
    requires k in s.view && k in s.phase.moved && k in s.db.idx.primary && s.db.idx.primary[k] == s.phase.moved[k].from
    ensures InFile(c, s.db.disk, s.phase.moved[k].to.segmentId, s.view[k])
  {
    hide InFile, DiskOk, Uppermost, FreshFrom, IdsOk, ActiveOk, InputsOk, OutOk, NotShadowed, OutFrames, NormalsNewer, OnlyCompacted, ReadAt, Holds, Full, Gone;
    LiveLeads(c, s.db.disk, s.db.idx, s.view, k);
    assert Copied(c, s.db.disk, s.phase.out, k, s.phase.moved[k]);
    assert PickOk(c, s.db.disk, s.phase.inputs, s.phase.moved[k].to);
  }

  lemma {:induction false} SwapPointers(c: Codec, s: Sys, s': Sys, order: seq<string>)
    requires SysOk(c, s) && FramesOk(c, s) && !s.db.failed && SwapStep(c, s, s', order)
    ensures PointsToFrames(c, s.db.disk, s'.db.idx, s.view)
  {
    hide InFile, DiskOk, Uppermost, FreshSeq, SwapAll, IdsOk, ActiveOk, InputsOk, OutOk, NotShadowed, NormalsNewer, Full, Gone;
    SwapAllServes(c, s.db.disk, s.db.idx, s.view, s.phase.moved, s.phase.out, order, s.db.nextSeq);
    forall k | k in s.view && k in s'.db.idx.primary
      ensures InFile(c, s.db.disk, s'.db.idx.primary[k].segmentId, s.view[k])
    {
      if k in order && s.db.idx.primary[k] == s.phase.moved[k].from {
        MovedRecord(c, s, k);
      }
    }
  }

  /** What is not an input is newer than the inputs, unless it is a copy of a frame nothing shadows. */
  lemma {:induction false} KeptNotShadowed(c: Codec, d: Disk, inputs: set<nat>, out: nat, id: nat, r: Record, x: nat, g: Record)
    requires Ordered(c, d) && Originals(c, d, inputs)
    requires NormalsNewer(d, inputs) && OnlyCompacted(d, inputs, {out}) && OutFrames(c, d, inputs, out)
    requires id !in inputs && InFile(c, d, id, r)
    requires x in inputs && InFile(c, d, x, g) && Older(r, g)
    ensures exists m: nat :: m !in inputs && InFile(c, d, m, g)
  {
    assert Segment(id) in d.dir && Segment(x) in d.dir;
    hide FramesIn;
    if id != out && x >= COMPACTION_ID_BASE {
      assert HasOriginal(c, d, id, g);
      var m: nat :| id <= m < COMPACTION_ID_BASE && InFile(c, d, m, g);
      assert m in inputs ==> m < id;
    }
  }

  /** Once no live pointer leads into an input, the other segments alone hold the database. */
  lemma {:induction false} SwappedView(c: Codec, d: Disk, next: nat, inputs: set<nat>, out: nat, idx: Index, view: map<string, Record>)
    requires FramesSound(c, d, next) && Ordered(c, d) && Originals(c, d, inputs)
    requires NormalsNewer(d, inputs) && OnlyCompacted(d, inputs, {out}) && OutFrames(c, d, inputs, out)
    requires PointsToFrames(c, d, idx, view) && idx.primary.Keys == view.Keys
    requires forall k :: k in idx.primary ==> idx.primary[k].segmentId !in inputs
    requires ViewOnDisk(c, d, {}, view)
    ensures ViewOnDisk(c, d, inputs, view)
  {
    hide InFile, OnDiskExcept, LiveView, Ordered, Originals, NormalsNewer, OnlyCompacted, OutFrames;
    var all, kept := OnDiskExcept(c, d, {}), OnDiskExcept(c, d, inputs);
    SoundSets(c, d, next, inputs);
    hide FramesSound, Consistent;
    LiveViewSound(all);
    LiveViewSound(kept);
    KeptSubset(c, d, inputs);
    forall k | k in view
      ensures k in LiveView(kept) && LiveView(kept)[k] == view[k]
    {
      OnDiskIff(c, d, inputs, view[k]);
      assert view[k] in kept;
      assert IsTop(kept, view[k]);
    }
    forall k | k in LiveView(kept)
      ensures k in view
    {
      assert IsTop(OnDiskExcept(c, d, {}), LiveView(kept)[k]) by {
        KeptSubset(c, d, inputs);
        OnDiskIff(c, d, inputs, LiveView(kept)[k]);
        var id: nat :| id !in inputs && InFile(c, d, id, LiveView(kept)[k]);
        forall g | g in OnDiskExcept(c, d, {}) && g.Compound() == LiveView(kept)[k].Compound()
          ensures g.seqId <= LiveView(kept)[k].seqId
        {
          if g.seqId > LiveView(kept)[k].seqId {
            OnDiskIff(c, d, {}, g);
            OnDiskIff(c, d, inputs, g);
            var x: nat :| InFile(c, d, x, g);
            if x in inputs {
              KeptNotShadowed(c, d, inputs, out, id, LiveView(kept)[k], x, g);
            }
            assert false;
          }
        }
      }
    }
  }

  lemma {:induction false} KeptSubset(c: Codec, d: Disk, inputs: set<nat>)
    ensures OnDiskExcept(c, d, inputs) <= OnDiskExcept(c, d, {})
  {
    hide OnDiskExcept, InFile;
    forall r | r in OnDiskExcept(c, d, inputs)
      ensures r in OnDiskExcept(c, d, {})
    {
      OnDiskIff(c, d, inputs, r);
      OnDiskIff(c, d, {}, r);
    }
  }

  lemma {:induction false} SwapFrames(c: Codec, s: Sys, s': Sys, order: seq<string>)
    requires SysOk(c, s) && FramesOk(c, s) && SwapStep(c, s, s', order)
    ensures FramesOk(c, s') && (ViewOk(c, s) ==> ViewOk(c, s'))
  {
    hide SysOk, Uppermost, Full, SwapAll, NormalsNewer, Gone;
    if !s.db.failed {
      SwapFacts(c, s, s', order);
      NoneGone(s.db.disk);
      CompactionIds(c, s);
      SwappedPhase(c, s);
      if ViewOk(c, s) {
        FullPlain(s.db.disk);
        assert s.phase.inputs + {} == s.phase.inputs;
        assert ViewOnDisk(c, s.db.disk, s.phase.inputs, s.view) by {
          SameOnDisk(c, s.db.disk, Full(s.db.disk), {});
          SameOnDisk(c, s.db.disk, Full(s.db.disk), s.phase.inputs);
          assert forall j: nat, r :: InFile(c, Full(s.db.disk), j, r) <==> InFile(c, s.db.disk, j, r);
          SwappedView(c, Full(s.db.disk), s.db.nextSeq, s.phase.inputs, s.phase.out, s'.db.idx, s.view);
        }
      }
    }
  }

  lemma {:induction false} SwapFacts(c: Codec, s: Sys, s': Sys, order: seq<string>)
    requires SysOk(c, s) && FramesOk(c, s) && !s.db.failed && SwapStep(c, s, s', order)
    ensures PointsToFrames(c, s.db.disk, s'.db.idx, s.view)
    ensures s'.db.idx.primary.Keys == s.view.Keys
    ensures forall k :: k in s'.db.idx.primary ==> s'.db.idx.primary[k].segmentId !in s.phase.inputs
  {
    hide SwapAll, FramesOk, PointsToFrames;
    SwapPointers(c, s, s', order);
    SwapOk(c, s, s', order);
    PointersAvoid(c, s');
  }

  lemma {:induction false} PointersAvoid(c: Codec, s: Sys)
    requires SysOk(c, s) && s.phase.Unlinking?
    ensures forall k :: k in s.db.idx.primary ==> s.db.idx.primary[k].segmentId !in s.phase.inputs
  {
    hide Serves, FreshFrom, IdsOk, ActiveOk;
  }

  lemma {:induction false} SwappedPhase(c: Codec, s: Sys)
    requires FramesOk(c, s) && !s.db.failed && s.phase.Sealed? && s.phase.out >= COMPACTION_ID_BASE
    ensures PhaseFrames(c, s.db.disk, Full(s.db.disk), Unlinking(s.phase.inputs, s.phase.inputs), s.view)
  {
    var d, f, inputs := s.db.disk, Full(s.db.disk), s.phase.inputs;
    FullPlain(d);
    SameOnDisk(c, d, f, {});
    hide DiskOk, PointsToFrames, NormalsNewer, PickOk, Clean, Full, FramesIn, OnDiskExcept, LiveView, Consistent;
    assert s.phase.out !in inputs && OutAbove(d, inputs);
    assert Uppermost(c, f, s.view);
    forall k | k in s.view
      ensures NotShadowed(c, f, inputs, s.view[k])
    {
      // A live record is the newest frame of its key.
      LiveViewSound(OnDisk(c, f));
      forall id: nat, g | id in inputs && InFile(c, f, id, g) && g.Compound() == s.view[k].Compound()
        ensures g.seqId <= s.view[k].seqId
      {
        OnDiskIff(c, f, {}, g);
      }
    }
  }

  // ---------- Removing ----------

  lemma {:induction false} UnlinkFrames(c: Codec, s: Sys, s': Sys, id: nat)
    requires SysOk(c, s) && FramesOk(c, s) && UnlinkStep(s, s', id)
    ensures FramesOk(c, s') && (ViewOk(c, s) ==> ViewOk(c, s'))
  {
    hide DiskOk, NormalsNewer, PendingOk, Gone, Unlink;
    if !s.db.failed {
      UnlinkFull(c, s, s', id);
      // What is not removed is as it was.
      PointersAvoid(c, s);
      var d, d', inputs := s.db.disk, s'.db.disk, s.phase.inputs;
      Removed(d, inputs, id);
      UpperOutside(c, d, d', inputs, s.db.idx, s.view);
      OutsideSame(c, d, d', inputs);
      assert OutAbove(d, inputs) ==> OutAbove(d', inputs);
      assert s.phase.inputs + Gone(s'.db.disk) == s.phase.inputs + Gone(s.db.disk);
    }
  }

  /** A removal that fails leaves the file where it was. */
  lemma {:induction false} UnlinkFailFrames(c: Codec, s: Sys, s': Sys, id: nat)
    requires FramesOk(c, s) && UnlinkFailStep(s, s', id)
    ensures FramesOk(c, s') && (ViewOk(c, s) ==> ViewOk(c, s'))
  {
    hide DiskOk, LiveNotShadowed, NormalsNewer, ViewOnDisk, PointsToFrames, Uppermost, Full, Gone;
  }

  lemma {:induction false} UnlinkFull(c: Codec, s: Sys, s': Sys, id: nat)
    requires SysOk(c, s) && FramesOk(c, s) && !s.db.failed && UnlinkStep(s, s', id)
    ensures id in s.phase.inputs && Full(s'.db.disk) == Full(s.db.disk)
    ensures Gone(s.db.disk) <= s.phase.inputs && Gone(s'.db.disk) == Gone(s.db.disk) + {id}
    ensures PendingOk(s'.db.disk, s'.phase)
  {
    assert id in s.phase.inputs by { hide Serves, FreshFrom, IdsOk, ActiveOk, FramesOk; }
    hide SysOk, DiskOk, NormalsNewer, PointsToFrames, Uppermost, Skipped, LiveNotShadowed, Full, Gone;
    RemovedFull(s.db.disk, s.phase.inputs, id);
    assert OutAbove(s.db.disk, s.phase.inputs) && PendingOk(s.db.disk, s.phase);
    hide FramesOk, Unlink;
    RemovedPending(s.db.disk, s'.db.disk, s.phase, s'.phase, id);
  }

  lemma {:induction false} RemovedFull(d: Disk, inputs: set<nat>, id: nat)
    requires Segment(id) in d.dir && forall p :: p in d.unlinks ==> p.Segment? && p !in d.dir
    ensures
      var d' := Unlink(d, Segment(id));
      && Full(d') == Full(d) && Gone(d') == Gone(d) + {id}
      && (forall p :: p in d'.unlinks ==> p.Segment? && p !in d'.dir)
      && (forall j: nat :: j != id && Segment(j) in d.dir ==> Segment(j) in d'.dir)
  {
    var d' := Unlink(d, Segment(id));
    assert Full(d').dir == Full(d).dir;
    forall n: nat
      ensures n in Gone(d') <==> n in Gone(d) || n == id
    {
      GoneIff(d, n);
      GoneIff(d', n);
    }
    hide Gone;
  }

  lemma {:induction false} RemovedPending(d: Disk, d': Disk, phase: Phase, phase': Phase, id: nat)
    requires phase.Unlinking? && phase'.Unlinking? && phase'.inputs == phase.inputs && id in phase.inputs
    requires PendingOk(d, phase) && OutAbove(d, phase.inputs) && Gone(d') == Gone(d) + {id}
    requires forall p :: p in d'.unlinks ==> p.Segment? && p !in d'.dir
    requires forall j: nat :: j != id && Segment(j) in d.dir ==> Segment(j) in d'.dir
    ensures PendingOk(d', phase')
  {
    hide Gone;
    var j: nat :| j >= COMPACTION_ID_BASE && Segment(j) in d.dir && j !in phase.inputs && forall i :: i in phase.inputs ==> i < j;
    assert Segment(j) in d'.dir;
  }

  ghost predicate SameOutside(d: Disk, d': Disk, skip: set<nat>)
  {
    forall j: nat :: j !in skip ==>
      (Segment(j) in d.dir <==> Segment(j) in d'.dir) && (Segment(j) in d.dir ==> d'.dir[Segment(j)] == d.dir[Segment(j)])
  }

  lemma {:induction false} Removed(d: Disk, inputs: set<nat>, id: nat)
    requires Segment(id) in d.dir && id in inputs
    ensures SameOutside(d, Unlink(d, Segment(id)), inputs) && FilesOf(d, Unlink(d, Segment(id)))
  {
  }

  lemma {:induction false} OutsideSame(c: Codec, d: Disk, d': Disk, skip: set<nat>)
    requires SameOutside(d, d', skip)
    ensures OnDiskExcept(c, d', skip) == OnDiskExcept(c, d, skip)
  {
    hide OnDiskExcept, FramesIn;
    forall r
      ensures r in OnDiskExcept(c, d', skip) <==> r in OnDiskExcept(c, d, skip)
    {
      OnDiskIff(c, d, skip, r);
      OnDiskIff(c, d', skip, r);
      assert forall j: nat :: j !in skip ==> (InFile(c, d, j, r) <==> InFile(c, d', j, r));
    }
  }

  /** Live records stay on top as long as the files their pointers name stay. */
  lemma {:induction false} UpperOutside(c: Codec, d: Disk, d': Disk, skip: set<nat>, idx: Index, view: map<string, Record>)
    requires SameOutside(d, d', skip) && FilesOf(d, d') && Uppermost(c, d, view) && PointsToFrames(c, d, idx, view)
    requires idx.primary.Keys == view.Keys && forall k :: k in idx.primary ==> idx.primary[k].segmentId !in skip
    ensures Uppermost(c, d', view) && PointsToFrames(c, d', idx, view)
  {
    hide OnDiskExcept, LiveView, FramesIn;
    forall k | k in view
      ensures InFile(c, d', idx.primary[k].segmentId, view[k])
    {
      assert InFile(c, d, idx.primary[k].segmentId, view[k]);
    }
    assert OnDisk(c, d') <= OnDisk(c, d) by {
      forall r | r in OnDisk(c, d')
        ensures r in OnDisk(c, d)
      {
        OnDiskIff(c, d', {}, r);
        OnDiskIff(c, d, {}, r);
        var j: nat :| InFile(c, d', j, r);
        assert InFile(c, d, j, r);
      }
    }
    var all, left := OnDisk(c, d), OnDisk(c, d');
    LiveViewSound(all);
    LiveViewSound(left);
    forall k | k in view
      ensures k in LiveView(left) && LiveView(left)[k] == view[k]
    {
      OnDiskIff(c, d', {}, view[k]);
      assert IsTop(left, view[k]);
    }
  }

  // ---------- The end ----------

  /** Without a compaction only the active segment has to be answered for. */
  lemma {:induction false} IdleFrames(c: Codec, s: Sys)
    requires SysOk(c, s) && FramesOk(c, s) && !s.db.failed
    ensures FramesOk(c, s.(phase := NoCompaction))
  {
    hide PointsToFrames, Uppermost, NormalsNewer, Full;
    var d, f, active := s.db.disk, Full(s.db.disk), s.db.activeId;
    if !s.phase.NoCompaction? {
      ActiveThere(c, s);
      CompactionIds(c, s);
      GoneIff(d, active);
      NewestNewer(f, active);
      IdleDisk(c, f, s.db.nextSeq, active, s.phase.inputs + Gone(d));
    }
  }

  lemma {:induction false} IdleDisk(c: Codec, d: Disk, next: nat, active: nat, skip: set<nat>)
    requires DiskOk(c, d, next, active, skip) && active !in skip
    ensures DiskOk(c, d, next, active, SegmentIds(d) - {active})
  {
    hide FramesSound, Ordered, CopiesActive, Tidy, NewestIs, SegmentIds;
    forall n: nat | Segment(n) in d.dir && n < COMPACTION_ID_BASE && n in skip
      ensures n in SegmentIds(d) - {active}
    {
      SegmentIdsIff(d, n);
    }
  }

  /** Compaction ends. If removals failed, the database is still what is on disk just if the inputs left are guarded. */
  lemma {:induction false} FinishFrames(c: Codec, s: Sys, s': Sys)
    requires SysOk(c, s) && FramesOk(c, s) && (FinishStep(s, s') || FinishFailStep(s, s'))
    ensures FramesOk(c, s')
    ensures ViewOk(c, s) && InputsGuarded(c, s'.db.disk, s.phase.inputs, s.view) ==> ViewOk(c, s')
  {
    hide FramesOk, InputsGuarded, ViewOk;
    if s.db.failed {
      FailedFrames(c, s');
    } else {
      var s1 := s'.(phase := s.phase);
      if FinishStep(s, s') {
        DirSyncFrames(c, s, s1);
        assert SysOk(c, s.(db := s.db.(disk := DirSync(s.db.disk)))) by {
          var s' := s.(db := s.db.(disk := DirSync(s.db.disk)));
          assert Grows(s.db.disk, s'.db.disk);
          ServesGrows(c, s.db.disk, s'.db.disk, s.db.idx, s.view);
          PhaseGrows(c, s.db, s'.db, s.phase);
        }
      }
      IdleFrames(c, s1);
      if ViewOk(c, s) && InputsGuarded(c, s'.db.disk, s.phase.inputs, s.view) {
        FinishedView(c, s1);
      }
    }
  }

  lemma {:induction false} FinishedView(c: Codec, s: Sys)
    requires FramesOk(c, s) && !s.db.failed && s.phase.Unlinking? && ViewOk(c, s) && InputsGuarded(c, s.db.disk, s.phase.inputs, s.view)
    ensures ViewOk(c, s.(phase := NoCompaction))
  {
    var d, inputs := s.db.disk, s.phase.inputs;
    InputsNeverNewer(c, s);
    assert FramesSound(c, d, s.db.nextSeq) by { hide Ordered, CopiesActive, Originals, Tidy, NewestIs, PointsToFrames, Uppermost, PhaseFrames, Full; PartSound(c, d, s.db.nextSeq); }
    hide FramesOk, InputsGuarded, FramesSound, NoneNewer;
    LosesNothing(c, d, inputs);
    KeptSubset(c, d, inputs);
    hide Loses, OnDiskExcept, LiveView, Consistent;
    assert TopsFound(c, d, d, inputs);
    SurvivesExactly(c, d, d, s.db.nextSeq, inputs, s.view);
  }

  /** The inputs hold nothing newer than a live record. */
  lemma {:induction false} InputsNeverNewer(c: Codec, s: Sys)
    requires FramesOk(c, s) && !s.db.failed && s.phase.Unlinking? && ViewOk(c, s)
    ensures NoneNewer(c, s.db.disk, s.phase.inputs, s.view)
  {
    hide DiskOk, PointsToFrames, Uppermost, PendingOk, NormalsNewer, OutAbove, FramesIn, OnDiskExcept, LiveView, Skipped;
    LiveViewSound(OnDiskExcept(c, s.db.disk, s.phase.inputs));
    var d, f, view := s.db.disk, Full(s.db.disk), s.view;
    forall x: nat, g | x in s.phase.inputs && InFile(c, d, x, g) && g.Compound() in view
      ensures g.seqId <= view[g.Compound()].seqId
    {
      assert InFile(c, f, x, g);
      assert NotShadowed(c, f, s.phase.inputs, view[g.Compound()]);
    }
  }

  lemma {:induction false} LosesNothing(c: Codec, d: Disk, lost: set<nat>)
    ensures Loses(c, d, d, lost)
  {
    hide FramesIn;
  }

  lemma {:induction false} AbortFrames(c: Codec, s: Sys, s': Sys)
    requires SysOk(c, s) && FramesOk(c, s) && AbortStep(s, s')
    ensures FramesOk(c, s') && (ViewOk(c, s) ==> ViewOk(c, s'))
  {
    hide SysOk, FramesOk, ViewOnDisk;
    if s.db.failed {
      FailedFrames(c, s');
    } else {
      IdleFrames(c, s);
    }
  }

  /** Part of a frame at the end of the output: either none, or the whole copy of a frame there is. */
  lemma {:induction false} PartOfFrame(c: Codec, file: bytes, r: Record, t: nat) returns (rs: seq<Record>)
    requires c.Lawful() && Writable(c, r) && Clean(c, file) && t <= |EncodeFrame(c, r)|
    ensures rs == [] || rs == [r]
    ensures
      var file' := file + EncodeFrame(c, r)[..t];
      TailTorn(c, file') && FramesIn(c, file') == FramesIn(c, file) + SetOf(rs)
  {
    hide FramesIn, EncodeFrame, Writable, Scan;
    OneFrame(c, file, r);
    var f, file' := EncodeFrame(c, r), file + EncodeFrame(c, r)[..t];
    assert file' + f[t..] == file + f;
    CutAgain(c, file', f[t..], 0);
    PrefixFrames(c, file + f, file');
    PrefixFrames(c, file', file);
    assert SetOf([r]) == {r} && SetOf([]) == {};
    rs := if FramesIn(c, file') == FramesIn(c, file) then [] else [r];
  }

  /** The files with removals undone, after a torn copy of a frame of one of them. */
  lemma {:induction false} TornDisk(c: Codec, f: Disk, f': Disk, next: nat, active: nat, out: nat, file: bytes, rs: seq<Record>, r: Record, from: nat)
    requires DiskOk(c, f, next, active, SegmentIds(f) - {active}) && NormalsNewer(f, SegmentIds(f) - {active})
    requires Segment(out) in f.dir && out >= COMPACTION_ID_BASE && f'.dir == f.dir[Segment(out) := file] && TailTorn(c, file)
    requires FramesIn(c, file) == FramesIn(c, f.dir[Segment(out)]) + SetOf(rs) && (rs == [] || rs == [r])
    requires InFile(c, f, from, r) && r.IsActive()
    ensures DiskOk(c, f', next, active, SegmentIds(f') - {active}) && NormalsNewer(f', SegmentIds(f') - {active})
  {
    assert f'.dir.Keys == f.dir.Keys;
    SameListed(f, f');
    hide TailTorn, FramesIn, SegmentIds;
    UpdateAdds(c, f, f', out, file, rs);
    assert Tidy(c, f');
    hide InFile, Tidy, FramesSound, Ordered, CopiesActive, Originals, Adds;
    if rs == [] {
      EmptyOut(c, f, f', out, next, active, SegmentIds(f) - {active});
    } else {
      CopyDiskOk(c, f, f', out, r, from, next, SegmentIds(f) - {active});
    }
  }

  /** Once compaction has given up, a torn copy at the end of its output changes nothing. */
  lemma {:induction false} TornCopy(c: Codec, s: Sys, d': Disk, out: nat, file: bytes, rs: seq<Record>, r: Record, from: nat)
    requires FramesOk(c, s) && !s.db.failed && s.phase.NoCompaction? && Segment(out) in s.db.disk.dir && out >= COMPACTION_ID_BASE
    requires d'.dir == s.db.disk.dir[Segment(out) := file] && d'.unlinks == s.db.disk.unlinks && TailTorn(c, file)
    requires FramesIn(c, file) == FramesIn(c, s.db.disk.dir[Segment(out)]) + SetOf(rs) && (rs == [] || rs == [r])
    requires InFile(c, s.db.disk, from, r) && r.IsActive()
    ensures
      var s' := s.(db := s.db.(disk := d'));
      FramesOk(c, s') && (ViewOk(c, s) ==> ViewOk(c, s'))
  {
    hide DiskOk, NormalsNewer, TailTorn, FramesIn, Gone, ReadRecord, LiveView, Consistent, OnDiskExcept, SegmentIds, Adds;
    var d, f, f' := s.db.disk, Full(s.db.disk), Full(d');
    UpdateFull(d, d', out, file);
    UpdateAdds(c, d, d', out, file, rs);
    SameGone(d, d');
    TornDisk(c, f, f', s.db.nextSeq, s.db.activeId, out, file, rs, r, from);
    if rs == [] {
      assert PointsToFrames(c, d', s.db.idx, s.view) && Uppermost(c, d', s.view) && OnDisk(c, d') == OnDisk(c, d) by {
        OnDiskAdds(c, d, d', out, [], {});
        assert OnDiskExcept(c, d', {}) == OnDiskExcept(c, d, {});
      }
    } else {
      CopyView(c, d, d', out, from, r, s.db.idx, s.view);
    }
    assert d'.dir.Keys == d.dir.Keys;
    hide PointsToFrames, Uppermost;
  }

  lemma {:induction false} SameGone(d: Disk, d': Disk)
    requires d'.unlinks == d.unlinks
    ensures Gone(d') == Gone(d)
  {
  }

  lemma {:induction false} SameListed(d: Disk, d': Disk)
    requires d'.dir.Keys == d.dir.Keys
    ensures SegmentIds(d') == SegmentIds(d)
  {
    assert forall p :: p in d'.dir <==> p in d.dir;
  }

  lemma {:induction false} CopyFailFrames(c: Codec, s: Sys, s': Sys, k: string, t: nat)
    requires c.Lawful() && SysOk(c, s) && FramesOk(c, s) && CopyFailStep(c, s, s', k, t)
    ensures FramesOk(c, s') && (ViewOk(c, s) ==> ViewOk(c, s'))
  {
    hide Serves, FreshFrom, IdsOk, ActiveOk;
    if s.db.failed {
      FailedFrames(c, s');
    } else {
      var d, out := s.db.disk, s.phase.out;
      var r, file := ReadRecord(c, d, s.phase.todo[k]).value, d.dir[Segment(out)];
      assert PickOk(c, d, s.phase.inputs, s.phase.todo[k]) && OutFrames(c, d, s.phase.inputs, out);
      var rs := PartOfFrame(c, file, r, t);
      var s1 := s.(phase := NoCompaction);
      AbortFrames(c, s, s1);
      TornCopy(c, s1, s'.db.disk, out, file + EncodeFrame(c, r)[..t], rs, r, s.phase.todo[k].segmentId);
    }
  }

  lemma {:induction false} SyncOutFrames(c: Codec, s: Sys, s': Sys)
    requires FramesOk(c, s) && SyncOutStep(s, s')
    ensures FramesOk(c, s') && (ViewOk(c, s) ==> ViewOk(c, s'))
  {
    var d, d' := s.db.disk, s'.db.disk;
    hide Gone, DiskOk, NormalsNewer, Skipped, OnDiskExcept, LiveView, Consistent, FramesIn, ReadRecord, PhaseFrames;
    assert d'.dir == d.dir && d'.unlinks == d.unlinks && Full(d') == Full(d);
    SameOnDisk(c, d, d', {});
    SameGone(d, d');
    if !s.db.failed {
      assert PendingOk(d', s.phase);
      PhaseThere(c, d, d', Full(d), Full(d'), s.phase, s.view);
    }
    hide Full;
  }

  // ---------- Every interleaving ----------

  /**
   * Luck is needed at one place: when a compaction ends although removals failed, the inputs left behind hold no
   * deleted key's frame without a newer one.
   */
  ghost predicate Lucky(c: Codec, s: Sys, s': Sys)
  {
    FinishStep(s, s') || FinishFailStep(s, s') ==> InputsGuarded(c, s'.db.disk, s.phase.inputs, s.view)
  }

  /**
   * Every step keeps all segments in order, removed ones included, and every live record on top of what is on disk.
   * With luck it also keeps the database all there is: no deleted key has an active frame on top.
   */
  lemma {:induction false} StepFrames(cfg: Config, s: Sys, s': Sys)
    requires cfg.codec.Lawful() && SysOk(cfg.codec, s) && FramesOk(cfg.codec, s) && Next(cfg, s, s')
    ensures FramesOk(cfg.codec, s')
    ensures ViewOk(cfg.codec, s) && Lucky(cfg.codec, s, s') ==> ViewOk(cfg.codec, s')
  {
    hide SysOk;
    var c := cfg.codec;
    if clock, batch, fault :| FlushStep(cfg, s, s', clock, batch, fault) {
      FlushFrames(cfg, s, s', clock, batch, fault);
    } else if BeginStep(s, s') {
      if !s.db.failed {
        ActiveThere(c, s);
        BeginPhase(c, s, s');
        BeginSkipped(c, s, s');
        BeginPending(s.db.disk, s.phase, s'.phase);
        var f := Full(s.db.disk);
        FewerSkipped(c, f, s.db.nextSeq, s.db.activeId, Skipped(s.phase, f, Gone(s.db.disk), s.db.activeId), Skipped(s'.phase, f, Gone(s.db.disk), s.db.activeId));
      }
    } else if k :| VisitStep(s, s', k) {
      VisitFrames(c, s, s', k);
    } else if CreateStep(s, s') {
      CreateFrames(c, s, s');
    } else if k :| CopyStep(c, s, s', k) {
      CopyFrames(c, s, s', k);
    } else if k, t :| CopyFailStep(c, s, s', k, t) {
      CopyFailFrames(c, s, s', k, t);
    } else if SyncOutStep(s, s') {
      SyncOutFrames(c, s, s');
    } else if SealStep(s, s') {
      SealFrames(c, s, s');
    } else if order :| SwapStep(c, s, s', order) {
      SwapFrames(c, s, s', order);
    } else if id :| UnlinkStep(s, s', id) {
      UnlinkFrames(c, s, s', id);
    } else if id :| UnlinkFailStep(s, s', id) {
      UnlinkFailFrames(c, s, s', id);
    } else if FinishStep(s, s') || FinishFailStep(s, s') {
      FinishFrames(c, s, s');
    } else {
      AbortFrames(c, s, s');
    }
  }
}
