/**
 * Compaction goes on after the flusher has failed: each of its steps is one of the intact state beside the engine,
 * so a power loss then is still a power loss of an intact state.
 */
module FailedFlusher {
  import opened Wrappers
  import opened Bytes
  import opened Types
  import opened Frames
  import opened Index
  import opened LogMerge
  import opened Disk
  import opened GroupCommit
  import opened FlushIndex
  import opened Flusher
  import opened ShelfReplay
  import opened DiskView
  import opened FrameSets
  import opened Compaction
  import opened CompactionFrames
  import opened Survival
  import opened CompactionSteps
  import opened CompactionCrash
  import opened MidCommit

  // ---------- Compaction's own steps ----------

  /** The active segment exists, and its directory entry is durable. */
  ghost predicate Rooted(db: Db)
  {
    Segment(db.activeId) in db.disk.dir && Segment(db.activeId) !in db.disk.creates
  }

  /** The inputs still on disk hold no deleted key's frame without a newer one that had been committed. */
  ghost predicate LeftOutlived(c: Codec, s: Sys, d: Disk)
  {
    !s.phase.NoCompaction? && forall x: nat, g :: x in s.phase.inputs && InFile(c, d, x, g) && g.IsActive() && g.Compound() !in s.view ==>
      Outlived(OnDisk(c, d), g, s.db.nextSeq)
  }

  /** When a compaction ends although removals failed, the inputs left behind do no harm. */
  ghost predicate LuckyFinish(c: Codec, s: Sys, s': Sys)
  {
    FinishStep(s, s') || FinishFailStep(s, s') ==> LeftOutlived(c, s, s'.db.disk)
  }

  ghost predicate Outlived(found: set<Record>, g: Record, next: nat)
  {
    exists q :: q in found && Older(g, q) && q.seqId < next
  }

  ghost predicate OwnStep(c: Codec, s: Sys, s': Sys)
  {
    || (BeginStep(s, s') && Rooted(s.db))
    || (exists k :: VisitStep(s, s', k))
    || CreateStep(s, s')
    || (exists k :: CopyStep(c, s, s', k))
    || (exists k, t :: CopyFailStep(c, s, s', k, t))
    || SyncOutStep(s, s')
    || SealStep(s, s')
    || (exists order :: SwapStep(c, s, s', order))
    || (exists id :: UnlinkStep(s, s', id))
    || (exists id :: UnlinkFailStep(s, s', id))
    || FinishStep(s, s')
    || FinishFailStep(s, s')
    || AbortStep(s, s')
  }

  /** A step, with luck if that is asked. */
  ghost predicate LuckyNext(cfg: Config, s: Sys, s': Sys, lucky: bool)
  {
    Next(cfg, s, s') && (lucky ==> Lucky(cfg.codec, s, s'))
  }

  // ---------- Steps that only touch the phase ----------

  /** The step on the intact state. */
  lemma {:induction false} TwinSteps(cfg: Config, s: Sys, s': Sys, s0: Sys, s0': Sys, rs: seq<Record>, complete: bool)
    requires cfg.codec.Lawful() && Twin(cfg.codec, s, s0, rs, complete) && LuckyNext(cfg, s0, s0', complete) && !s0'.db.failed
    requires s0'.db.nextSeq == s0.db.nextSeq && s'.db.failed
    requires s'.phase == s0'.phase && s'.view == s0'.view
    requires s'.db.idx == s0'.db.idx && s'.db.nextSeq == s0'.db.nextSeq && s'.db.compactionCounter == s0'.db.compactionCounter
    requires TailShape(cfg.codec, s', s0', rs) || PendingShape(s', s0')
    ensures HasTwin(cfg.codec, s', rs, complete)
  {
    hide SysOk, FramesOk, Durable, Complete, TailShape, PendingShape, AllWritable, Consecutive, Next, Lucky;
    StepKeeps(cfg, s0, s0');
    TwinOf(cfg.codec, s', s0', rs, complete);
  }

  lemma {:induction false} PhaseTwin(cfg: Config, s: Sys, s': Sys, s0: Sys, s0': Sys, rs: seq<Record>, complete: bool)
    requires cfg.codec.Lawful() && Twin(cfg.codec, s, s0, rs, complete) && LuckyNext(cfg, s0, s0', complete)
    requires s' == s.(phase := s'.phase) && s0' == s0.(phase := s'.phase)
    ensures HasTwin(cfg.codec, s', rs, complete)
  {
    SaneHealthy(cfg.codec, s0);
    SameShape(cfg.codec, s, s', s0, s0', rs);
    hide Sane, Complete, LuckyNext, TailShape, PendingShape, AllWritable, Consecutive;
    TwinSteps(cfg, s, s', s0, s0', rs, complete);
  }

  lemma {:induction false} SameShape(c: Codec, s: Sys, s': Sys, s0: Sys, s0': Sys, rs: seq<Record>)
    requires TailShape(c, s, s0, rs) || PendingShape(s, s0)
    requires s'.db.disk == s.db.disk && s'.db.activeId == s.db.activeId
    requires s0'.db.disk == s0.db.disk && s0'.db.activeId == s0.db.activeId && s0'.db.segmentCounter == s0.db.segmentCounter
    ensures TailShape(c, s', s0', rs) || PendingShape(s', s0')
  {
    hide EncodeAll;
  }

  /** Neither the active segment nor the next one. */
  ghost predicate OtherFile(s0: Sys, q: Path)
  {
    q != Segment(s0.db.activeId) && (s0.db.segmentCounter < COMPACTION_ID_BASE ==> q != Segment(s0.db.segmentCounter))
  }

  /** What a compaction names is neither the active segment nor the next one. */
  lemma {:induction false} PhaseNames(c: Codec, s0: Sys)
    requires Sane(c, s0)
    ensures OtherFile(s0, Segment(s0.db.compactionCounter))
    ensures s0.phase.Copying? || s0.phase.Sealed? ==> OtherFile(s0, Segment(s0.phase.out)) && Segment(s0.phase.out) in s0.db.disk.dir
    ensures s0.phase.Unlinking? ==> s0.phase.left <= s0.phase.inputs && forall id :: id in s0.phase.inputs ==> OtherFile(s0, Segment(id))
    ensures s0.db.segmentCounter < COMPACTION_ID_BASE ==> Segment(s0.db.segmentCounter) !in s0.db.disk.dir
  {
    PhaseOuts(c, s0);
    SegmentIsNew(c, s0);
    hide Serves, FreshFrom, ActiveOk, FramesOk, Durable;
  }

  lemma {:induction false} BeginTwin(cfg: Config, s: Sys, s': Sys, s0: Sys, rs: seq<Record>, complete: bool)
    requires cfg.codec.Lawful() && Twin(cfg.codec, s, s0, rs, complete) && BeginStep(s, s') && Rooted(s.db)
    ensures HasTwin(cfg.codec, s', rs, complete)
  {
    hide Sane, Complete, AllWritable, Consecutive, SegmentIds;
    PhaseNames(cfg.codec, s0);
    assert s.db.activeId == s0.db.activeId && SegmentIds(s.db.disk) == SegmentIds(s0.db.disk) by {
      assert s.db.disk.dir.Keys == s0.db.disk.dir.Keys && s.db.activeId == s0.db.activeId;
      SameListed(s0.db.disk, s.db.disk);
    }
    var s0' := s0.(phase := s'.phase);
    assert BeginStep(s0, s0');
    assert LuckyNext(cfg, s0, s0', complete);
    hide Twin, BeginStep, LuckyNext;
    PhaseTwin(cfg, s, s', s0, s0', rs, complete);
  }

  lemma {:induction false} QuietStep(cfg: Config, s: Sys, s': Sys, s0: Sys, s0': Sys, complete: bool)
    requires (exists k :: VisitStep(s, s', k)) || (exists id :: UnlinkFailStep(s, s', id)) || AbortStep(s, s')
    requires s0.phase == s.phase && s0.db.idx == s.db.idx && s0' == s0.(phase := s'.phase)
    ensures s' == s.(phase := s'.phase) && LuckyNext(cfg, s0, s0', complete)
  {
    if k :| VisitStep(s, s', k) {
      assert VisitStep(s0, s0', k);
    } else if id :| UnlinkFailStep(s, s', id) {
      assert UnlinkFailStep(s0, s0', id);
    }
  }

  // ---------- Steps on other files ----------

  lemma {:induction false} CreateCommutes(d: Disk, p: Path, bs: bytes, q: Path)
    requires q != p
    ensures Create(Create(d, p), q) == Create(Create(d, q), p)
    ensures p in d.dir ==> Create(Append(d, p, bs), q) == Append(Create(d, q), p, bs)
  {
  }

  lemma {:induction false} AppendCommutes(d: Disk, p: Path, bs: bytes, q: Path, more: bytes)
    requires q != p && q in d.dir
    ensures Append(Create(d, p), q, more) == Create(Append(d, q, more), p)
    ensures p in d.dir ==> Append(Append(d, p, bs), q, more) == Append(Append(d, q, more), p, bs)
  {
  }

  lemma {:induction false} AppendShape(c: Codec, s: Sys, s0: Sys, rs: seq<Record>, q: Path, more: bytes)
    requires TailShape(c, s, s0, rs) || PendingShape(s, s0)
    requires OtherFile(s0, q) && q in s0.db.disk.dir
    ensures q in s.db.disk.dir && s.db.disk.dir[q] == s0.db.disk.dir[q]
    ensures
      var t, t0 := s.(db := s.db.(disk := Append(s.db.disk, q, more))), s0.(db := s0.db.(disk := Append(s0.db.disk, q, more)));
      TailShape(c, t, t0, rs) || PendingShape(t, t0)
  {
    hide EncodeAll;
    var d0, p, e := s0.db.disk, Segment(s0.db.activeId), EncodeAll(c, rs);
    if PendingShape(s, s0) {
      AppendCommutes(d0, Segment(s0.db.segmentCounter), [], q, more);
    } else {
      var t: nat :| t <= |e| && s.db.disk == Append(d0, p, e[..t]);
      AppendCommutes(d0, p, e[..t], q, more);
      assert p in Append(d0, q, more).dir;
      hide Create, Append, Sync, Unlink;
    }
  }

  lemma {:induction false} UnlinkCommutes(d: Disk, p: Path, bs: bytes, q: Path)
    requires q != p && q in d.dir
    ensures Unlink(Create(d, p), q) == Create(Unlink(d, q), p)
    ensures p in d.dir ==> Unlink(Append(d, p, bs), q) == Append(Unlink(d, q), p, bs)
  {
  }

  /** The intact state after a directory sync: the new segment, if it was pending, has become durable. */
  ghost function AfterDirSync(s: Sys, s0: Sys): Sys
  {
    var synced := s0.(db := s0.db.(disk := DirSync(s0.db.disk)));
    if PendingShape(s, s0) then Rolled(synced) else synced
  }

  lemma {:induction false} DirSyncShape(c: Codec, s: Sys, s0: Sys, rs: seq<Record>)
    requires TailShape(c, s, s0, rs) || PendingShape(s, s0)
    ensures TailShape(c, s.(db := s.db.(disk := DirSync(s.db.disk))), AfterDirSync(s, s0), rs)
  {
    hide EncodeAll;
    var d0, p, e := s0.db.disk, Segment(s0.db.activeId), EncodeAll(c, rs);
    if PendingShape(s, s0) {
      var n := Segment(s0.db.segmentCounter);
      var t0 := AfterDirSync(s, s0);
      assert DirSync(Create(d0, n)) == t0.db.disk;
      NoTail(c, t0, rs);
    } else {
      var t: nat :| t <= |e| && s.db.disk == Append(d0, p, e[..t]);
      assert DirSync(Append(d0, p, e[..t])) == Append(DirSync(d0), p, e[..t]);
    }
  }

  // ---------- The steps ----------

  lemma {:induction false} CreateTwin(cfg: Config, s: Sys, s': Sys, s0: Sys, rs: seq<Record>, complete: bool)
    requires cfg.codec.Lawful() && Twin(cfg.codec, s, s0, rs, complete) && CreateStep(s, s')
    ensures HasTwin(cfg.codec, s', rs, complete)
  {
    hide Sane, Complete, AllWritable, Consecutive, InputsGuarded;
    var c := cfg.codec;
    PhaseNames(c, s0);
    SaneHealthy(c, s0);
    var out := s.db.compactionCounter;
    var d0' := Create(s0.db.disk, Segment(out));
    var s0' := s0.(db := s0.db.(disk := d0', compactionCounter := out + 1), phase := s'.phase);
    var d0, p, e := s0.db.disk, Segment(s0.db.activeId), EncodeAll(c, rs);
    if PendingShape(s, s0) {
      CreateCommutes(d0, Segment(s0.db.segmentCounter), [], Segment(out));
    } else {
      var t: nat :| t <= |e| && s.db.disk == Append(d0, p, e[..t]);
      CreateCommutes(d0, p, e[..t], Segment(out));
      assert p in Create(d0, Segment(out)).dir;
    }
    NotThere(c, s, s0, rs, Segment(out));
    SameShape(c, s.(db := s.db.(disk := s'.db.disk)), s', s0.(db := s0.db.(disk := d0')), s0', rs);
    assert CreateStep(s0, s0');
    assert LuckyNext(cfg, s0, s0', complete);
    hide Twin, CreateStep, LuckyNext;
    TwinSteps(cfg, s, s', s0, s0', rs, complete);
  }

  lemma {:induction false} NotThere(c: Codec, s: Sys, s0: Sys, rs: seq<Record>, q: Path)
    requires TailShape(c, s, s0, rs) || PendingShape(s, s0)
    ensures q !in s.db.disk.dir ==> q !in s0.db.disk.dir
    ensures OtherFile(s0, q) && q in s.db.disk.dir ==> q in s0.db.disk.dir && s.db.disk.dir[q] == s0.db.disk.dir[q]
    ensures (s0.db.segmentCounter < COMPACTION_ID_BASE ==> Segment(s0.db.segmentCounter) !in s0.db.disk.dir) ==> Grows(s0.db.disk, s.db.disk)
  {
    hide EncodeAll;
  }

  lemma {:induction false} CopyTwin(cfg: Config, s: Sys, s': Sys, s0: Sys, rs: seq<Record>, k: string, complete: bool)
    requires cfg.codec.Lawful() && Twin(cfg.codec, s, s0, rs, complete) && CopyStep(cfg.codec, s, s', k)
    ensures HasTwin(cfg.codec, s', rs, complete)
  {
    hide Sane, Complete, TailShape, PendingShape, AllWritable, Consecutive, ReadRecord, EncodeFrame, Grows;
    var c := cfg.codec;
    PhaseNames(c, s0);
    SaneHealthy(c, s0);
    NotThere(c, s, s0, rs, Segment(s0.phase.out));
    CopyReadsSame(c, s, s0, rs, k, complete);
    var out, r := Segment(s.phase.out), ReadRecord(c, s0.db.disk, s0.phase.todo[k]).value;
    AppendShape(c, s, s0, rs, out, EncodeFrame(c, r));
    var d0' := Append(s0.db.disk, out, EncodeFrame(c, r));
    var s0' := s0.(db := s0.db.(disk := d0'), phase := s'.phase);
    SameShape(c, s.(db := s.db.(disk := s'.db.disk)), s', s0.(db := s0.db.(disk := d0')), s0', rs);
    assert CopyStep(c, s0, s0', k);
    assert LuckyNext(cfg, s0, s0', complete);
    hide Twin, CopyStep, LuckyNext;
    TwinSteps(cfg, s, s', s0, s0', rs, complete);
  }

  lemma {:induction false} CopyFailTwin(cfg: Config, s: Sys, s': Sys, s0: Sys, rs: seq<Record>, k: string, t: nat, complete: bool)
    requires cfg.codec.Lawful() && Twin(cfg.codec, s, s0, rs, complete) && CopyFailStep(cfg.codec, s, s', k, t)
    ensures HasTwin(cfg.codec, s', rs, complete)
  {
    hide Sane, Complete, TailShape, PendingShape, AllWritable, Consecutive, ReadRecord, EncodeFrame, Grows, InputsGuarded;
    var c := cfg.codec;
    PhaseNames(c, s0);
    SaneHealthy(c, s0);
    NotThere(c, s, s0, rs, Segment(s0.phase.out));
    CopyReadsSame(c, s, s0, rs, k, complete);
    var out, part := Segment(s.phase.out), EncodeFrame(c, ReadRecord(c, s0.db.disk, s0.phase.todo[k]).value)[..t];
    AppendShape(c, s, s0, rs, out, part);
    var d0' := Append(s0.db.disk, out, part);
    var s0' := s0.(db := s0.db.(disk := d0'), phase := s'.phase);
    SameShape(c, s.(db := s.db.(disk := s'.db.disk)), s', s0.(db := s0.db.(disk := d0')), s0', rs);
    assert CopyFailStep(c, s0, s0', k, t);
    assert LuckyNext(cfg, s0, s0', complete);
    hide Twin, CopyFailStep, LuckyNext;
    TwinSteps(cfg, s, s', s0, s0', rs, complete);
  }

  lemma {:induction false} SyncOutTwin(cfg: Config, s: Sys, s': Sys, s0: Sys, rs: seq<Record>, complete: bool)
    requires cfg.codec.Lawful() && Twin(cfg.codec, s, s0, rs, complete) && SyncOutStep(s, s')
    ensures HasTwin(cfg.codec, s', rs, complete)
  {
    hide Sane, Complete, AllWritable, Consecutive, InputsGuarded;
    var c, out := cfg.codec, Segment(s.phase.out);
    PhaseNames(c, s0);
    SaneHealthy(c, s0);
    assert out in s.db.disk.dir;
    assert
      var t, t0 := s.(db := s.db.(disk := Sync(s.db.disk, out))), s0.(db := s0.db.(disk := Sync(s0.db.disk, out)));
      TailShape(c, t, t0, rs) || PendingShape(t, t0);
    var s0' := s0.(db := s0.db.(disk := Sync(s0.db.disk, out)));
    assert SyncOutStep(s0, s0');
    assert LuckyNext(cfg, s0, s0', complete);
    hide Twin, SyncOutStep, LuckyNext;
    TwinSteps(cfg, s, s', s0, s0', rs, complete);
  }

  lemma {:induction false} CopyReadsSame(c: Codec, s: Sys, s0: Sys, rs: seq<Record>, k: string, complete: bool)
    requires Twin(c, s, s0, rs, complete) && s0.phase.Copying? && k in s0.phase.todo
    ensures ReadRecord(c, s0.db.disk, s0.phase.todo[k]).Some?
    ensures ReadRecord(c, s.db.disk, s0.phase.todo[k]) == ReadRecord(c, s0.db.disk, s0.phase.todo[k])
  {
    hide Complete, TailShape, PendingShape, AllWritable, Consecutive, ReadRecord, Grows;
    PhaseNames(c, s0);
    NotThere(c, s, s0, rs, Segment(s0.phase.out));
    ReadGrows(c, s0.db.disk, s.db.disk, s0.phase.todo[k]);
  }

  lemma {:induction false} SwapTwin(cfg: Config, s: Sys, s': Sys, s0: Sys, rs: seq<Record>, order: seq<string>, complete: bool)
    requires cfg.codec.Lawful() && Twin(cfg.codec, s, s0, rs, complete) && SwapStep(cfg.codec, s, s', order)
    ensures HasTwin(cfg.codec, s', rs, complete)
  {
    hide Complete, TailShape, PendingShape, AllWritable, Consecutive, SwapAll, InputsGuarded;
    var c := cfg.codec;
    SaneHealthy(c, s0);
    assert SwapAll(c, s.db.disk, s.db.idx, s0.phase.moved, order) == SwapAll(c, s0.db.disk, s0.db.idx, s0.phase.moved, order) by {
      PhaseNames(c, s0);
      NotThere(c, s, s0, rs, Segment(s0.phase.out));
      forall k | k in s0.phase.moved
        ensures ReadRecord(c, s.db.disk, s0.phase.moved[k].to) == ReadRecord(c, s0.db.disk, s0.phase.moved[k].to)
      {
        ReadGrows(c, s0.db.disk, s.db.disk, s0.phase.moved[k].to);
      }
      SwapSame(c, s.db.disk, s0.db.disk, s0.db.idx, s0.phase.moved, order);
    }
    var s0' := s0.(db := s0.db.(idx := s'.db.idx), phase := s'.phase);
    SameShape(c, s, s', s0, s0', rs);
    assert SwapStep(c, s0, s0', order);
    assert LuckyNext(cfg, s0, s0', complete);
    hide Twin, SwapStep, LuckyNext;
    TwinSteps(cfg, s, s', s0, s0', rs, complete);
  }

  lemma {:induction false} SwapSame(c: Codec, d: Disk, d0: Disk, idx: Index, moved: map<string, Move>, order: seq<string>)
    requires forall i :: 0 <= i < |order| ==> order[i] in moved
    requires forall k :: k in moved ==> ReadRecord(c, d, moved[k].to) == ReadRecord(c, d0, moved[k].to)
    ensures SwapAll(c, d, idx, moved, order) == SwapAll(c, d0, idx, moved, order)
  {
    hide ReadRecord, SwapOne;
    if order != [] {
      SwapSame(c, d, d0, idx, moved, order[..|order| - 1]);
    }
  }

  lemma {:induction false} UnlinkTwin(cfg: Config, s: Sys, s': Sys, s0: Sys, rs: seq<Record>, id: nat, complete: bool)
    requires cfg.codec.Lawful() && Twin(cfg.codec, s, s0, rs, complete) && UnlinkStep(s, s', id)
    ensures HasTwin(cfg.codec, s', rs, complete)
  {
    hide Sane, Complete, AllWritable, Consecutive, InputsGuarded;
    var c := cfg.codec;
    PhaseNames(c, s0);
    SaneHealthy(c, s0);
    var d0, p, e := s0.db.disk, Segment(s0.db.activeId), EncodeAll(c, rs);
    if PendingShape(s, s0) {
      UnlinkCommutes(d0, Segment(s0.db.segmentCounter), [], Segment(id));
    } else {
      var t: nat :| t <= |e| && s.db.disk == Append(d0, p, e[..t]);
      UnlinkCommutes(d0, p, e[..t], Segment(id));
      assert p in Unlink(d0, Segment(id)).dir;
    }
    var d0' := Unlink(s0.db.disk, Segment(id));
    var s0' := s0.(db := s0.db.(disk := d0'), phase := s'.phase);
    SameShape(c, s.(db := s.db.(disk := s'.db.disk)), s', s0.(db := s0.db.(disk := d0')), s0', rs);
    assert UnlinkStep(s0, s0', id);
    assert LuckyNext(cfg, s0, s0', complete);
    hide Twin, UnlinkStep, LuckyNext;
    TwinSteps(cfg, s, s', s0, s0', rs, complete);
  }

  // ---------- Directory syncs ----------

  /** A step of the intact state that ends in a directory sync makes a pending new segment part of it. */
  lemma {:induction false} SyncedTwin(cfg: Config, s: Sys, s': Sys, s0: Sys, s1: Sys, t: Sys, t0: Sys, rs: seq<Record>, complete: bool)
    requires cfg.codec.Lawful() && Twin(cfg.codec, s, s0, rs, complete) && LuckyNext(cfg, s0, s1, complete)
    requires TailShape(cfg.codec, t, t0, rs) || PendingShape(t, t0)
    requires t0.db == s0.db.(disk := t0.db.disk) && t.db == s.db.(disk := t.db.disk)
    requires s1 == s0.(db := s0.db.(disk := DirSync(t0.db.disk)), phase := s'.phase)
    requires s' == s.(db := s.db.(disk := DirSync(t.db.disk)), phase := s'.phase)
    ensures HasTwin(cfg.codec, s', rs, complete)
  {
    var c := cfg.codec;
    SaneHealthy(c, s0);
    hide Sane, Complete, TailShape, PendingShape, AllWritable, Consecutive, LuckyNext, DirSync, SysOk, FramesOk, Durable;
    assert Intact(cfg.codec, s1, complete) by {
      StepKeeps(cfg, s0, s1);
    }
    DirSyncShape(c, t, t0, rs);
    var s0' := if PendingShape(t, t0) then Rolled(s1) else s1;
    if PendingShape(t, t0) {
      RolledSane(c, s1, complete);
    }
    assert s0'.db == AfterDirSync(t, t0).db by { RolledSame(s1, t0); }
    SameShape(c, t.(db := t.db.(disk := DirSync(t.db.disk))), s', AfterDirSync(t, t0), s0', rs);
    TwinOf(c, s', s0', rs, complete);
  }

  lemma {:induction false} RolledSame(s1: Sys, t0: Sys)
    requires s1.db == t0.db.(disk := DirSync(t0.db.disk))
    ensures Rolled(s1).db == Rolled(t0.(db := t0.db.(disk := DirSync(t0.db.disk)))).db
  {
  }

  lemma {:induction false} SealTwin(cfg: Config, s: Sys, s': Sys, s0: Sys, rs: seq<Record>, complete: bool)
    requires cfg.codec.Lawful() && Twin(cfg.codec, s, s0, rs, complete) && SealStep(s, s')
    ensures HasTwin(cfg.codec, s', rs, complete)
  {
    hide Sane, Complete, AllWritable, Consecutive;
    var c, out := cfg.codec, Segment(s.phase.out);
    PhaseNames(c, s0);
    var t, t0 := s.(db := s.db.(disk := Sync(s.db.disk, out))), s0.(db := s0.db.(disk := Sync(s0.db.disk, out)));
    var s1 := s0.(db := s0.db.(disk := DirSync(t0.db.disk)), phase := s'.phase);
    assert SealStep(s0, s1);
    assert LuckyNext(cfg, s0, s1, complete);
    hide Twin, SealStep, LuckyNext, Sync, DirSync;
    SyncedTwin(cfg, s, s', s0, s1, t, t0, rs, complete);
  }

  /** Frames older than the batch are those of the intact state. */
  lemma {:induction false} OldFrames(c: Codec, s: Sys, s0: Sys, rs: seq<Record>, q: Record, complete: bool)
    requires c.Lawful() && Twin(c, s, s0, rs, complete) && q in OnDisk(c, s.db.disk) && q.seqId < s0.db.nextSeq
    ensures q in OnDisk(c, s0.db.disk)
  {
    hide Sane, Complete, OnDiskExcept, EncodeAll, AllWritable;
    OnDiskIff(c, s.db.disk, {}, q);
    var id: nat :| InFile(c, s.db.disk, id, q);
    if PendingShape(s, s0) {
    } else {
      var e := EncodeAll(c, rs);
      var t: nat :| t <= |e| && s.db.disk == Append(s0.db.disk, Segment(s0.db.activeId), e[..t]);
      ShorterTail(c, s0, rs, t);
      assert q !in rs;
    }
    OnDiskIff(c, s0.db.disk, {}, q);
  }

  lemma {:induction false} ShorterTail(c: Codec, s0: Sys, rs: seq<Record>, t: nat)
    requires c.Lawful() && Sane(c, s0) && AllWritable(c, rs) && t <= |EncodeAll(c, rs)|
    ensures Segment(s0.db.activeId) in s0.db.disk.dir
    ensures
      var file := s0.db.disk.dir[Segment(s0.db.activeId)];
      FramesIn(c, file + EncodeAll(c, rs)[..t]) <= FramesIn(c, file) + SetOf(rs)
  {
    ActiveSize(c, s0);
    hide SysOk, Durable, EncodeAll, AllWritable, FramesIn, FramesOk, Clean;
    WrittenFile(c, s0, rs);
    var file, e := s0.db.disk.dir[Segment(s0.db.activeId)], EncodeAll(c, rs);
    assert (file + e)[..|file| + t] == file + e[..t];
    PrefixFrames(c, file + e, file + e[..t]);
  }

  lemma {:induction false} FinishTwin(cfg: Config, s: Sys, s': Sys, s0: Sys, rs: seq<Record>, complete: bool)
    requires cfg.codec.Lawful() && Twin(cfg.codec, s, s0, rs, complete) && FinishStep(s, s')
    requires complete ==> LuckyFinish(cfg.codec, s, s')
    ensures HasTwin(cfg.codec, s', rs, complete)
  {
    hide Sane, Complete, TailShape, PendingShape, AllWritable, Consecutive, LeftOutlived, InputsGuarded;
    var s1 := s0.(db := s0.db.(disk := DirSync(s0.db.disk)), phase := s'.phase);
    if complete {
      TwinLuck(cfg.codec, s, s'.db.disk, s0, DirSync(s0.db.disk), rs);
    }
    assert FinishStep(s0, s1);
    assert LuckyNext(cfg, s0, s1, complete);
    hide Twin, FinishStep, LuckyNext, DirSync;
    SyncedTwin(cfg, s, s', s0, s1, s, s0, rs, complete);
  }

  lemma {:induction false} FinishFailTwin(cfg: Config, s: Sys, s': Sys, s0: Sys, rs: seq<Record>, complete: bool)
    requires cfg.codec.Lawful() && Twin(cfg.codec, s, s0, rs, complete) && FinishFailStep(s, s')
    requires complete ==> LuckyFinish(cfg.codec, s, s')
    ensures HasTwin(cfg.codec, s', rs, complete)
  {
    hide Sane, Complete, TailShape, PendingShape, AllWritable, Consecutive, LeftOutlived, InputsGuarded;
    var s0' := s0.(phase := s'.phase);
    if complete {
      TwinLuck(cfg.codec, s, s'.db.disk, s0, s0.db.disk, rs);
    }
    assert FinishFailStep(s0, s0');
    assert LuckyNext(cfg, s0, s0', complete);
    hide Twin, FinishFailStep, LuckyNext;
    PhaseTwin(cfg, s, s', s0, s0', rs, complete);
  }

  lemma {:induction false} TwinLuck(c: Codec, s: Sys, d: Disk, s0: Sys, d1: Disk, rs: seq<Record>)
    requires c.Lawful() && Twin(c, s, s0, rs, true) && s.phase.Unlinking? && LeftOutlived(c, s, d)
    requires d.dir == s.db.disk.dir && d1.dir == s0.db.disk.dir
    ensures InputsGuarded(c, d1, s.phase.inputs, s.view)
  {
    hide Complete, AllWritable, Consecutive, OnDiskExcept, FramesIn, SysOk, FramesOk, Durable;
    var inputs := s.phase.inputs;
    PhaseNames(c, s0);
    SameSegmentsFrames(c, s.db.disk, d);
    SameSegmentsFrames(c, s0.db.disk, d1);
    forall x: nat, g | x in inputs && InFile(c, d1, x, g) && g.IsActive() && g.Compound() !in s.view
      ensures Shadowed(OnDisk(c, d1), g)
    {
      assert InFile(c, d, x, g);
      var q :| q in OnDisk(c, d) && Older(g, q) && q.seqId < s.db.nextSeq;
      OldFrames(c, s, s0, rs, q, true);
    }
  }

  /** Whatever compaction does after a failure, an intact state stays beside the engine. */
  lemma {:induction false} TwinKept(cfg: Config, s: Sys, s': Sys, rs: seq<Record>, complete: bool)
    requires cfg.codec.Lawful() && HasTwin(cfg.codec, s, rs, complete) && OwnStep(cfg.codec, s, s')
    requires complete ==> LuckyFinish(cfg.codec, s, s')
    ensures HasTwin(cfg.codec, s', rs, complete)
  {
    hide BeginStep, CreateStep, CopyStep, CopyFailStep, SyncOutStep, SealStep, SwapStep, UnlinkStep, FinishStep, FinishFailStep, LuckyFinish, Rooted;
    var c := cfg.codec;
    var s0 :| Twin(c, s, s0, rs, complete);
    if BeginStep(s, s') && Rooted(s.db) {
      BeginTwin(cfg, s, s', s0, rs, complete);
    } else if CreateStep(s, s') {
      CreateTwin(cfg, s, s', s0, rs, complete);
    } else if k :| CopyStep(c, s, s', k) {
      CopyTwin(cfg, s, s', s0, rs, k, complete);
    } else if k, t :| CopyFailStep(c, s, s', k, t) {
      CopyFailTwin(cfg, s, s', s0, rs, k, t, complete);
    } else if SyncOutStep(s, s') {
      SyncOutTwin(cfg, s, s', s0, rs, complete);
    } else if SealStep(s, s') {
      SealTwin(cfg, s, s', s0, rs, complete);
    } else if order :| SwapStep(c, s, s', order) {
      SwapTwin(cfg, s, s', s0, rs, order, complete);
    } else if id :| UnlinkStep(s, s', id) {
      UnlinkTwin(cfg, s, s', s0, rs, id, complete);
    } else if FinishStep(s, s') {
      FinishTwin(cfg, s, s', s0, rs, complete);
    } else if FinishFailStep(s, s') {
      FinishFailTwin(cfg, s, s', s0, rs, complete);
    } else {
      assert HasTwin(cfg.codec, s', rs, complete) by {
        var s0' := s0.(phase := s'.phase);
        QuietStep(cfg, s, s', s0, s0', complete);
        PhaseTwin(cfg, s, s', s0, s0', rs, complete);
      }
    }
  }
}
