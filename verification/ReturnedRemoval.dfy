/**
 * An engine that opens over a pending removal which holds frames at or above its next sequence id: it numbers its
 * records from the frames that are left, and what a power loss brings back outranks them.
 */
module ReturnedRemoval {
  import opened Wrappers
  import opened Bytes
  import opened Types
  import opened Frames
  import opened Index
  import opened LogMerge
  import opened Disk
  import opened GroupCommit
  import opened FlushIndex
  import opened Flusher
  import opened Recovery
  import opened ShelfReplay
  import opened OpenAfterCrash
  import opened DiskView
  import opened FrameSets
  import opened Compaction
  import opened CompactionFrames
  import opened CompactionSteps
  import opened CompactionCrash
  import opened Reopen
  import opened MidCommit
  import opened Restart
  import opened Outages
  import opened OutlivedTombstone
  import opened UnsafeToRun

  // ---------- How an engine comes to be opened over one ----------

  /** A key written and deleted in segment 1; the rollover to segment 2 is done, nothing is written there yet. */
  function TwoSegments(c: Codec, g: Record, t: Record): Disk
  {
    var dir := map[Segment(1) := EncodeAll(c, [g, t]), Segment(2) := []];
    Disk(dir, map p | p in dir :: |dir[p]|, {}, map[])
  }

  function RolledEngine(d: Disk, compactionCounter: nat): Db
  {
    Db(d, EMPTY_INDEX, 3, 2, 0, true, false, 3, compactionCounter)
  }

  /** Compaction with nothing to copy has removed segment 1; the process dies before the last directory sync. */
  function Unsettled(c: Codec, g: Record, t: Record): Disk
  {
    var out := Segment(COMPACTION_ID_BASE);
    Unlink(DirSync(Sync(Create(TwoSegments(c, g, t), out), out)), Segment(1))
  }

  lemma {:induction false} PairFrames(c: Codec, g: Record, t: Record)
    requires WriteThenDelete(c, g, t)
    ensures Clean(c, EncodeAll(c, [g, t])) && FramesIn(c, EncodeAll(c, [g, t])) == {g, t}
  {
    hide EncodeAll, Writable, Clean, FramesIn;
    EmptyFile(c);
    AppendFrames(c, [], [g, t]);
    assert [] + EncodeAll(c, [g, t]) == EncodeAll(c, [g, t]);
    assert SetOf([g, t]) == {g, t};
  }

  lemma {:induction false} TwoFrames(c: Codec, g: Record, t: Record)
    requires WriteThenDelete(c, g, t)
    ensures
      var d := TwoSegments(c, g, t);
      && (forall id: nat :: Segment(id) in d.dir <==> id == 1 || id == 2)
      && (forall id: nat, r :: InFile(c, d, id, r) <==> id == 1 && (r == g || r == t))
      && Tidy(c, d) && Quiet(d) && d.dir[Segment(2)] == []
  {
    hide EncodeAll, Writable;
    PairFrames(c, g, t);
    EmptyFile(c);
    hide FramesIn, Clean;
  }

  /** The engine on these two segments satisfies the whole invariant. */
  lemma {:induction false} RolledOk(c: Codec, g: Record, t: Record)
    requires WriteThenDelete(c, g, t)
    ensures
      var s := Sys(RolledEngine(TwoSegments(c, g, t), COMPACTION_ID_BASE), map[], NoCompaction);
      Keeps(c, s) && Complete(c, s)
  {
    hide Quiet, Still, OnDiskExcept, LiveView, Consistent, Represents, Accounted, Reads, FreshSeq, InFile, Writable, Tidy, Runnable, Complete;
    var d, db := TwoSegments(c, g, t), RolledEngine(TwoSegments(c, g, t), COMPACTION_ID_BASE);
    TwoFrames(c, g, t);
    assert OnDisk(c, d) == {g, t} by {
      assert InFile(c, d, 1, t) && InFile(c, d, 1, g);
      forall r
        ensures r in OnDisk(c, d) <==> r in {g, t}
      {
        OnDiskIff(c, d, {}, r);
      }
    }
    PairView(g, t);
    EmptyIndex(c, d);
    QuietStill(d);
    StillRunnable(c, d, 3, 2, 2);
    OpenedSane(c, db, map[]);
    StillComplete(c, Sys(db, map[], NoCompaction));
  }

  lemma {:induction false} StepsToSeal(s0: Sys, s1: Sys, s2: Sys, s3: Sys)
    requires
      var inputs: set<nat> := {1};
      var out, d0 := COMPACTION_ID_BASE, s0.db.disk;
      var d1 := Create(d0, Segment(out));
      && SegmentIds(d0) - {2} == inputs && Segment(out) !in d0.dir
      && s0 == Sys(RolledEngine(d0, out), map[], NoCompaction)
      && s1 == Sys(RolledEngine(d0, out), map[], Walking(2, inputs, {}, map[]))
      && s2 == Sys(RolledEngine(d1, out + 1), map[], Copying(inputs, out, map[], map[]))
      && s3 == Sys(RolledEngine(DirSync(Sync(d1, Segment(out))), out + 1), map[], Sealed(inputs, out, map[]))
    ensures BeginStep(s0, s1) && CreateStep(s1, s2) && SealStep(s2, s3)
  {
    hide SegmentIds;
  }

  lemma {:induction false} StepsToRemove(c: Codec, s3: Sys, s4: Sys, s: Sys)
    requires
      var inputs: set<nat> := {1};
      var out, d2 := COMPACTION_ID_BASE, s3.db.disk;
      && Segment(1) in d2.dir
      && s3 == Sys(RolledEngine(d2, out + 1), map[], Sealed(inputs, out, map[]))
      && s4 == Sys(RolledEngine(d2, out + 1), map[], Unlinking(inputs, inputs))
      && s == Sys(RolledEngine(Unlink(d2, Segment(1)), out + 1), map[], Unlinking(inputs, {}))
    ensures SwapStep(c, s3, s4, []) && UnlinkStep(s4, s, 1)
  {
    hide Unlink;
    var all: set<nat> := {1};
    assert all - {1} == {};
  }

  // ---------- The opening ----------

  /** The engine that opens numbers its records from 1 again. */
  lemma {:induction false} OpensAtOne(c: Codec, now: int, d: Disk)
    requires d.dir == map[Segment(2) := [], Segment(COMPACTION_ID_BASE) := []]
    ensures Listing(d, [2, COMPACTION_ID_BASE])
    ensures Open(c, Default, now, d, [2, COMPACTION_ID_BASE])
      == Running(Forgetful(d))
  {
    assert Listing(d, [2, COMPACTION_ID_BASE]) && PassAll(c, d, [2, COMPACTION_ID_BASE]) == Pass(EMPTY_MERGE, [Summary(2, 0, false)], []) by {
      var out := COMPACTION_ID_BASE;
      assert [2, out][..1] == [2] && [2][..0] == [];
      assert PassAll(c, d, []) == START_PASS;
      assert Places(2, []) == [] && Places(out, []) == [];
      assert PassAll(c, d, [2]) == Pass(EMPTY_MERGE, [Summary(2, 0, false)], []);
    }
    hide PassAll, Listing;
    var out := COMPACTION_ID_BASE;
    assert [Summary(2, 0, false)][..0] == [];
    assert ChooseActive([Summary(2, 0, false)]) == 2;
    assert [2, out][..1] == [2] && [2][..0] == [];
    assert MaxId([2]) == 2 && MaxNormalId([2]) == 2;
    assert MaxId([2, out]) == out && MaxNormalId([2, out]) == 2;
  }

  /** The next engine numbers its records from 1 again, although its active segment is durable; it does not open safely. */
  ghost predicate ForgetsIds(c: Codec, now: int, d: Disk, ids: seq<nat>)
  {
    Listing(d, ids)
    && match Open(c, Default, now, d, ids)
       case Refused(_, _) => false
       case Running(db) => db.disk == d && db.nextSeq == 1 && db.activeId == 2 && Synced(d, 2) && !SafeToRun(c, db)
  }

  /**
   * From the two segments compaction, in states that satisfy the whole invariant, removes the first one; the process
   * dies before the last directory sync, and the next engine numbers its records from 1 again. It does not open safely:
   * the pending removal holds frames from 1 on.
   */
  lemma {:induction false} ReturnedTombstone(c: Codec, now: int, g: Record, t: Record)
    requires WriteThenDelete(c, g, t)
    ensures
      var d := Unsettled(c, g, t);
      && Intact(c, Sys(RolledEngine(d, COMPACTION_ID_BASE + 1), map[], Unlinking({1}, {})), true)
      && ForgetsIds(c, now, d, [2, COMPACTION_ID_BASE])
  {
    hide Open, EncodeAll, Writable, SysOk, FramesOk, Durable, Complete, FramesIn, Clean;
    var d := Unsettled(c, g, t);
    assert
      var s := Sys(RolledEngine(Unsettled(c, g, t), COMPACTION_ID_BASE + 1), map[], Unlinking({1}, {}));
      Intact(c, s, true) by {
      RolledOk(c, g, t);
      // Listing, sealing an empty output, swap and removal: each step keeps the whole invariant.
      var cfg := Config(c, 0, 0);
      var inputs: set<nat> := {1};
      var out := COMPACTION_ID_BASE;
      var d1 := Create(TwoSegments(c, g, t), Segment(out));
      var d2 := DirSync(Sync(d1, Segment(out)));
      var s0 := Sys(RolledEngine(TwoSegments(c, g, t), out), map[], NoCompaction);
      var s1 := Sys(RolledEngine(TwoSegments(c, g, t), out), map[], Walking(2, inputs, {}, map[]));
      var s2 := Sys(RolledEngine(d1, out + 1), map[], Copying(inputs, out, map[], map[]));
      var s3 := Sys(RolledEngine(d2, out + 1), map[], Sealed(inputs, out, map[]));
      var s4 := Sys(RolledEngine(d2, out + 1), map[], Unlinking(inputs, inputs));
      StepsToSeal(s0, s1, s2, s3);
      StepsToRemove(c, s3, s4, Sys(RolledEngine(Unsettled(c, g, t), COMPACTION_ID_BASE + 1), map[], Unlinking({1}, {})));
      OneStep(cfg, s0, s1);
      OneStep(cfg, s1, s2);
      OneStep(cfg, s2, s3);
      OneStep(cfg, s3, s4);
      OneStep(cfg, s4, Sys(RolledEngine(Unsettled(c, g, t), COMPACTION_ID_BASE + 1), map[], Unlinking({1}, {})));
    }
    OpensAtOne(c, now, d);
    PairFrames(c, g, t);
    assert InFile(c, Full(Open(c, Default, now, d, [2, COMPACTION_ID_BASE]).db.disk), 1, t);
  }

  /** The next engine acknowledges the batch and makes it durable, and some power loss does not leave `found`. */
  ghost predicate Undone(cfg: Config, now: int, d: Disk, ids: seq<nat>, clock: Clock, batch: seq<LogEntry>, found: map<string, Record>)
  {
    Listing(d, ids)
    && match Open(cfg.codec, Default, now, d, ids)
       case Refused(_, _) => false
       case Running(db) =>
         && Segment(db.activeId) in db.disk.dir
         && var o := Commit(cfg, db, PlanBatch(cfg, db, clock, batch), NoFault);
            o.ok && exists d' :: CrashOf(o.db.disk, d') && !(Consistent(OnDisk(cfg.codec, d')) && LiveView(OnDisk(cfg.codec, d')) == found)
  }

  /** That engine acknowledges a write of the key and makes it durable, and a power loss undoes it. */
  lemma {:induction false} ReturnedTombstoneLoses(cfg: Config, now: int, g: Record, t: Record, clock: Clock, batch: seq<LogEntry>, r: Record)
    requires WriteThenDelete(cfg.codec, g, t)
    requires PlanBatch(cfg, Forgetful(Unsettled(cfg.codec, g, t)), clock, batch).records == [r]
    requires r.seqId == 1 && r.IsActive() && r.Compound() == g.Compound() && |EncodeAll(cfg.codec, [r])| <= cfg.maxSegmentSize
    ensures Undone(cfg, now, Unsettled(cfg.codec, g, t), [2, COMPACTION_ID_BASE], clock, batch, map[g.Compound() := r])
  {
    hide Open, EncodeAll, Writable, PlanBatch, Commit, CrashOf, OnDiskExcept, LiveView, Consistent, FramesIn;
    var c, d := cfg.codec, Unsettled(cfg.codec, g, t);
    OpensAtOne(c, now, d);
    PairFrames(c, g, t);
    ReturnedFrameWins(cfg, Forgetful(d), map[], PlanBatch(cfg, Forgetful(d), clock, batch), 1, t, r);
  }

  /** The engine that opens. */
  function Forgetful(d: Disk): Db
  {
    Db(d, EMPTY_INDEX, 1, 2, 0, true, false, 3, COMPACTION_ID_BASE + 1)
  }
}
