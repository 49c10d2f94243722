/**
 * Why an engine must not open over an active segment that is not durable to its end: it serves a batch that it found
 * written but not synced, and compaction drops the acknowledged record which that batch had superseded.
 */
module UnsyncedBatch {
  import opened Wrappers
  import opened Bytes
  import opened Types
  import opened Frames
  import opened Index
  import opened LogMerge
  import opened Disk
  import opened FlushIndex
  import opened Flusher
  import opened Recovery
  import opened ShelfReplay
  import opened OpenAfterCrash
  import opened DiskView
  import opened FrameSets
  import opened Compaction
  import opened CompactionFrames
  import opened CompactionSteps
  import opened CompactionCrash
  import opened Reopen
  import opened Restart
  import opened OutlivedTombstone

  /** Two writes of one key. */
  ghost predicate WriteTwice(c: Codec, a: Record, b: Record)
  {
    && c.Lawful() && Writable(c, a) && Writable(c, b)
    && a.seqId == 1 && b.seqId == 2 && a.Compound() == b.Compound() && a.IsActive() && b.IsActive()
  }

  /** The first write is in segment 1, acknowledged and durable; the second is in segment 2, written but not synced. */
  function Unsynced(c: Codec, a: Record, b: Record): Disk
  {
    var fa, fb := EncodeFrame(c, a), EncodeFrame(c, b);
    Disk(map[Segment(1) := fa, Segment(2) := fb], map[Segment(1) := |fa|, Segment(2) := 0], {}, map[])
  }

  lemma {:induction false} UnsyncedFrames(c: Codec, a: Record, b: Record)
    requires WriteTwice(c, a, b)
    ensures
      var d := Unsynced(c, a, b);
      && (forall id: nat :: Segment(id) in d.dir <==> id == 1 || id == 2)
      && (forall id: nat, r :: InFile(c, d, id, r) <==> (id == 1 && r == a) || (id == 2 && r == b))
      && Clean(c, d.dir[Segment(1)]) && Clean(c, d.dir[Segment(2)]) && Tidy(c, d) && WellFormed(d) && d.unlinks == map[]
  {
    hide EncodeFrame, Writable;
    LoneFrame(c, a);
    LoneFrame(c, b);
    hide FramesIn, Clean;
  }

  lemma {:induction false} UnsyncedOrder(c: Codec, d: Disk, a: Record, b: Record)
    requires forall id: nat :: Segment(id) in d.dir <==> id == 1 || id == 2
    requires forall id: nat, r :: InFile(c, d, id, r) <==> (id == 1 && r == a) || (id == 2 && r == b)
    requires Writable(c, a) && Writable(c, b) && a.seqId == 1 && b.seqId == 2
    ensures FramesSound(c, d, 3) && Ordered(c, d) && NewestIs(d, 2) && SegmentIds(d) - {2} == {1}
  {
    forall id: nat
      ensures id in SegmentIds(d) <==> id == 1 || id == 2
    {
      SegmentIdsIff(d, id);
    }
    hide InFile, Writable, SegmentIds;
  }

  lemma {:induction false} UnsyncedView(c: Codec, d: Disk, a: Record, b: Record)
    requires forall id: nat, r :: InFile(c, d, id, r) <==> (id == 1 && r == a) || (id == 2 && r == b)
    requires a.seqId == 1 && b.seqId == 2 && a.Compound() == b.Compound() && a.IsActive() && b.IsActive()
    ensures OnDisk(c, d) == {a, b} && Consistent({a, b}) && LiveView({a, b}) == map[b.Compound() := b]
  {
    hide InFile, OnDiskExcept;
    assert InFile(c, d, 1, a) && InFile(c, d, 2, b);
    forall r
      ensures r in OnDisk(c, d) <==> r in {a, b}
    {
      OnDiskIff(c, d, {}, r);
    }
    assert forall r :: IsTop({a, b}, r) ==> r == b;
    assert IsTop({a, b}, b);
  }

  // ---------- As long as nothing is removed the key survives ----------

  /** Whatever power loss strikes, the key is found, with the first or the second write. */
  lemma {:induction false} UnsyncedKept(c: Codec, a: Record, b: Record, d': Disk)
    requires WriteTwice(c, a, b) && CrashOf(Unsynced(c, a, b), d')
    ensures Consistent(OnDisk(c, d')) && a.Compound() in LiveView(OnDisk(c, d')) && LiveView(OnDisk(c, d'))[a.Compound()] in {a, b}
  {
    hide Unsynced, CrashOf, OnDiskExcept, FramesIn, Writable, LiveView;
    assert InFile(c, d', 1, a) && (forall id: nat, r :: InFile(c, d', id, r) ==> r in {a, b}) by {
      UnsyncedFiles(c, a, b, d');
      LoneFrame(c, a);
      LoneFrame(c, b);
      if Segment(2) in d'.dir {
        PrefixFrames(c, EncodeFrame(c, b), d'.dir[Segment(2)]);
      }
    }
    forall r | r in OnDisk(c, d')
      ensures r in {a, b}
    {
      OnDiskIff(c, d', {}, r);
    }
    OnDiskIff(c, d', {}, a);
    assert Consistent(OnDisk(c, d')) && a.Compound() in LiveView(OnDisk(c, d')) && LiveView(OnDisk(c, d'))[a.Compound()] in {a, b} by {
      var t := TopExists(OnDisk(c, d'), a);
      LiveViewSound(OnDisk(c, d'));
      assert t in {a, b};
    }
  }

  lemma {:induction false} UnsyncedFiles(c: Codec, a: Record, b: Record, d': Disk)
    requires CrashOf(Unsynced(c, a, b), d')
    ensures Segment(1) in d'.dir && d'.dir[Segment(1)] == EncodeFrame(c, a)
    ensures forall id: nat :: Segment(id) in d'.dir ==> id == 1 || (id == 2 && d'.dir[Segment(2)] <= EncodeFrame(c, b))
  {
    hide EncodeFrame;
  }

  // ---------- The opening ----------

  lemma {:induction false} NoTears(c: Codec, d: Disk)
    requires Segment(1) in d.dir && Segment(2) in d.dir && Clean(c, d.dir[Segment(1)]) && Clean(c, d.dir[Segment(2)])
    ensures PassAll(c, d, [1, 2]).tears == []
  {
    hide Scan, MergeFrom;
    assert [1, 2][..1] == [1] && [1][..0] == [];
    assert PassAll(c, d, []) == START_PASS;
    assert PassAll(c, d, [1]).tears == [];
  }

  /** Recovery runs on both segments as they are: the key is served with the second write, out of segment 2. */
  lemma {:induction false} UnsyncedOpens(c: Codec, now: int, a: Record, b: Record) returns (db: Db)
    requires WriteTwice(c, a, b)
    ensures Listing(Unsynced(c, a, b), [1, 2]) && Open(c, Default, now, Unsynced(c, a, b), [1, 2]) == Running(db)
    ensures db.disk == Unsynced(c, a, b) && db.activeId == 2 && db.compactionCounter == COMPACTION_ID_BASE && !db.failed
    ensures
      var k := b.Compound();
      db.idx.primary.Keys == {k} && db.idx.primary[k].segmentId == 2 && ReadRecord(c, db.disk, db.idx.primary[k]) == Some(b)
  {
    hide EncodeFrame, Writable, PassAll, OnDiskExcept, LiveView, Consistent, FramesSound, Ordered, Tidy, InFile, ChooseActive, Clean, Represents, Accounted, FreshSeq, ReadRecord, Unsynced;
    var d, k := Unsynced(c, a, b), b.Compound();
    UnsyncedFrames(c, a, b);
    UnsyncedOrder(c, d, a, b);
    UnsyncedView(c, d, a, b);
    SoundSets(c, d, 3, {});
    assert Listing(d, [1, 2]);
    NoTears(c, d);
    NewestIsActive(c, d, [1, 2], 2);
    PassIndexesDisk(c, d, [1, 2]);
    PassPointsToFrames(c, d, [1, 2]);
    TwoMax();
    db := Open(c, Default, now, d, [1, 2]).db;
    RepresentsKeys(db.idx, map[k := b]);
  }

  lemma {:induction false} TwoMax()
    ensures MaxId([1, 2]) == 2 && MaxNormalId([1, 2]) == 2
  {
    assert [1, 2][..1] == [1] && [1][..0] == [];
    assert MaxId([1]) == 1 && MaxNormalId([1]) == 1;
  }

  // ---------- The compaction ----------

  /** The directory at the end of a compaction that removed segment 1. */
  function Compacted(d: Disk): Disk
  {
    var out := Segment(COMPACTION_ID_BASE);
    var sealed := DirSync(Sync(Create(d, out), out));
    if Segment(1) in sealed.dir then DirSync(Unlink(sealed, Segment(1))) else sealed
  }

  /** Its states, step by step. */
  function Stages(db: Db, view: map<string, Record>): seq<Sys>
  {
    var inputs: set<nat> := {1};
    var out, d := COMPACTION_ID_BASE, db.disk;
    var d1 := Create(d, Segment(out));
    var d2 := DirSync(Sync(d1, Segment(out)));
    var d3 := if Segment(1) in d2.dir then Unlink(d2, Segment(1)) else d2;
    var next := db.(compactionCounter := out + 1);
    [ Sys(db, view, NoCompaction),
      Sys(db, view, Walking(2, inputs, db.idx.primary.Keys, map[])),
      Sys(db, view, Walking(2, inputs, {}, map[])),
      Sys(next.(disk := d1), view, Copying(inputs, out, map[], map[])),
      Sys(next.(disk := d2), view, Sealed(inputs, out, map[])),
      Sys(next.(disk := d2), view, Unlinking(inputs, inputs)),
      Sys(next.(disk := d3), view, Unlinking(inputs, {})),
      Sys(next.(disk := DirSync(d3)), view, NoCompaction) ]
  }

  lemma {:induction false} StagesNext(cfg: Config, db: Db, view: map<string, Record>, k: string)
    requires SegmentIds(db.disk) - {2} == {1} && Segment(1) in db.disk.dir && Segment(COMPACTION_ID_BASE) !in db.disk.dir
    requires db.activeId == 2 && db.compactionCounter == COMPACTION_ID_BASE
    requires db.idx.primary.Keys == {k} && db.idx.primary[k].segmentId == 2
    ensures
      var ss := Stages(db, view);
      && |ss| == 8 && (forall i :: 0 <= i < 7 ==> Next(cfg, ss[i], ss[i + 1])) && ss[7].db.disk == Compacted(db.disk)
  {
    var ss := Stages(db, view);
    assert
      var ss := Stages(db, view);
      BeginStep(ss[0], ss[1]) && VisitStep(ss[1], ss[2], k) && CreateStep(ss[2], ss[3]) && SealStep(ss[3], ss[4]) by {
      var one: set<string> := {k};
      assert one - {k} == {};
    }
    assert
      var ss := Stages(db, view);
      && SwapStep(cfg.codec, ss[4], ss[5], []) && UnlinkStep(ss[5], ss[6], 1) && FinishStep(ss[6], ss[7])
      && ss[7].db.disk == Compacted(db.disk) by {
      var one: set<nat> := {1};
      assert one - {1} == {};
      assert Segment(1) != Segment(COMPACTION_ID_BASE);
    }
    hide Stages, BeginStep, VisitStep, CreateStep, SealStep, SwapStep, UnlinkStep, FinishStep;
    assert Next(cfg, ss[0], ss[1]) && Next(cfg, ss[1], ss[2]) && Next(cfg, ss[2], ss[3]) && Next(cfg, ss[3], ss[4]);
    assert Next(cfg, ss[4], ss[5]) && Next(cfg, ss[5], ss[6]) && Next(cfg, ss[6], ss[7]);
    hide Next;
  }

  /** What is left when the power loss takes what was never synced. */
  lemma {:induction false} NothingLeft(c: Codec, d: Disk)
    requires d.dir.Keys == {Segment(1), Segment(2)} && d.durable.Keys == d.dir.Keys && d.durable[Segment(2)] == 0
    ensures exists d' :: CrashOf(Compacted(d), d') && OnDisk(c, d') == {}
  {
    var out := Segment(COMPACTION_ID_BASE);
    var d' := Disk(map[Segment(2) := [], out := []], map[Segment(2) := 0, out := 0], {}, map[]);
    assert CrashOf(Compacted(d), d');
    EmptyFile(c);
    assert forall id: nat, r :: !InFile(c, d', id, r);
    hide InFile, OnDiskExcept;
    forall r
      ensures r !in OnDisk(c, d')
    {
      OnDiskIff(c, d', {}, r);
    }
  }

  /**
   * The engine opens over the unsynced batch, and so not safely. A whole compaction, without any failure, then removes
   * the acknowledged write that the batch superseded, and the next power loss finds neither.
   */
  lemma {:induction false} AcknowledgedWriteDropped(cfg: Config, now: int, a: Record, b: Record)
    requires WriteTwice(cfg.codec, a, b)
    ensures
      var c, d := cfg.codec, Unsynced(cfg.codec, a, b);
      && Listing(d, [1, 2]) && Open(c, Default, now, d, [1, 2]).Running?
      && var db := Open(c, Default, now, d, [1, 2]).db;
         && !SafeToRun(c, db)
         && exists ss: seq<Sys>, d' ::
              && |ss| == 8 && ss[0] == Sys(db, map[b.Compound() := b], NoCompaction)
              && (forall i :: 0 <= i < 7 ==> Next(cfg, ss[i], ss[i + 1]))
              && CrashOf(ss[7].db.disk, d') && OnDisk(c, d') == {}
  {
    hide Open, Listing, Next, CrashOf, OnDiskExcept, Writable, EncodeFrame, Compacted, InFile, FramesSound, Ordered, Tidy, Clean, SegmentIds, Full;
    var c, d := cfg.codec, Unsynced(cfg.codec, a, b);
    var db := UnsyncedOpens(c, now, a, b);
    UnsyncedFrames(c, a, b);
    UnsyncedOrder(c, d, a, b);
    StagesNext(cfg, db, map[b.Compound() := b], b.Compound());
    NothingLeft(c, d);
    var ss := Stages(db, map[b.Compound() := b]);
    var d' :| CrashOf(Compacted(d), d') && OnDisk(c, d') == {};
    assert CrashOf(ss[7].db.disk, d');
  }
}
