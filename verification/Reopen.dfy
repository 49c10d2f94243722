/** Recovery of an ordered directory: which segment becomes active, and that the engine it builds satisfies the whole invariant. */
module Reopen {
  import opened Wrappers
  import opened Bytes
  import opened Types
  import opened Frames
  import opened Index
  import opened LogMerge
  import opened Disk
  import opened GroupCommit
  import opened FlushIndex
  import opened Flusher
  import opened Resync
  import opened Recovery
  import opened ShelfReplay
  import opened CommitSafety
  import opened OpenAfterCrash
  import opened DiskView
  import opened FrameSets
  import opened Compaction
  import opened CompactionFrames
  import opened CompactionSteps
  import opened CompactionCrash

  // ---------- Choosing the active segment ----------

  ghost function SummaryOn(c: Codec, d: Disk, id: nat): Summary
    requires Segment(id) in d.dir
  {
    var r := Scan(c, d.dir[Segment(id)], 0);
    Summary(id, r.maxSeq, r.hasFrame)
  }

  ghost predicate Present(d: Disk, ids: seq<nat>)
  {
    forall i :: 0 <= i < |ids| ==> Segment(ids[i]) in d.dir
  }

  ghost predicate Ascending(ids: seq<nat>)
  {
    forall i, j :: 0 <= i < j < |ids| ==> ids[i] < ids[j]
  }

  /** The last normal id of a sorted listing. */
  ghost function LastNormal(ids: seq<nat>): Option<nat>
  {
    if ids == [] then None
    else if ids[|ids| - 1] < COMPACTION_ID_BASE then Some(ids[|ids| - 1])
    else LastNormal(ids[..|ids| - 1])
  }

  lemma {:induction false} LastNormalIs(ids: seq<nat>)
    requires Ascending(ids)
    ensures LastNormal(ids).Some? ==> LastNormal(ids).value in ids && LastNormal(ids).value < COMPACTION_ID_BASE
    ensures forall id :: id in ids && id < COMPACTION_ID_BASE ==> LastNormal(ids).Some? && id <= LastNormal(ids).value
  {
    if ids != [] {
      assert ids == ids[..|ids| - 1] + [ids[|ids| - 1]];
      if ids[|ids| - 1] >= COMPACTION_ID_BASE {
        LastNormalIs(ids[..|ids| - 1]);
      }
    }
  }

  /** In a clean file the largest id replay counted is that of a frame. */
  lemma {:induction false} CleanMax(c: Codec, file: bytes, off: nat)
    requires off <= |file| && Scan(c, file, off).tear.None?
    ensures
      var s := Scan(c, file, off);
      && (s.hasFrame <==> s.frames != [])
      && (s.hasFrame ==> exists l :: l in s.frames && l.rec.seqId == s.maxSeq)
    decreases |file| - off
  {
    hide FrameAt;
    if off < |file| {
      ScanGood(c, file, off);
      assert
        var f, s := FrameAt(c, file, off), Scan(c, file, off);
        var rest := Scan(c, file, off + f.len);
        s.hasFrame && s.maxSeq == Max(f.rec.seqId, rest.maxSeq) && (!rest.hasFrame ==> rest.maxSeq == 0);
      CleanMax(c, file, off + FrameAt(c, file, off).len);
      var s, rest := Scan(c, file, off), Scan(c, file, off + FrameAt(c, file, off).len);
      assert s.frames[0] in s.frames;
      if rest.hasFrame {
        var l :| l in rest.frames && l.rec.seqId == rest.maxSeq;
        assert l in s.frames;
      }
    }
  }

  lemma {:induction false} MaxIsFrame(c: Codec, d: Disk, id: nat) returns (r: Record)
    requires Segment(id) in d.dir && Clean(c, d.dir[Segment(id)]) && SummaryOn(c, d, id).hasFrame
    ensures InFile(c, d, id, r) && r.seqId == SummaryOn(c, d, id).maxSeq
  {
    var file := d.dir[Segment(id)];
    CleanMax(c, file, 0);
    var l :| l in Scan(c, file, 0).frames && l.rec.seqId == SummaryOn(c, d, id).maxSeq;
    r := l.rec;
  }

  /** What choosing the active segment sees after replaying `ids`: the last normal one. */
  ghost predicate Choice(c: Codec, d: Disk, ids: seq<nat>, ss: seq<Summary>)
  {
    var last := LastNormal(ids);
    if last.None? then ss == [] else
      && Segment(last.value) in d.dir
      && Newest(ss) == Some(SummaryOn(c, d, last.value)) && Newest(ss).value.id == last.value
      && (SummaryOn(c, d, last.value).hasFrame ==> MostRecent(ss) == Some(SummaryOn(c, d, last.value)))
      && (MostRecent(ss).Some? ==> exists id: nat :: IsSummary(c, d, ids, id, MostRecent(ss).value))
  }

  lemma {:induction false} PassChoice(c: Codec, d: Disk, ids: seq<nat>)
    requires Present(d, ids) && Ascending(ids) && Tidy(c, d) && Ordered(c, d)
    ensures Choice(c, d, ids, PassAll(c, d, ids).summaries)
  {
    if ids != [] {
      var init, id := ids[..|ids| - 1], ids[|ids| - 1];
      assert ids == init + [id];
      PassChoice(c, d, init);
      hide PassAll, Tidy, Ordered, SummaryOn, Choice;
      NextChoice(c, d, init, id, PassAll(c, d, init).summaries);
    }
  }

  lemma {:induction false} NextChoice(c: Codec, d: Disk, init: seq<nat>, id: nat, ss: seq<Summary>)
    requires Choice(c, d, init, ss) && Ascending(init) && Segment(id) in d.dir && Tidy(c, d) && Ordered(c, d)
    requires forall j :: j in init ==> j < id
    ensures Choice(c, d, init + [id], ss + if id < COMPACTION_ID_BASE then [SummaryOn(c, d, id)] else [])
  {
    hide Tidy, Ordered, SummaryOn;
    assert (init + [id])[..|init|] == init && ss + [] == ss;
    if id < COMPACTION_ID_BASE {
      LastNormalIs(init);
      LatestWins(c, d, ss, init, id);
    } else if MostRecent(ss).Some? {
      var j: nat :| IsSummary(c, d, init, j, MostRecent(ss).value);
      assert IsSummary(c, d, init + [id], j, MostRecent(ss).value);
    }
  }

  /** A later normal segment is the newest, and the most recent if it holds any frame. */
  lemma {:induction false} LatestWins(c: Codec, d: Disk, ss: seq<Summary>, init: seq<nat>, id: nat)
    requires Tidy(c, d) && Ordered(c, d) && Segment(id) in d.dir && id < COMPACTION_ID_BASE
    requires forall j :: j in init ==> j < id
    requires Newest(ss).Some? ==> Newest(ss).value.id < id
    requires MostRecent(ss).Some? ==> exists j: nat :: IsSummary(c, d, init, j, MostRecent(ss).value)
    ensures
      var ss' := ss + [SummaryOn(c, d, id)];
      && Newest(ss') == Some(SummaryOn(c, d, id)) && SummaryOn(c, d, id).id == id
      && (SummaryOn(c, d, id).hasFrame ==> MostRecent(ss') == Some(SummaryOn(c, d, id)))
      && (MostRecent(ss').Some? ==> exists j: nat :: IsSummary(c, d, init + [id], j, MostRecent(ss').value))
  {
    hide Scan;
    var ss' := ss + [SummaryOn(c, d, id)];
    assert ss'[..|ss'| - 1] == ss;
    if MostRecent(ss).Some? {
      var j: nat :| IsSummary(c, d, init, j, MostRecent(ss).value);
      if SummaryOn(c, d, id).hasFrame {
        assert MoreRecent(SummaryOn(c, d, id), SummaryOn(c, d, j)) by {
          var r := MaxIsFrame(c, d, j);
          var q := MaxIsFrame(c, d, id);
          assert r.seqId < q.seqId;
        }
      }
      assert IsSummary(c, d, init + [id], j, MostRecent(ss).value);
    }
    assert IsSummary(c, d, init + [id], id, SummaryOn(c, d, id)) || !SummaryOn(c, d, id).hasFrame;
  }

  ghost predicate IsSummary(c: Codec, d: Disk, ids: seq<nat>, id: nat, s: Summary)
  {
    id in ids && id < COMPACTION_ID_BASE && Segment(id) in d.dir && s == SummaryOn(c, d, id) && s.hasFrame
  }

  /** Recovery appends to the newest normal segment. */
  lemma {:induction false} NewestIsActive(c: Codec, d: Disk, ids: seq<nat>, active: nat)
    requires Listing(d, ids) && Tidy(c, d) && Ordered(c, d) && NewestIs(d, active)
    ensures ChooseActive(PassAll(c, d, ids).summaries) == active
  {
    hide Scan, Tidy, Ordered;
    LastNormalIs(ids);
    assert active in ids;
    PassChoice(c, d, ids);
    assert LastNormal(ids) == Some(active);
  }

  // ---------- Tears ----------

  /** A cut compacted segment. */
  ghost predicate CutTear(d: Disk, active: nat, t: Tear)
  {
    && t.segment != active && CutOff(Some(t.kind))
    && Segment(t.segment) in d.dir && t.offset < |d.dir[Segment(t.segment)]|
  }

  /** Settling them changes nothing; at worst a frame-like run inside the lost tail makes recovery refuse. */
  lemma {:induction false} CutTearsSettle(c: Codec, now: int, active: nat, w: Work, tears: seq<Tear>)
    requires forall t :: t in tears ==> CutTear(w.disk, active, t)
    ensures
      var s := SettleAll(c, Default, now, active, w, tears);
      s.work == w && (s.error.Some? ==> s.error.value.RecoveryRequired?)
    ensures SettleAllPoints(c, Default, now, active, w, tears) == []
    decreases |tears|
  {
    hide StrandedAfter;
    if tears != [] {
      assert CutTear(w.disk, active, tears[0]);
      CutTearsSettle(c, now, active, w, tears[1..]);
    }
  }

  // ---------- Counters ----------

  lemma {:induction false} MaxIdAbove(ids: seq<nat>)
    ensures forall id :: id in ids ==> id <= MaxId(ids)
    ensures forall id :: id in ids && id < COMPACTION_ID_BASE ==> id <= MaxNormalId(ids)
    ensures MaxNormalId(ids) < COMPACTION_ID_BASE
  {
    if ids != [] {
      assert ids == ids[..|ids| - 1] + [ids[|ids| - 1]];
      MaxIdAbove(ids[..|ids| - 1]);
    }
  }

  // ---------- The reopened engine ----------

  lemma {:induction false} PassPointsToFrames(c: Codec, d: Disk, ids: seq<nat>)
    requires Listing(d, ids) && Consistent(OnDisk(c, d))
    ensures
      var m := PassAll(c, d, ids).merge;
      forall k :: k in LiveView(OnDisk(c, d)) && k in m.idx.primary ==>
        InFile(c, d, m.idx.primary[k].segmentId, LiveView(OnDisk(c, d))[k])
  {
    hide Scan, Represents, Accounted, LiveView, OnDisk, MarksMatch, SeqsFrom;
    PassMerges(c, d, ids);
    DirPlacesRecords(c, d, ids);
    ListedFrames(c, d, ids);
    var ps := DirPlaces(c, d, ids);
    MergeAllMerged(c, ps);
    var m, view := MergeAll(c, ps), LiveView(OnDisk(c, d));
    forall k | k in view && k in m.idx.primary
      ensures InFile(c, d, m.idx.primary[k].segmentId, view[k])
    {
      assert Placed(m.idx.primary[k], view[k]) in ps;
      PlacedInFile(c, d, ids, Placed(m.idx.primary[k], view[k]));
    }
  }

  lemma {:induction false} PlacedInFile(c: Codec, d: Disk, ids: seq<nat>, p: Placed)
    requires Present(d, ids) && p in DirPlaces(c, d, ids)
    ensures InFile(c, d, p.ptr.segmentId, p.rec)
  {
    hide Scan;
    var init, id := ids[..|ids| - 1], ids[|ids| - 1];
    if p in FilePlaces(c, d, id) {
      PlacesSet(id, Scan(c, d.dir[Segment(id)], 0).frames);
      var ls := Scan(c, d.dir[Segment(id)], 0).frames;
      var i :| 0 <= i < |ls| && ls[i].rec == p.rec && ls[i].offset == p.ptr.fileOffset && p.ptr.segmentId == id;
      assert ls[i] in ls;
    } else {
      PlacedInFile(c, d, init, p);
    }
  }

  /**
   * An engine can run on `d` with the active segment `active`: normal segments are durable, and even with pending
   * removals undone the frames are in order and older than `next`.
   */
  ghost predicate Runnable(c: Codec, d: Disk, next: nat, active: nat)
  {
    && WellFormed(d) && PendingOk(d, NoCompaction) && 1 <= active && Segment(active) in d.dir
    && DiskOk(c, Full(d), next, active, SegmentIds(Full(d)) - {active})
    && forall id: nat :: Segment(id) in d.dir && id < COMPACTION_ID_BASE ==> Synced(d, id)
  }

  /** The files there are, in order too. */
  lemma {:induction false} RunnableSound(c: Codec, d: Disk, next: nat, active: nat)
    requires Runnable(c, d, next, active)
    ensures FramesSound(c, d, next) && NewestIs(d, active) && 1 <= active && Segment(active) in d.dir
  {
    assert forall p :: p in d.dir ==> p in Full(d).dir;
    assert FramesSound(c, Full(d), next) && NewestIs(Full(d), active) by { hide FramesSound, Full, WellFormed; }
    hide FramesSound, Ordered, CopiesActive, Originals, Tidy, Full, WellFormed, SegmentIds;
    PartSound(c, d, next);
  }

  lemma {:induction false} OpenedIds(c: Codec, d: Disk, ids: seq<nat>, active: nat, db: Db)
    requires Listing(d, ids) && NewestIs(d, active) && 1 <= active
    requires db.disk == d && db.activeId == active && db.fileOpen
    requires db.segmentCounter == Max(MaxNormalId(ids), active) + 1 && db.compactionCounter == Max(MaxId(ids) + 1, COMPACTION_ID_BASE)
    ensures IdsOk(db)
  {
    MaxIdAbove(ids);
    forall id: nat | Segment(id) in d.dir
      ensures if id < COMPACTION_ID_BASE then id < db.segmentCounter else id < db.compactionCounter
    {
      assert id in ids;
    }
  }

  /** The indexes recovery built, over the directory it built them from, make a sane idle engine. */
  lemma {:induction false} OpenedSane(c: Codec, db: Db, view: map<string, Record>)
    requires !db.failed && IdsOk(db) && Runnable(c, db.disk, db.nextSeq, db.activeId)
    requires Consistent(OnDisk(c, db.disk)) && LiveView(OnDisk(c, db.disk)) == view
    requires Segment(db.activeId) in db.disk.dir ==> db.activeSize == |db.disk.dir[Segment(db.activeId)]|
    requires Represents(db.idx, view) && Accounted(c, db.idx) && Reads(c, db.disk, db.idx, view) && FreshFrom(db.idx, db.nextSeq)
    requires forall k :: k in view && k in db.idx.primary ==> InFile(c, db.disk, db.idx.primary[k].segmentId, view[k])
    ensures Sane(c, Sys(db, view, NoCompaction))
  {
    var s := Sys(db, view, NoCompaction);
    RunnableSound(c, db.disk, db.nextSeq, db.activeId);
    assert Serves(c, db.disk, db.idx, view);
    OpenedFrames(c, s);
    assert Durable(s) by { hide WellFormed, DiskOk, PendingOk, Full, Synced, Represents, Accounted, FreshSeq, OnDiskExcept, LiveView, Consistent; }
    hide Serves, FreshFrom, IdsOk, FramesOk, Durable, Runnable;
  }

  lemma {:induction false} OpenedFrames(c: Codec, s: Sys)
    requires s.phase.NoCompaction? && Runnable(c, s.db.disk, s.db.nextSeq, s.db.activeId)
    requires Consistent(OnDisk(c, s.db.disk)) && LiveView(OnDisk(c, s.db.disk)) == s.view
    requires forall k :: k in s.view && k in s.db.idx.primary ==> InFile(c, s.db.disk, s.db.idx.primary[k].segmentId, s.view[k])
    ensures FramesOk(c, s) && ViewOk(c, s)
  {
    hide FramesSound, Originals, Ordered, CopiesActive, Tidy, InFile, Full, Gone, SegmentIds, OnDiskExcept, LiveView, Consistent, WellFormed, Synced, PendingOk, NormalsNewer;
    NewestNewer(Full(s.db.disk), s.db.activeId);
  }

  /** Only the segment files matter. */
  lemma {:induction false} SameFiles(c: Codec, d: Disk, f: Disk, next: nat, active: nat, skip: set<nat>)
    requires DiskOk(c, d, next, active, skip) && SameSegments(d, f)
    ensures DiskOk(c, f, next, active, skip)
  {
    assert NewestIs(f, active) && Tidy(c, f) by { hide FramesSound, Ordered, CopiesActive, Originals, Clean, TailTorn; }
    hide Tidy, FramesIn;
    assert forall j: nat, r :: InFile(c, f, j, r) <==> InFile(c, d, j, r);
    hide InFile, Writable;
    forall x: nat, n: nat, g, r |
      x >= COMPACTION_ID_BASE && n < COMPACTION_ID_BASE && n !in skip && InFile(c, f, x, g) && InFile(c, f, n, r) && g.seqId > r.seqId
      ensures HasOriginal(c, f, n, g)
    {
      var m: nat :| n <= m < COMPACTION_ID_BASE && InFile(c, d, m, g);
      assert InFile(c, f, m, g);
    }
  }

  // ---------- Quiet directories ----------

  /** No segment is pending. */
  ghost predicate Still(d: Disk)
  {
    WellFormed(d) && d.unlinks == map[] && forall id: nat :: Segment(id) in d.dir ==> Synced(d, id)
  }

  lemma {:induction false} QuietStill(d: Disk)
    requires Quiet(d)
    ensures Still(d)
  {
  }

  /** An engine can run on an ordered directory where nothing is pending, from its highest id on. */
  lemma {:induction false} StillRunnable(c: Codec, d: Disk, next: nat, active: nat, highest: nat)
    requires Still(d) && 1 <= active && DiskOk(c, d, next, active, SegmentIds(d) - {active})
    requires forall r :: r in OnDisk(c, d) ==> r.seqId <= highest
    ensures Runnable(c, d, highest + 1, active)
  {
    FullPlain(d);
    var f, skip := Full(d), SegmentIds(d) - {active};
    assert SegmentIds(f) == SegmentIds(d);
    hide Full, InFile, SegmentIds, Synced, PendingOk;
    SameFiles(c, d, f, next, active, skip);
    hide Originals, Ordered, CopiesActive, Tidy, FramesSound;
  }

  /** Where nothing is pending all live records are durable. */
  lemma {:induction false} StillComplete(c: Codec, s: Sys)
    requires Sane(c, s) && s.phase.NoCompaction? && Still(s.db.disk)
    requires Consistent(OnDisk(c, s.db.disk)) && LiveView(OnDisk(c, s.db.disk)) == s.view
    ensures Complete(c, s)
  {
    hide Sane, OnDiskExcept, LiveView;
    var d := s.db.disk;
    LiveViewSound(OnDisk(c, d));
    forall k | k in s.view
      ensures Stands(c, d, {}, s.view[k])
    {
      OnDiskIff(c, d, {}, s.view[k]);
      var id: nat :| InFile(c, d, id, s.view[k]);
      assert id !in {} && Synced(d, id);
    }
  }

  lemma {:induction false} CrashQuiet(d: Disk, d': Disk)
    requires CrashOf(d, d')
    ensures Quiet(d')
  {
  }

  /** Indexes serve one database at most. */
  lemma {:induction false} OneDatabase(c: Codec, d: Disk, idx: Index, v: map<string, Record>, w: map<string, Record>)
    requires Represents(idx, v) && Represents(idx, w) && Reads(c, d, idx, v) && Reads(c, d, idx, w)
    ensures v == w
  {
    hide Holds, ReadRecord;
    assert forall k :: k in v ==> Some(v[k]) == Some(w[k]);
  }

  // ---------- The order of the segments ----------

  /**
   * The active segment is in the normal range, the next ids of both kinds name no file, not even one a power loss
   * could bring back, the next sequence id is above every frame, and a frame elsewhere that is not older than some
   * frame of the active segment is a copy of one of its frames.
   */
  ghost predicate InOrder(c: Codec, db: Db)
  {
    var d := Full(db.disk);
    && 1 <= db.activeId < COMPACTION_ID_BASE && Segment(db.activeId) in d.dir
    && (db.segmentCounter < COMPACTION_ID_BASE ==> Segment(db.segmentCounter) !in d.dir)
    && Segment(db.compactionCounter) !in d.dir
    && (forall id: nat, r :: InFile(c, d, id, r) ==> r.seqId < db.nextSeq)
    && (forall id: nat, r, q :: InFile(c, d, db.activeId, r) && InFile(c, d, id, q) && r.seqId <= q.seqId ==>
          InFile(c, d, db.activeId, q))
  }

  lemma {:induction false} SegmentsInOrder(c: Codec, s: Sys)
    requires Sane(c, s)
    ensures InOrder(c, s.db)
  {
    var d := Full(s.db.disk);
    assert
      && (s.db.segmentCounter < COMPACTION_ID_BASE ==> Segment(s.db.segmentCounter) !in Full(s.db.disk).dir)
      && Segment(s.db.compactionCounter) !in Full(s.db.disk).dir by {
      OutIsNew(c, s);
    }
    var skip := Skipped(s.phase, d, Gone(s.db.disk), s.db.activeId);
    assert DiskOk(c, d, s.db.nextSeq, s.db.activeId, skip);
    LostIsSkipped(c, s);
    forall id: nat, r, q | InFile(c, d, s.db.activeId, r) && InFile(c, d, id, q) && r.seqId <= q.seqId
      ensures InFile(c, d, s.db.activeId, q)
    {
      assert InFile(c, d, s.db.activeId, q) by {
        if r.seqId < q.seqId {
          if id >= COMPACTION_ID_BASE {
            assert HasOriginal(c, d, s.db.activeId, q);
            var m: nat :| s.db.activeId <= m < COMPACTION_ID_BASE && InFile(c, d, m, q);
            assert m == s.db.activeId;
          } else {
            assert id == s.db.activeId || id < s.db.activeId;
          }
        }
      }
    }
  }
}
