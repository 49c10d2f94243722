/** Recovery of an ordered directory whose active segment carries a torn write: the tail is cut, or recovery refuses. */
module TornTail {
  import opened Wrappers
  import opened Bytes
  import opened Types
  import opened Frames
  import opened Index
  import opened LogMerge
  import opened Disk
  import opened FlushIndex
  import opened Flusher
  import opened Resync
  import opened Recovery
  import opened Shelves
  import opened ShelfReplay
  import opened OpenAfterCrash
  import opened DiskView
  import opened FrameSets
  import opened Compaction
  import opened CompactionFrames
  import opened CompactionSteps
  import opened CompactionCrash
  import opened Reopen

  /** `tail`, behind a clean file, is the beginning of a frame at most. */
  ghost predicate TailOnly(c: Codec, file: bytes, tail: bytes)
  {
    var s := Scan(c, file + tail, |file|);
    s.frames == [] && s.stop == |file| && s.maxSeq == 0 && !s.hasFrame && CutOff(s.tear)
  }

  /** `d` is the directory `d0` with a torn tail behind its active segment. */
  ghost predicate TornOf(c: Codec, d0: Disk, d: Disk, active: nat)
  {
    && (forall id: nat :: Segment(id) in d.dir <==> Segment(id) in d0.dir)
    && (forall id: nat :: id != active && Segment(id) in d.dir ==> d.dir[Segment(id)] == d0.dir[Segment(id)])
    && Segment(active) in d0.dir && d0.dir[Segment(active)] <= d.dir[Segment(active)]
    && Clean(c, d0.dir[Segment(active)])
    && TailOnly(c, d0.dir[Segment(active)], d.dir[Segment(active)][|d0.dir[Segment(active)]|..])
  }

  // ---------- Replay ----------

  lemma {:induction false} ScanTail(c: Codec, file: bytes, tail: bytes, off: nat)
    requires off <= |file| && Scan(c, file, off).tear.None? && TailOnly(c, file, tail)
    ensures
      var a, s := Scan(c, file, off), Scan(c, file + tail, off);
      s.frames == a.frames && s.stop == |file| && s.maxSeq == a.maxSeq && s.hasFrame == a.hasFrame && CutOff(s.tear)
    decreases |file| - off
  {
    hide FrameAt;
    if off == |file| {
    } else {
      ScanGood(c, file, off);
      FrameAtGrows(c, file, tail, off);
      ScanGood(c, file + tail, off);
      ScanTail(c, file, tail, off + FrameAt(c, file, off).len);
    }
  }

  lemma {:induction false} TornScan(c: Codec, d0: Disk, d: Disk, active: nat)
    requires TornOf(c, d0, d, active)
    ensures
      var file0, file := d0.dir[Segment(active)], d.dir[Segment(active)];
      var a, s := Scan(c, file0, 0), Scan(c, file, 0);
      s.frames == a.frames && s.stop == |file0| && s.maxSeq == a.maxSeq && s.hasFrame == a.hasFrame && CutOff(s.tear)
  {
    hide Scan;
    var file0, file := d0.dir[Segment(active)], d.dir[Segment(active)];
    assert file0 + file[|file0|..] == file;
    ScanTail(c, file0, file[|file0|..], 0);
  }

  /** The tail changes neither what is merged nor which segment is chosen. */
  lemma {:induction false} PassTorn(c: Codec, d0: Disk, d: Disk, active: nat, ids: seq<nat>)
    requires TornOf(c, d0, d, active) && Present(d0, ids)
    ensures Present(d, ids)
    ensures PassAll(c, d, ids).merge == PassAll(c, d0, ids).merge && PassAll(c, d, ids).summaries == PassAll(c, d0, ids).summaries
  {
    hide Scan, Clean, TailOnly;
    if ids != [] {
      PassTorn(c, d0, d, active, ids[..|ids| - 1]);
      TornScan(c, d0, d, active);
    }
  }

  lemma {:induction false} SamePass(c: Codec, d: Disk, d': Disk, ids: seq<nat>)
    requires SameSegments(d, d') && Present(d, ids)
    ensures Present(d', ids) && PassAll(c, d', ids) == PassAll(c, d, ids)
  {
    hide PassSegment;
    if ids != [] {
      SamePass(c, d, d', ids[..|ids| - 1]);
    }
  }

  // ---------- The tears ----------

  /** A tear of the directory: the torn write, or a cut compacted segment. */
  ghost predicate TornTear(d: Disk, active: nat, off: nat, t: Tear)
  {
    if t.segment == active then
      CutOff(Some(t.kind)) && t.offset == off && Segment(active) in d.dir && off < |d.dir[Segment(active)]|
    else
      CutTear(d, active, t)
  }

  lemma {:induction false} TornTears(c: Codec, d0: Disk, d: Disk, active: nat, ids: seq<nat>)
    requires TornOf(c, d0, d, active) && Tidy(c, d0) && Present(d, ids) && Ascending(ids) && active < COMPACTION_ID_BASE
    ensures
      var tears, off := PassAll(c, d, ids).tears, |d0.dir[Segment(active)]|;
      && (forall t :: t in tears ==> TornTear(d, active, off, t) && t.segment in ids)
      && (forall i, j :: 0 <= i < j < |tears| ==> tears[i].segment < tears[j].segment)
      && (active in ids && off < |d.dir[Segment(active)]| ==> exists t :: t in tears && t.segment == active)
  {
    hide Scan, TailOnly;
    if ids != [] {
      var init, id := ids[..|ids| - 1], ids[|ids| - 1];
      assert ids == init + [id];
      TornTears(c, d0, d, active, init);
      TornScan(c, d0, d, active);
      var r := Scan(c, d.dir[Segment(id)], 0);
      if r.tear.Some? {
        var t := Tear(id, r.stop, PrefixMax(r.frames), r.tear.value);
        assert PassAll(c, d, ids).tears == PassAll(c, d, init).tears + [t];
        assert TornTear(d, active, |d0.dir[Segment(active)]|, t);
        assert t in PassAll(c, d, ids).tears;
      } else {
        assert PassAll(c, d, ids).tears == PassAll(c, d, init).tears;
      }
    }
  }

  /** The active segment cut at its tear, its tail in the sidecar. */
  ghost function CutActive(d: Disk, active: nat, off: nat): Disk
    requires Segment(active) in d.dir && off <= |d.dir[Segment(active)]|
  {
    TruncateSync(WriteDurably(d, TornBackup(active, off), d.dir[Segment(active)][off..]), Segment(active), off)
  }

  /** At each of these points the segments are as in `d`, or the active one, if it is torn, has been cut. */
  ghost predicate CutOrSame(d: Disk, active: nat, off: nat, torn: bool, points: seq<Disk>)
    requires Segment(active) in d.dir && off <= |d.dir[Segment(active)]|
  {
    forall i :: 0 <= i < |points| ==> SameShelves(d, points[i]) || (torn && points[i] == CutActive(d, active, off))
  }

  /** Default mode on all tears: the torn write is cut when its turn comes, unless recovery has refused before. */
  lemma {:induction false} TornTearsSettle(c: Codec, now: int, active: nat, off: nat, w: Work, tears: seq<Tear>)
    requires WellFormed(w.disk) && Segment(active) in w.disk.dir && off <= |w.disk.dir[Segment(active)]|
    requires forall t :: t in tears ==> TornTear(w.disk, active, off, t)
    requires forall i, j :: 0 <= i < j < |tears| ==> tears[i].segment < tears[j].segment
    ensures
      var s := SettleAll(c, Default, now, active, w, tears);
      var torn := exists t :: t in tears && t.segment == active;
      && (s.error.Some? ==> s.error.value.RecoveryRequired?)
      && s.work.(disk := w.disk) == w
      && (s.work.disk == w.disk || (torn && s.work.disk == CutActive(w.disk, active, off)))
      && (s.error.None? && torn ==> s.work.disk == CutActive(w.disk, active, off))
    ensures CutOrSame(w.disk, active, off, exists t :: t in tears && t.segment == active, SettleAllPoints(c, Default, now, active, w, tears))
    decreases |tears|
  {
    hide StrandedAfter, WriteDurably, DurablyPoints, Settle, SettlePoints, WellFormed, SameShelves;
    if tears != [] {
      var t, rest := tears[0], tears[1..];
      assert tears == [t] + rest;
      assert forall x :: x in tears <==> x == t || x in rest;
      assert TornTear(w.disk, active, off, t);
      if t.segment == active {
        assert
          var s, points := Settle(c, Default, now, active, w, t), SettlePoints(c, Default, now, active, w, t);
          && s.work.(disk := w.disk) == w
          && (if s.error.Some? then s.error.value.RecoveryRequired? && s.work == w && points == []
              else s.work.disk == CutActive(w.disk, active, off))
          && CutOrSame(w.disk, active, off, true, points) by {
          SettleTop(c, now, w, t, active);
          SideFile(w.disk, TornBackup(active, off), w.disk.dir[Segment(active)][off..]);
        }
        var s := Settle(c, Default, now, active, w, t);
        if s.error.None? {
          CutDisk(w.disk, active, off);
          CutTearsSettle(c, now, active, s.work, rest);
          assert SettleAllPoints(c, Default, now, active, w, tears) == SettlePoints(c, Default, now, active, w, t) + [];
        }
      } else {
        OtherSettles(c, now, active, w, t);
        TornTearsSettle(c, now, active, off, w, rest);
        var more := SettleAllPoints(c, Default, now, active, w, rest);
        assert [] + more == more;
      }
    }
  }

  lemma {:induction false} OtherSettles(c: Codec, now: int, active: nat, w: Work, t: Tear)
    requires CutTear(w.disk, active, t)
    ensures
      var s := Settle(c, Default, now, active, w, t);
      s.work == w && (s.error.Some? ==> s.error.value.RecoveryRequired?) && SettlePoints(c, Default, now, active, w, t) == []
  {
    hide StrandedAfter;
  }

  // ---------- The opening ----------

  /** `d` with its torn tail cut off, if it has one. */
  ghost function CutBack(d0: Disk, d: Disk, active: nat): Disk
    requires Segment(active) in d0.dir && Segment(active) in d.dir && |d0.dir[Segment(active)]| <= |d.dir[Segment(active)]|
  {
    var off := |d0.dir[Segment(active)]|;
    if off == |d.dir[Segment(active)]| then d else CutActive(d, active, off)
  }

  /** A disk on the way: the segments as they were, or with the torn write gone. */
  ghost predicate Underway(d0: Disk, d: Disk, active: nat, d': Disk)
    requires Segment(active) in d0.dir && Segment(active) in d.dir && |d0.dir[Segment(active)]| <= |d.dir[Segment(active)]|
  {
    SameShelves(d, d') || d' == CutBack(d0, d, active)
  }

  /** The engine with what replay of `d0` finds, over the disk `d`. */
  ghost predicate SeededOn(c: Codec, d0: Disk, ids: seq<nat>, d: Disk, active: nat, db: Db)
  {
    && Present(d0, ids) && Segment(active) in d.dir
    && var m := PassAll(c, d0, ids).merge;
       db == Db(d, m.idx, m.highest + 1, active, |d.dir[Segment(active)]|, true, false,
                Max(MaxNormalId(ids), active) + 1, Max(MaxId(ids) + 1, COMPACTION_ID_BASE))
  }

  /** What recovery of a torn directory may yield. */
  ghost predicate TornOutcome(c: Codec, d0: Disk, d: Disk, active: nat, ids: seq<nat>, o: Opened)
  {
    && Segment(active) in d0.dir && Segment(active) in d.dir && |d0.dir[Segment(active)]| <= |d.dir[Segment(active)]|
    && match o
       case Refused(disk, e) => (e.RecoveryRequired? || e.OutOfSegmentIds?) && (disk == d || disk == CutBack(d0, d, active))
       case Running(db) => SeededOn(c, d0, ids, CutBack(d0, d, active), active, db)
  }

  /**
   * Recovery of an ordered directory, its active segment possibly torn: refused, or running on its whole frames, the
   * torn tail cut off. At each point of it the segments are as they were, or the tail is gone.
   */
  lemma {:induction false} OpenTorn(c: Codec, now: int, d0: Disk, d: Disk, ids: seq<nat>, active: nat)
    requires Listing(d, ids) && WellFormed(d) && TornOf(c, d0, d, active)
    requires Tidy(c, d0) && Ordered(c, d0) && NewestIs(d0, active)
    ensures TornOutcome(c, d0, d, active, ids, Open(c, Default, now, d, ids))
    ensures
      var points := OpenPoints(c, Default, now, d, ids);
      forall i :: 0 <= i < |points| ==> Underway(d0, d, active, points[i])
  {
    hide LiveView, OnDiskExcept, PassAll, ChooseActive, SegmentIds, WellFormed, SettleAll, SettleAllPoints, SameShelves, Tidy, Ordered, CutActive;
    assert
      && Listing(d0, ids) && Present(d0, ids) && Present(d, ids)
      && ChooseActive(PassAll(c, d, ids).summaries) == active && PassAll(c, d, ids).merge == PassAll(c, d0, ids).merge by {
      assert Present(d0, ids);
      PassTorn(c, d0, d, active, ids);
      NewestIsActive(c, d0, ids, active);
    }
    TornFormed(c, d0, d, active, ids);
    var off := |d0.dir[Segment(active)]|;
    var pass := PassAll(c, d, ids);
    var w := Work(d, pass.merge.idx, MaxNormalId(ids), MaxId(ids));
    var s, points := SettleAll(c, Default, now, active, w, pass.tears), SettleAllPoints(c, Default, now, active, w, pass.tears);
    TornTearsSettle(c, now, active, off, w, pass.tears);
    CutKeeps(d, active, off);
    assert Segment(active) in s.work.disk.dir;
    assert points + [] == points;
    assert OpenPoints(c, Default, now, d, ids) == points;
  }

  lemma {:induction false} CutKeeps(d: Disk, active: nat, off: nat)
    requires WellFormed(d) && Segment(active) in d.dir && off <= |d.dir[Segment(active)]|
    ensures Segment(active) in CutActive(d, active, off).dir
    ensures off == |d.dir[Segment(active)]| ==> SameShelves(d, d)
  {
    hide WriteDurably, TruncateSync;
    CutDisk(d, active, off);
  }

  lemma {:induction false} TornFormed(c: Codec, d0: Disk, d: Disk, active: nat, ids: seq<nat>)
    requires TornOf(c, d0, d, active) && Listing(d, ids) && Tidy(c, d0) && active < COMPACTION_ID_BASE
    ensures Segment(active) in d0.dir && Segment(active) in d.dir && |d0.dir[Segment(active)]| <= |d.dir[Segment(active)]|
    ensures
      var tears, off := PassAll(c, d, ids).tears, |d0.dir[Segment(active)]|;
      && (forall t :: t in tears ==> TornTear(d, active, off, t))
      && (forall i, j :: 0 <= i < j < |tears| ==> tears[i].segment < tears[j].segment)
      && (off < |d.dir[Segment(active)]| ==> exists t :: t in tears && t.segment == active)
      && (off == |d.dir[Segment(active)]| ==> !exists t :: t in tears && t.segment == active)
  {
    hide PassAll, Tidy, Clean, TailOnly;
    TornTears(c, d0, d, active, ids);
    assert active in ids;
  }

  /** Cutting the tail leaves the segments of `d0`; it also makes the active one durable, and nothing is pending any more. */
  lemma {:induction false} CutBackIs(c: Codec, d0: Disk, d: Disk, active: nat)
    requires TornOf(c, d0, d, active) && WellFormed(d)
    ensures Segment(active) in d0.dir && Segment(active) in d.dir && |d0.dir[Segment(active)]| <= |d.dir[Segment(active)]|
    ensures
      var d', p := CutBack(d0, d, active), Segment(active);
      && WellFormed(d') && SameSegments(d0, d') && (Quiet(d) ==> Quiet(d')) && (Still(d) ==> Still(d'))
      && (forall id: nat :: Segment(id) in d'.dir && id != active ==> Segment(id) in d.dir && d'.durable[Segment(id)] == d.durable[Segment(id)])
      && (d' == d || (d'.creates == {} && d'.unlinks == map[] && d'.durable[p] == |d'.dir[p]|))
  {
    hide Clean, TailOnly, WriteDurably, TruncateSync;
    var off := |d0.dir[Segment(active)]|;
    if off < |d.dir[Segment(active)]| {
      CutDisk(d, active, off);
    } else {
      assert d0.dir[Segment(active)] == d.dir[Segment(active)];
    }
  }

  /** An engine seeded on a directory on which it can run satisfies the whole invariant, with the database found. */
  lemma {:induction false} TornSane(c: Codec, d0: Disk, ids: seq<nat>, d: Disk, active: nat, db: Db)
    requires SeededOn(c, d0, ids, d, active, db) && SameSegments(d0, d) && Listing(d0, ids) && Runnable(c, d, db.nextSeq, active)
    ensures Consistent(OnDisk(c, d)) && OnDisk(c, d) == OnDisk(c, d0) && Sane(c, Sys(db, LiveView(OnDisk(c, d)), NoCompaction))
  {
    hide LiveView, OnDiskExcept, PassAll, Runnable, Sane, Consistent;
    SamePass(c, d0, d, ids);
    SameSegmentsFrames(c, d0, d);
    assert Listing(d, ids);
    hide SameSegments, Listing;
    // The engine that recovery seeds from the replay of such a directory.
    assert Consistent(OnDisk(c, d)) && Sane(c, Sys(db, LiveView(OnDisk(c, d)), NoCompaction)) by {
      RunnableSound(c, d, db.nextSeq, active);
      SoundSets(c, d, db.nextSeq, {});
      PassIndexesDisk(c, d, ids);
      PassPointsToFrames(c, d, ids);
      OpenedIds(c, d, ids, active, db);
      OpenedSane(c, db, LiveView(OnDisk(c, d)));
    }
  }

  /** On a directory where nothing is pending it always can, and serves all there is. */
  lemma {:induction false} TornStill(c: Codec, d0: Disk, ids: seq<nat>, d: Disk, next: nat, active: nat, db: Db)
    requires SeededOn(c, d0, ids, d, active, db) && SameSegments(d0, d) && Listing(d0, ids) && Still(d) && 1 <= active
    requires DiskOk(c, d0, next, active, SegmentIds(d0) - {active})
    ensures Consistent(OnDisk(c, d)) && OnDisk(c, d) == OnDisk(c, d0)
    ensures
      var s := Sys(db, LiveView(OnDisk(c, d)), NoCompaction);
      Sane(c, s) && Complete(c, s)
  {
    hide LiveView, OnDiskExcept, PassAll, Runnable, Sane, Consistent, FramesSound, Ordered, CopiesActive, Originals, Tidy, NewestIs, SegmentIds, Still, Complete;
    assert SegmentIds(d0) == SegmentIds(d) by {
      forall id: nat
        ensures id in SegmentIds(d0) <==> id in SegmentIds(d)
      {
        SegmentIdsIff(d0, id);
        SegmentIdsIff(d, id);
      }
    }
    SameFiles(c, d0, d, next, active, SegmentIds(d0) - {active});
    SameSegmentsFrames(c, d0, d);
    SoundSets(c, d0, next, {});
    assert Listing(d0, ids);
    PassIndexesDisk(c, d0, ids);
    StillRunnable(c, d, next, active, PassAll(c, d0, ids).merge.highest);
    TornSane(c, d0, ids, d, active, db);
    StillComplete(c, Sys(db, LiveView(OnDisk(c, d)), NoCompaction));
  }
}
