/**
 * Opening in Default mode after a repair: it always runs, and the one thing that can be missing from what it serves
 * are the keys whose pointers lead into a damaged segment that is not the active one.
 */
module RepairReopen {
  import opened Wrappers
  import opened Bytes
  import opened Types
  import opened Frames
  import opened Index
  import opened LogMerge
  import opened Disk
  import opened FlushIndex
  import opened Flusher
  import opened Resync
  import opened Recovery
  import opened ShelfReplay
  import opened OpenAfterCrash
  import opened DiskView
  import opened FrameSets
  import opened Repair
  import opened RepairOutcome
  import opened RepairCrash
  import opened RepairRerun
  import opened RepairTwice

  // ---------- Tears without stranded frames ----------

  /** `t` is a tear of `d` with nothing to save behind it. */
  ghost predicate BareTear(c: Codec, now: int, d: Disk, t: Tear)
  {
    IsTear(c, d, t) && StrandedIn(c, now, t.segment, d.dir[Segment(t.segment)]) == []
  }

  predicate Damaged(t: Tear)
  {
    t.kind.CrcTear? || t.kind.ParseTear?
  }

  /** Some tear makes recovery drop this segment's keys. */
  predicate Drops(ts: seq<Tear>, active: nat, segment: nat)
  {
    exists t :: t in ts && t.segment == segment && t.segment != active && Damaged(t)
  }

  /** Default mode on one such tear. */
  lemma {:induction false} BareDefault(c: Codec, now: int, active: nat, w: Work, t: Tear)
    requires BareTear(c, now, w.disk, t) && Quiet(w.disk)
    ensures
      var s := Settle(c, Default, now, active, w, t);
      && s.error.None? && s.work.(disk := w.disk, idx := w.idx) == w && Quiet(s.work.disk)
      && s.work.idx == (if Drops([t], active, t.segment) then DropSegmentKeys(c, w.idx, t.segment) else w.idx)
      && Segment(t.segment) in s.work.disk.dir
      && s.work.disk.dir[Segment(t.segment)] == Mended(c, now, active, t.segment, w.disk.dir[Segment(t.segment)])
      && (forall j: nat :: j != t.segment ==>
            (Segment(j) in w.disk.dir <==> Segment(j) in s.work.disk.dir)
            && (Segment(j) in w.disk.dir ==> s.work.disk.dir[Segment(j)] == w.disk.dir[Segment(j)]))
  {
    TearSaves(c, now, active, w.disk, t);
    assert Segment(t.segment) in w.disk.dir;
    assert t in [t];
    hide Quiet, StrandedAfter, WriteDurably, TruncateSync, DropSegmentKeys, IsTear, SavedFrom, Mended;
    var file := w.disk.dir[Segment(t.segment)];
    DurableFile(w.disk, TornBackup(t.segment, t.offset), file[t.offset..]);
    Repair.CutFile(WriteDurably(w.disk, TornBackup(t.segment, t.offset), file[t.offset..]), t.segment, t.offset);
  }

  /** All tears bare. */
  ghost predicate AllBare(c: Codec, now: int, d: Disk, ts: seq<Tear>)
  {
    DistinctSegments(ts) && forall t :: t in ts ==> BareTear(c, now, d, t)
  }

  /** The index after all tears: the keys of dropped segments are gone, if there are any. */
  ghost predicate DroppedFrom(idx: Index, idx': Index, ts: seq<Tear>, active: nat)
  {
    && (forall k :: k in idx'.primary ==> k in idx.primary && idx'.primary[k] == idx.primary[k] && !Drops(ts, active, idx.primary[k].segmentId))
    && (forall k :: k in idx.primary && !Drops(ts, active, idx.primary[k].segmentId) ==> k in idx'.primary)
    && ((forall k :: k in idx.primary ==> !Drops(ts, active, idx.primary[k].segmentId)) ==> idx' == idx)
  }

  lemma {:induction false} BareDefaults(c: Codec, now: int, active: nat, w: Work, ts: seq<Tear>)
    requires AllBare(c, now, w.disk, ts) && Quiet(w.disk)
    ensures
      var s := SettleAll(c, Default, now, active, w, ts);
      && s.error.None? && s.work.(disk := w.disk, idx := w.idx) == w && Quiet(s.work.disk)
      && DroppedFrom(w.idx, s.work.idx, ts, active)
      && (forall j: nat :: (Segment(j) in w.disk.dir <==> Segment(j) in s.work.disk.dir)
            && (Segment(j) in w.disk.dir ==>
                  s.work.disk.dir[Segment(j)] == w.disk.dir[Segment(j)]
                  || s.work.disk.dir[Segment(j)] == Mended(c, now, active, j, w.disk.dir[Segment(j)])))
    decreases |ts|
  {
    hide Quiet, Settle, Mended, DropSegmentKeys, Drops;
    if ts != [] {
      var t, rest := ts[0], ts[1..];
      assert ts == [t] + rest;
      BareDefault(c, now, active, w, t);
      MendedOnce(c, now, active, now, active, t.segment, w.disk.dir[Segment(t.segment)]);
      var s := Settle(c, Default, now, active, w, t);
      assert AllBare(c, now, s.work.disk, rest) && (forall x :: x in rest ==> x.segment != t.segment) by {
        var ts := [t] + rest;
        assert forall i :: 0 <= i < |rest| ==> rest[i] == ts[i + 1];
        assert ts[0] == t;
        forall x | x in rest
          ensures BareTear(c, now, s.work.disk, x) && x.segment != t.segment
        {
          assert x in ts;
          assert BareTear(c, now, w.disk, x);
        }
      }
      BareDefaults(c, now, active, s.work, rest);
      BothDrop(w.idx, s.work.idx, SettleAll(c, Default, now, active, s.work, rest).work.idx, t, rest, active, c);
    } else {
      NothingDrops(w.idx, active);
    }
  }

  lemma {:induction false} NothingDrops(idx: Index, active: nat)
    ensures DroppedFrom(idx, idx, [], active)
  {
  }

  lemma {:induction false} BothDrop(idx: Index, idx1: Index, idx2: Index, t: Tear, rest: seq<Tear>, active: nat, c: Codec)
    requires idx1 == if Drops([t], active, t.segment) then DropSegmentKeys(c, idx, t.segment) else idx
    requires DroppedFrom(idx1, idx2, rest, active)
    ensures DroppedFrom(idx, idx2, [t] + rest, active)
  {
    forall x: nat
      ensures Drops([t] + rest, active, x) <==> Drops([t], active, x) || Drops(rest, active, x)
    {
    }
  }

  // ---------- The pass over mended files ----------

  lemma {:induction false} SameMerge(c: Codec, now: int, active: nat, d: Disk, d': Disk, ids: seq<nat>)
    requires PartlyMended(c, now, active, d, d') && ListedAscending(d, ids)
    ensures ListedAscending(d', ids) && PassAll(c, d', ids).merge == PassAll(c, d, ids).merge
    decreases |ids|
  {
    hide Scan, MergeFrom, Places;
    if ids != [] {
      var init, id := ids[..|ids| - 1], ids[|ids| - 1];
      SameMerge(c, now, active, d, d', init);
      assert Scan(c, Mended(c, now, active, id, d.dir[Segment(id)]), 0).frames == Scan(c, d.dir[Segment(id)], 0).frames by {
        CutAtTear(c, d.dir[Segment(id)], 0);
      }
    }
  }

  // ---------- What repair leaves ----------

  lemma {:induction false} OpenQuiet(d: Disk, active: nat)
    requires Quiet(d)
    ensures Quiet(OpenActive(d, active)) && Segment(active) in OpenActive(d, active).dir
  {
  }

  /** Under both clocks the torn files of `e` look the same. */
  ghost predicate ClocksAgree(c: Codec, e: Disk, now: int, now': int)
  {
    forall id: nat :: Segment(id) in e.dir && Torn(c, e.dir[Segment(id)]) ==> SameClock(e.dir[Segment(id)], now, now')
  }

  /** What settling all tears leaves. */
  lemma {:induction false} RepairSettles(c: Codec, now: int, now': int, d: Disk, ids: seq<nat>) returns (e: Disk)
    requires Repairable(c, now, d) && SameClocks(d, now, now') && Listing(d, ids) && ListedAscending(d, ids)
    ensures
      var s := SettledBy(c, now, d, ids);
      s.error.None? ==>
        && Quiet(s.work.disk) && AllMended(c, now, ActiveOf(c, d, ids), e, s.work.disk) && ClocksAgree(c, e, now, now')
        && IsMaxNormal(s.work.disk, s.work.maxNormal)
  {
    hide PassAll, SettledBy, Saves, AddAll, SameClocks, ActiveOf, MaxNormalId, Listing, Quiet, Torn, SameClock;
    FirstRun(c, now, d, ids);
    ListingMax(d, ids);
    var ts, m := PassAll(c, d, ids).tears, MaxNormalId(ids);
    var saves, s := Saves(c, now, d, ts), SettledBy(c, now, d, ids);
    DecodeClean(c, now, d, ts);
    e := d;
    if AddAll(d, m, saves).Some? {
      e := AddAll(d, m, saves).value.0;
      TornWereThere(c, now, now', d, m, saves);
      AddAllMax(d, m, saves);
    }
  }

  /** The directory an opening in Repair mode leaves: every file mended, and nothing torn that was not torn before. */
  lemma {:induction false} RepairedDisk(c: Codec, now: int, now': int, d: Disk, ids: seq<nat>) returns (e: Disk, a: nat)
    requires Repairable(c, now, d) && SameClocks(d, now, now') && Listing(d, ids) && Open(c, Repair, now, d, ids).Running?
    ensures
      var db := Open(c, Repair, now, d, ids).db;
      && Quiet(db.disk) && AllMended(c, now, a, e, db.disk) && ClocksAgree(c, e, now, now')
      && 0 < db.segmentCounter < COMPACTION_ID_BASE && IsMaxNormal(db.disk, db.segmentCounter - 1)
      && Segment(db.activeId) in db.disk.dir && db.activeId < COMPACTION_ID_BASE
  {
    ListingAscends(d, ids);
    e := RepairSettles(c, now, now', d, ids);
    a := ActiveOf(c, d, ids);
    var s := SettledBy(c, now, d, ids);
    SeedLeaves(c, PassAll(c, d, ids).merge, a, s);
    OpenQuiet(s.work.disk, a);
    EmptyFile(c);
    assert !Torn(c, []);
    CleanStays(c, now, a, a, []);
    e := if Segment(a) in s.work.disk.dir then e else AddFile(e, a, []);
  }

  lemma {:induction false} SeedLeaves(c: Codec, g: Merge, a: nat, s: Settled)
    ensures
      var o := Seed(g, a, s);
      o.Running? ==>
        && s.error.None? && o.db.disk == OpenActive(s.work.disk, a) && o.db.activeId == a && a < COMPACTION_ID_BASE
        && o.db.segmentCounter == Max(s.work.maxNormal, a) + 1 < COMPACTION_ID_BASE
  {
    hide OpenActive;
  }

  // ---------- Opening in Default mode ----------

  /** No pointer leads into a damaged segment other than the active one. */
  ghost predicate NoneDropped(c: Codec, d: Disk, ids: seq<nat>)
    requires ListedAscending(d, ids)
  {
    var pass := PassAll(c, d, ids);
    forall k :: k in pass.merge.idx.primary ==> !Drops(pass.tears, ChooseActive(pass.summaries), pass.merge.idx.primary[k].segmentId)
  }

  /** An opening of mended files: it runs, on the same frames, and serves them all just if nothing is dropped. */
  lemma {:induction false} MendedOpens(c: Codec, now: int, d: Disk, ids: seq<nat>)
    requires Listing(d, ids) && ListedAscending(d, ids) && Quiet(d) && AllBare(c, now, d, PassAll(c, d, ids).tears)
    requires !NoNormal(d) && MaxNormalId(ids) + 1 < COMPACTION_ID_BASE
    requires Consistent(OnDisk(c, d)) && ShortKeys(c, OnDisk(c, d))
    ensures
      var o := Open(c, Default, now, d, ids);
      && o.Running? && OnDisk(c, o.db.disk) == OnDisk(c, d)
      && (ServesAll(c, o.db, LiveView(OnDisk(c, d))) <==> NoneDropped(c, d, ids))
  {
    var pass := PassAll(c, d, ids);
    var a := ChooseActive(pass.summaries);
    var w := Work(d, pass.merge.idx, MaxNormalId(ids), MaxId(ids));
    BareDefaults(c, now, a, w, pass.tears);
    var s := SettleAll(c, Default, now, a, w, pass.tears);
    assert PartlyMended(c, now, a, d, s.work.disk);
    assert
      var a := ChooseActive(PassAll(c, d, ids).summaries);
      Segment(a) in d.dir && a < COMPACTION_ID_BASE by {
      ActiveThere(c, d, ids);
    }
    assert Max(MaxNormalId(ids), a) == MaxNormalId(ids) by {
      ListingMax(d, ids);
    }
    assert OpenActive(s.work.disk, a) == s.work.disk;
    forall id: nat | Segment(id) in d.dir
      ensures FramesIn(c, s.work.disk.dir[Segment(id)]) == FramesIn(c, d.dir[Segment(id)])
    {
      MendedOnce(c, now, a, now, a, id, d.dir[Segment(id)]);
    }
    forall r
      ensures r in OnDisk(c, s.work.disk) <==> r in OnDisk(c, d)
    {
      OnDiskIff(c, d, {}, r);
      OnDiskIff(c, s.work.disk, {}, r);
      assert forall id: nat :: InFile(c, s.work.disk, id, r) <==> InFile(c, d, id, r);
    }
    ServesJustAll(c, now, a, d, s.work.disk, ids, Open(c, Default, now, d, ids));
  }

  /** The indexes serve exactly this database. */
  ghost predicate ServesAll(c: Codec, db: Db, view: map<string, Record>)
  {
    Represents(db.idx, view) && Reads(c, db.disk, db.idx, view)
  }

  lemma {:induction false} ServesJustAll(c: Codec, now: int, a: nat, d: Disk, d': Disk, ids: seq<nat>, o: Opened)
    requires Listing(d, ids) && ListedAscending(d, ids) && PartlyMended(c, now, a, d, d') && OnDisk(c, d') == OnDisk(c, d)
    requires Consistent(OnDisk(c, d)) && ShortKeys(c, OnDisk(c, d))
    requires o.Running? && o.db.disk == d'
    requires DroppedFrom(PassAll(c, d, ids).merge.idx, o.db.idx, PassAll(c, d, ids).tears, ChooseActive(PassAll(c, d, ids).summaries))
    ensures ServesAll(c, o.db, LiveView(OnDisk(c, d))) <==> NoneDropped(c, d, ids)
  {
    hide PassAll, ChooseActive, Consistent, ShortKeys, LiveView, OnDiskExcept, Represents, Accounted, Reads, FreshSeq, Mended, Drops;
    SameMerge(c, now, a, d, d', ids);
    assert Listing(d', ids);
    PassIndexesDisk(c, d', ids);
    var idx, view := PassAll(c, d, ids).merge.idx, LiveView(OnDisk(c, d));
    hide PartlyMended, Listing;
    RepresentsKeys(idx, view);
    if Represents(o.db.idx, view) {
      RepresentsKeys(o.db.idx, view);
      forall k | k in idx.primary
        ensures !Drops(PassAll(c, d, ids).tears, ChooseActive(PassAll(c, d, ids).summaries), idx.primary[k].segmentId)
      {
        assert k in o.db.idx.primary.Keys;
      }
    }
  }

  /**
   * Repair, then an opening in Default mode, under a clock that takes no header for one of the future that the first
   * did, or the other way round: it runs, on exactly the frames before each tear and the first run of valid frames
   * behind each; and it serves the newest of them for every key if and only if no pointer of the replay leads into
   * a damaged segment that is not the active one.
   */
  lemma {:induction false} RepairThenOpen(c: Codec, now: int, now': int, d: Disk, ids: seq<nat>, ids': seq<nat>)
    requires Repairable(c, now, d) && SameClocks(d, now, now') && Listing(d, ids)
    requires Open(c, Repair, now, d, ids).Running? && Listing(Open(c, Repair, now, d, ids).db.disk, ids')
    requires forall t :: t in PassAll(c, d, ids).tears ==> Segment(t.segment) in d.dir
    requires
      var pass := PassAll(c, d, ids);
      var frames := OnDisk(c, d) + AllSaved(c, d, now, ChooseActive(pass.summaries), pass.tears);
      Consistent(frames) && ShortKeys(c, frames)
    ensures ListedAscending(Open(c, Repair, now, d, ids).db.disk, ids')
    ensures
      var pass := PassAll(c, d, ids);
      var frames := OnDisk(c, d) + AllSaved(c, d, now, ChooseActive(pass.summaries), pass.tears);
      var mended := Open(c, Repair, now, d, ids).db.disk;
      var o := Open(c, Default, now', mended, ids');
      && o.Running? && OnDisk(c, o.db.disk) == frames
      && (ServesAll(c, o.db, LiveView(frames)) <==> NoneDropped(c, mended, ids'))
  {
    ListingAscends(d, ids);
    RepairThenReopen(c, now, d, ids, ids');
    var mended := Open(c, Repair, now, d, ids).db.disk;
    var e, a := RepairedDisk(c, now, now', d, ids);
    PassListed(c, mended, ids');
    // The tears repair leaves have nothing to save behind them, under either clock.
    assert AllBare(c, now', mended, PassAll(c, mended, ids').tears) by {
      forall t | t in PassAll(c, mended, ids').tears
        ensures BareTear(c, now', mended, t)
      {
        assert IsTear(c, mended, t);
        var file := e.dir[Segment(t.segment)];
        MendedOnce(c, now, a, now, a, t.segment, file);
        assert StrandedIn(c, now', t.segment, mended.dir[Segment(t.segment)]) == [] by {
          SameStranded(c, mended.dir[Segment(t.segment)], t.segment, now, now');
        }
      }
    }
    ListingMax(mended, ids');
    MendedOpens(c, now', mended, ids');
  }
}
