/**
 * Repair: where valid frames are stranded behind a tear, they are copied to a new segment and the tail is
 * backed up, each durably, before the source is cut. What a reopened engine then finds is what replay found
 * before each tear plus those frames.
 */
module Repair {
  import opened Wrappers
  import opened Bytes
  import opened Types
  import opened Frames
  import opened Index
  import opened LogMerge
  import opened Disk
  import opened FlushIndex
  import opened Flusher
  import opened Resync
  import opened Recovery
  import opened ShelfReplay
  import opened OpenAfterCrash
  import opened DiskView
  import opened FrameSets

  // ---------- Cutting a segment at its tear ----------

  /** Replay of a segment cut where replay stopped finds the same frames and no tear. */
  lemma {:induction false} CutAtTear(c: Codec, file: bytes, off: nat)
    requires off <= |file|
    ensures
      var s := Scan(c, file, off);
      var cut := file[..s.stop];
      Scan(c, cut, off).frames == s.frames && Scan(c, cut, off).tear.None?
    decreases |file| - off
  {
    hide Scan;
    var s := Scan(c, file, off);
    var cut := file[..s.stop];
    if off < |file| && off + HEADER_LEN <= |file| && FrameAt(c, file, off).Good? {
      ScanGood(c, file, off);
      var len := FrameAt(c, file, off).len;
      CutAtTear(c, file, off + len);
      assert off + HEADER_LEN <= s.stop && FrameAt(c, file[..s.stop], off) == FrameAt(c, file, off) by {
        var cut := file[..s.stop];
        assert cut[off..off + HEADER_LEN] == file[off..off + HEADER_LEN];
        var h := DecodeHeader(file[off..off + HEADER_LEN]);
        assert cut[off + HEADER_LEN..off + HEADER_LEN + h.payloadLen] == file[off + HEADER_LEN..off + HEADER_LEN + h.payloadLen];
      }
      assert off + len <= s.stop;
      ScanGood(c, cut, off);
    } else {
      ScanStops(c, file, off);
      ScanEnd(c, cut);
    }
  }

  lemma {:induction false} ScanStops(c: Codec, file: bytes, off: nat)
    requires off <= |file| && !(off < |file| && off + HEADER_LEN <= |file| && FrameAt(c, file, off).Good?)
    ensures Scan(c, file, off).stop == off && Scan(c, file, off).frames == []
  {
    hide FrameAt;
  }

  // ---------- What one write does to the directory ----------

  /** `d'` is `d` with one segment file replaced or added. */
  ghost predicate WithSegment(d: Disk, d': Disk, id: nat, file: bytes)
  {
    && Segment(id) in d'.dir && d'.dir[Segment(id)] == file
    && forall j: nat :: j != id ==>
         (Segment(j) in d.dir <==> Segment(j) in d'.dir) && (Segment(j) in d.dir ==> d'.dir[Segment(j)] == d.dir[Segment(j)])
  }

  lemma {:induction false} DurableFile(d: Disk, p: Path, content: bytes)
    requires Quiet(d)
    ensures
      var d' := WriteDurably(d, p, content);
      && Quiet(d')
      && d'.dir == d.dir[p := content]
  {
    var d1 := Create(d, p);
    var d2 := Append(d1, p, content);
    assert [] + content == content;
    assert d2.dir == d.dir[p := content];
  }

  lemma {:induction false} CutFile(d: Disk, id: nat, len: nat)
    requires Quiet(d) && Segment(id) in d.dir && len <= |d.dir[Segment(id)]|
    ensures
      var d' := TruncateSync(d, Segment(id), len);
      && Quiet(d')
      && d'.dir == d.dir[Segment(id) := d.dir[Segment(id)][..len]]
  {
  }

  // ---------- One salvage ----------

  /** Where a salvage may write: at a fresh id, or where an earlier attempt put the same frames. */
  ghost predicate TargetFree(d: Disk, segment: nat, offset: nat, maxNormal: nat, frames: bytes)
  {
    var target := SalvageTarget(d, SalvageMarker(segment, offset), maxNormal);
    && target != segment
    && (Segment(target) in d.dir ==> d.dir[Segment(target)] == frames)
  }

  /** The directory after each durable step. */
  lemma {:induction false} SalvageDirs(d: Disk, segment: nat, offset: nat, maxNormal: nat, frames: bytes)
    requires Quiet(d) && Segment(segment) in d.dir && offset <= |d.dir[Segment(segment)]|
    requires TargetFree(d, segment, offset, maxNormal, frames)
    ensures
      var s := SalvageSteps(d, segment, offset, maxNormal, frames);
      var source := d.dir[Segment(segment)];
      && Quiet(s.marked) && Quiet(s.salvaged) && Quiet(s.backedUp) && Quiet(s.truncated) && Quiet(s.unmarked)
      && s.marked.dir == d.dir[SalvageMarker(segment, offset) := MarkerBytes(s.target, |frames|)]
      && s.salvaged.dir == s.marked.dir[Segment(s.target) := frames]
      && s.backedUp.dir == s.salvaged.dir[TornBackup(segment, offset) := source[offset..]]
      && s.truncated.dir == s.backedUp.dir[Segment(segment) := source[..offset]]
      && s.unmarked.dir == s.truncated.dir - {SalvageMarker(segment, offset)}
  {
    hide WriteDurably, TruncateSync, ReadMarker, NextFree;
    var s := SalvageSteps(d, segment, offset, maxNormal, frames);
    DurableFile(d, SalvageMarker(segment, offset), MarkerBytes(s.target, |frames|));
    DurableFile(s.marked, Segment(s.target), frames);
    assert Segment(s.target) in s.marked.dir && s.marked.dir[Segment(s.target)] == frames ==> s.marked.dir[Segment(s.target) := frames] == s.marked.dir;
    DurableFile(s.salvaged, TornBackup(segment, offset), d.dir[Segment(segment)][offset..]);
    CutFile(s.backedUp, segment, offset);
  }

  /** The disks a salvage can die at: after the marker, the salvage file, its directory sync, the backup, the cut. */
  ghost function NamedPoints(d: Disk, segment: nat, offset: nat, maxNormal: nat, frames: bytes): seq<Disk>
    requires Segment(segment) in d.dir && offset <= |d.dir[Segment(segment)]|
  {
    var s := SalvageSteps(d, segment, offset, maxNormal, frames);
    [s.marked, Written(s, frames), s.salvaged, s.backedUp, s.truncated, s.unmarked]
  }

  /** The salvage file is written and synced, its directory entry not yet. */
  ghost function Written(s: Salvage, frames: bytes): Disk
  {
    if s.salvaged == s.marked then s.marked
    else Sync(Append(Create(s.marked, Segment(s.target)), Segment(s.target), frames), Segment(s.target))
  }

  /**
   * No byte is cut before a durable copy of it exists: at every named point, whatever a crash leaves, the
   * source is whole, or its tail is in the backup and the salvaged frames are in their segment.
   */
  lemma {:induction false} NothingCutEarly(d: Disk, segment: nat, offset: nat, maxNormal: nat, frames: bytes, i: nat, d': Disk)
    requires Quiet(d) && Segment(segment) in d.dir && offset <= |d.dir[Segment(segment)]|
    requires TargetFree(d, segment, offset, maxNormal, frames)
    requires i < 6 && CrashOf(NamedPoints(d, segment, offset, maxNormal, frames)[i], d')
    ensures
      var source, s := d.dir[Segment(segment)], SalvageSteps(d, segment, offset, maxNormal, frames);
      && Segment(segment) in d'.dir
      && (i < 4 ==> d'.dir[Segment(segment)] == source)
      && (i >= 4 ==>
            && d'.dir[Segment(segment)] == source[..offset]
            && TornBackup(segment, offset) in d'.dir && d'.dir[TornBackup(segment, offset)] == source[offset..]
            && Segment(s.target) in d'.dir && d'.dir[Segment(s.target)] == frames)
  {
    hide SalvageSteps, SalvageTarget, Quiet, CrashOf, WriteDurably;
    var s := SalvageSteps(d, segment, offset, maxNormal, frames);
    SalvageDirs(d, segment, offset, maxNormal, frames);
    TargetIsOther(d, segment, offset, maxNormal, frames);
    if i == 1 {
      WrittenCrash(s, frames, d', Segment(segment));
    } else {
      QuietCrash(NamedPoints(d, segment, offset, maxNormal, frames)[i], d');
    }
  }

  lemma {:induction false} TargetIsOther(d: Disk, segment: nat, offset: nat, maxNormal: nat, frames: bytes)
    requires Segment(segment) in d.dir && offset <= |d.dir[Segment(segment)]|
    requires TargetFree(d, segment, offset, maxNormal, frames)
    ensures SalvageSteps(d, segment, offset, maxNormal, frames).target != segment
  {
    hide WriteDurably, ReadMarker, NextFree;
  }

  /** A quiet disk survives a crash unchanged. */
  lemma {:induction false} QuietCrash(d: Disk, d': Disk)
    requires Quiet(d) && CrashOf(d, d')
    ensures d'.dir == d.dir && Quiet(d')
  {
    forall p
      ensures p in d.dir <==> p in d'.dir
      ensures p in d.dir ==> d'.dir[p] == d.dir[p]
    {
    }
  }

  /** With the salvage file's entry pending, it is there whole or not at all. */
  lemma {:induction false} WrittenCrash(s: Salvage, frames: bytes, d': Disk, p: Path)
    requires Quiet(s.marked) && CrashOf(Written(s, frames), d') && p in s.marked.dir && p != Segment(s.target)
    ensures p in d'.dir && d'.dir[p] == s.marked.dir[p]
  {
  }

  // ---------- What a salvage leaves to be replayed ----------

  /** A cut at the tear keeps the frames; a new segment adds its own. */
  lemma {:induction false} ReplacedOnDisk(c: Codec, d: Disk, d': Disk, id: nat, file: bytes)
    requires WithSegment(d, d', id, file)
    requires Segment(id) in d.dir ==> FramesIn(c, file) == FramesIn(c, d.dir[Segment(id)])
    ensures OnDisk(c, d') == OnDisk(c, d) + FramesIn(c, file)
  {
    hide FramesIn, OnDiskExcept;
    forall r
      ensures r in OnDisk(c, d') <==> r in OnDisk(c, d) + FramesIn(c, file)
    {
      OnDiskIff(c, d, {}, r);
      OnDiskIff(c, d', {}, r);
      if j: nat :| InFile(c, d, j, r) {
        assert InFile(c, d', j, r);
      }
      if j: nat :| InFile(c, d', j, r) {
        assert j != id ==> InFile(c, d, j, r);
      }
      if r in FramesIn(c, file) {
        assert InFile(c, d', id, r);
      }
    }
  }

  /** The tear of a segment is where its replay stops. */
  ghost predicate TearsAt(c: Codec, d: Disk, segment: nat, offset: nat)
  {
    Segment(segment) in d.dir && Scan(c, d.dir[Segment(segment)], 0).stop == offset
  }

  /** After a salvage the directory holds the frames it held, and the salvaged ones; the source has no tear. */
  lemma {:induction false} SalvageFrames(c: Codec, d: Disk, segment: nat, offset: nat, maxNormal: nat, frames: bytes)
    requires Quiet(d) && TearsAt(c, d, segment, offset) && TargetFree(d, segment, offset, maxNormal, frames)
    ensures
      var s := SalvageSteps(d, segment, offset, maxNormal, frames);
      && Quiet(s.unmarked)
      && OnDisk(c, s.unmarked) == OnDisk(c, d) + FramesIn(c, frames)
      && Segment(segment) in s.unmarked.dir && Clean(c, s.unmarked.dir[Segment(segment)])
  {
    hide SalvageSteps, SalvageTarget, Quiet, WriteDurably, Scan, OnDiskExcept;
    var s := SalvageSteps(d, segment, offset, maxNormal, frames);
    var source := d.dir[Segment(segment)];
    SalvageDirs(d, segment, offset, maxNormal, frames);
    TargetIsOther(d, segment, offset, maxNormal, frames);
    TargetIs(d, segment, offset, maxNormal, frames);
    CutAtTear(c, source, 0);
    assert WithSegment(d, s.backedUp, s.target, frames);
    ReplacedOnDisk(c, d, s.backedUp, s.target, frames);
    assert WithSegment(s.backedUp, s.unmarked, segment, source[..offset]);
    ReplacedOnDisk(c, s.backedUp, s.unmarked, segment, source[..offset]);
    assert FramesIn(c, s.backedUp.dir[Segment(segment)]) <= OnDisk(c, s.backedUp) by {
      forall r | r in FramesIn(c, s.backedUp.dir[Segment(segment)])
        ensures r in OnDisk(c, s.backedUp)
      {
        assert InFile(c, s.backedUp, segment, r);
        OnDiskIff(c, s.backedUp, {}, r);
      }
    }
  }

  lemma {:induction false} TargetIs(d: Disk, segment: nat, offset: nat, maxNormal: nat, frames: bytes)
    requires Segment(segment) in d.dir && offset <= |d.dir[Segment(segment)]|
    ensures SalvageSteps(d, segment, offset, maxNormal, frames).target == SalvageTarget(d, SalvageMarker(segment, offset), maxNormal)
  {
    hide WriteDurably, SalvageTarget;
  }

  // ---------- Crash and rerun ----------

  lemma {:induction false} MarkerRoundTrip(d: Disk, p: Path, target: nat, len: nat)
    requires p in d.dir && d.dir[p] == MarkerBytes(target, len) && target < U64 && len < U64
    ensures ReadMarker(d, p) == Some((target, len))
  {
    hide BE, FromBE;
    WidthLimits();
    BERoundTrip(target, 8);
    BERoundTrip(len, 8);
    assert d.dir[p][..8] == BE(target, 8) && d.dir[p][8..] == BE(len, 8);
  }

  /** What a crash at a point before the cut leaves of the segments. */
  lemma {:induction false} CrashBeforeCut(d: Disk, segment: nat, offset: nat, maxNormal: nat, frames: bytes, i: nat, d': Disk)
    requires Quiet(d) && Segment(segment) in d.dir && offset <= |d.dir[Segment(segment)]|
    requires TargetFree(d, segment, offset, maxNormal, frames)
    requires i < 4 && CrashOf(NamedPoints(d, segment, offset, maxNormal, frames)[i], d')
    ensures
      var target := SalvageSteps(d, segment, offset, maxNormal, frames).target;
      && Quiet(d')
      && SalvageMarker(segment, offset) in d'.dir && d'.dir[SalvageMarker(segment, offset)] == MarkerBytes(target, |frames|)
      && (forall j: nat :: j != target ==>
            (Segment(j) in d.dir <==> Segment(j) in d'.dir) && (Segment(j) in d.dir ==> d'.dir[Segment(j)] == d.dir[Segment(j)]))
      && (Segment(target) in d'.dir ==> d'.dir[Segment(target)] == frames)
  {
    hide SalvageSteps, SalvageTarget, Quiet, CrashOf, WriteDurably;
    var s := SalvageSteps(d, segment, offset, maxNormal, frames);
    SalvageDirs(d, segment, offset, maxNormal, frames);
    TargetIsOther(d, segment, offset, maxNormal, frames);
    TargetIs(d, segment, offset, maxNormal, frames);
    if i == 1 {
      WrittenLeaves(s, frames, d');
    } else {
      QuietCrash(NamedPoints(d, segment, offset, maxNormal, frames)[i], d');
    }
  }

  lemma {:induction false} WrittenLeaves(s: Salvage, frames: bytes, d': Disk)
    requires Quiet(s.marked) && CrashOf(Written(s, frames), d')
    requires Segment(s.target) in s.marked.dir ==> s.marked.dir[Segment(s.target)] == frames
    ensures Quiet(d')
    ensures forall p :: p != Segment(s.target) ==> (p in d'.dir <==> p in s.marked.dir) && (p in d'.dir ==> d'.dir[p] == s.marked.dir[p])
    ensures Segment(s.target) in d'.dir ==> d'.dir[Segment(s.target)] == frames
  {
    if s.salvaged == s.marked {
      QuietCrash(s.marked, d');
    }
  }

  /** Before the cut it starts over with the target its marker names. */
  lemma {:induction false} SalvageStartsOver(d: Disk, segment: nat, offset: nat, maxNormal: nat, frames: bytes, i: nat, d': Disk, maxNormal': nat)
    requires Quiet(d) && Segment(segment) in d.dir && offset <= |d.dir[Segment(segment)]|
    requires TargetFree(d, segment, offset, maxNormal, frames) && |frames| < U64
    requires SalvageSteps(d, segment, offset, maxNormal, frames).target < COMPACTION_ID_BASE
    requires i < 4 && CrashOf(NamedPoints(d, segment, offset, maxNormal, frames)[i], d')
    ensures Segment(segment) in d'.dir && d'.dir[Segment(segment)] == d.dir[Segment(segment)]
    ensures TargetFree(d', segment, offset, maxNormal', frames)
    ensures
      SameSegments(SalvageSteps(d, segment, offset, maxNormal, frames).unmarked, SalvageSteps(d', segment, offset, maxNormal', frames).unmarked)
  {
    hide SalvageSteps, SalvageTarget, Quiet, CrashOf, WriteDurably;
    var s := SalvageSteps(d, segment, offset, maxNormal, frames);
    NothingCutEarly(d, segment, offset, maxNormal, frames, i, d');
    SalvageDirs(d, segment, offset, maxNormal, frames);
    TargetIsOther(d, segment, offset, maxNormal, frames);
    TargetIs(d, segment, offset, maxNormal, frames);
    TargetPositive(d, SalvageMarker(segment, offset), maxNormal);
    CrashBeforeCut(d, segment, offset, maxNormal, frames, i, d');
    MarkerRoundTrip(d', SalvageMarker(segment, offset), s.target, |frames|);
    MarkedTarget(d', SalvageMarker(segment, offset), maxNormal', s.target, |frames|);
    SalvageDirs(d', segment, offset, maxNormal', frames);
    TargetIs(d', segment, offset, maxNormal', frames);
  }

  /**
   * A salvage that dies at any named point and is done again ends with the same segments: before the cut it starts
   * over with the target its marker names; after the cut there is nothing left to do.
   */
  lemma {:induction false} SalvageRepeats(d: Disk, segment: nat, offset: nat, maxNormal: nat, frames: bytes, i: nat, d': Disk, maxNormal': nat)
    requires Quiet(d) && Segment(segment) in d.dir && offset <= |d.dir[Segment(segment)]|
    requires TargetFree(d, segment, offset, maxNormal, frames) && |frames| < U64
    requires SalvageSteps(d, segment, offset, maxNormal, frames).target < COMPACTION_ID_BASE
    requires i < 6 && CrashOf(NamedPoints(d, segment, offset, maxNormal, frames)[i], d')
    ensures
      var once := SalvageSteps(d, segment, offset, maxNormal, frames).unmarked;
      && Segment(segment) in d'.dir
      && if i < 4 then
           && d'.dir[Segment(segment)] == d.dir[Segment(segment)]
           && TargetFree(d', segment, offset, maxNormal', frames)
           && SameSegments(once, SalvageSteps(d', segment, offset, maxNormal', frames).unmarked)
         else
           SameSegments(once, d')
  {
    hide SalvageSteps, SalvageTarget, Quiet, CrashOf, WriteDurably, TargetFree;
    NothingCutEarly(d, segment, offset, maxNormal, frames, i, d');
    if i < 4 {
      SalvageStartsOver(d, segment, offset, maxNormal, frames, i, d', maxNormal');
    } else {
      SalvageDirs(d, segment, offset, maxNormal, frames);
      TargetIsOther(d, segment, offset, maxNormal, frames);
      QuietCrash(NamedPoints(d, segment, offset, maxNormal, frames)[i], d');
    }
  }

  lemma {:induction false} TargetPositive(d: Disk, marker: Path, maxNormal: nat)
    ensures SalvageTarget(d, marker, maxNormal) > 0
  {
    hide ReadMarker;
  }

  lemma {:induction false} MarkedTarget(d: Disk, marker: Path, maxNormal: nat, target: nat, len: nat)
    requires ReadMarker(d, marker) == Some((target, len)) && 0 < target < COMPACTION_ID_BASE
    ensures SalvageTarget(d, marker, maxNormal) == target
  {
    hide ReadMarker, NextFree;
  }

  // ---------- All tears of a directory ----------

  /** `t` is the tear replay finds in its segment, and no salvage of it has begun. */
  ghost predicate FreshTear(c: Codec, d: Disk, t: Tear)
  {
    && TearsAt(c, d, t.segment, t.offset) && t.offset < |d.dir[Segment(t.segment)]|
    && SalvageMarker(t.segment, t.offset) !in d.dir
  }

  /** The frames repair saves from behind a tear: the first run of valid frames after it. */
  ghost function SavedBytes(c: Codec, d: Disk, now: int, active: nat, t: Tear): bytes
    requires Segment(t.segment) in d.dir
  {
    if t.kind.TrailingTear? && t.segment != active then [] else
    var file := d.dir[Segment(t.segment)];
    RunBytes(file, StrandedAfter(c, file, t.offset, now, MinSeq(t)))
  }

  /** What settling one tear leaves alone: all other segments, and the markers of other tears. */
  ghost predicate OthersStay(d: Disk, d': Disk, segment: nat)
  {
    && (forall j: nat :: j != segment && Segment(j) in d.dir ==> Segment(j) in d'.dir && d'.dir[Segment(j)] == d.dir[Segment(j)])
    && (forall j: nat, o: nat :: j != segment && SalvageMarker(j, o) in d'.dir ==> SalvageMarker(j, o) in d.dir)
  }

  lemma {:induction false} NoFrames(c: Codec)
    ensures FramesIn(c, []) == {} && RunBytes([], []) == []
  {
  }

  lemma {:induction false} FreshTarget(d: Disk, segment: nat, offset: nat, maxNormal: nat, frames: bytes)
    requires Segment(segment) in d.dir && SalvageMarker(segment, offset) !in d.dir
    ensures TargetFree(d, segment, offset, maxNormal, frames)
    ensures Segment(SalvageTarget(d, SalvageMarker(segment, offset), maxNormal)) !in d.dir
  {
    var target := SalvageTarget(d, SalvageMarker(segment, offset), maxNormal);
    SegmentIdsIff(d, target);
  }

  /** A torn active segment without stranded frames is backed up and cut. */
  lemma {:induction false} CutTorn(c: Codec, d: Disk, t: Tear)
    requires Quiet(d) && FreshTear(c, d, t)
    ensures
      var d' := TruncateSync(WriteDurably(d, TornBackup(t.segment, t.offset), d.dir[Segment(t.segment)][t.offset..]), Segment(t.segment), t.offset);
      && Quiet(d') && OnDisk(c, d') == OnDisk(c, d) && OthersStay(d, d', t.segment)
  {
    hide Quiet, WriteDurably, TruncateSync, Scan, OnDiskExcept;
    var file := d.dir[Segment(t.segment)];
    var d1 := WriteDurably(d, TornBackup(t.segment, t.offset), file[t.offset..]);
    DurableFile(d, TornBackup(t.segment, t.offset), file[t.offset..]);
    CutFile(d1, t.segment, t.offset);
    assert Clean(c, file[..t.offset]) && FramesIn(c, file[..t.offset]) == FramesIn(c, file) by {
      CutAtTear(c, file, 0);
    }
    var d' := TruncateSync(d1, Segment(t.segment), t.offset);
    assert WithSegment(d, d', t.segment, file[..t.offset]);
    ReplacedOnDisk(c, d, d', t.segment, file[..t.offset]);
    assert FramesIn(c, d.dir[Segment(t.segment)]) <= OnDisk(c, d) by {
      forall r | r in FramesIn(c, d.dir[Segment(t.segment)])
        ensures r in OnDisk(c, d)
      {
        assert InFile(c, d, t.segment, r);
        OnDiskIff(c, d, {}, r);
      }
    }
  }

  /** The copy of a damaged segment made before anything else touches no segment. */
  lemma {:induction false} BackupFirst(d: Disk, t: Tear, file: bytes)
    requires Quiet(d)
    ensures
      var d0 := WriteDurably(d, RepairBackup(t.segment), file);
      && Quiet(d0) && SameSegments(d, d0) && OthersStay(d, d0, t.segment)
      && (forall p: Path :: !p.RepairBackup? ==> (p in d0.dir <==> p in d.dir) && (p in d.dir ==> d0.dir[p] == d.dir[p]))
  {
    hide WriteDurably, Quiet;
    DurableFile(d, RepairBackup(t.segment), file);
  }

  lemma {:induction false} SalvageTear(c: Codec, d: Disk, t: Tear, maxNormal: nat, frames: bytes)
    requires Quiet(d) && FreshTear(c, d, t)
    ensures
      var d' := SalvageSteps(d, t.segment, t.offset, maxNormal, frames).unmarked;
      && Quiet(d') && OnDisk(c, d') == OnDisk(c, d) + FramesIn(c, frames) && OthersStay(d, d', t.segment)
  {
    hide SalvageSteps, SalvageTarget, Quiet, WriteDurably, Scan, FramesIn, OnDiskExcept;
    FreshTarget(d, t.segment, t.offset, maxNormal, frames);
    SalvageFrames(c, d, t.segment, t.offset, maxNormal, frames);
    SalvageDirs(d, t.segment, t.offset, maxNormal, frames);
    TargetIs(d, t.segment, t.offset, maxNormal, frames);
  }

  /** Settling one tear in Repair mode adds exactly the frames saved from behind it. */
  lemma {:induction false} RepairOne(c: Codec, now: int, active: nat, w: Work, t: Tear)
    requires Quiet(w.disk) && FreshTear(c, w.disk, t)
    ensures
      var s := Settle(c, Repair, now, active, w, t);
      if s.error.Some? then s.error == Some(OutOfSegmentIds) else
        && Quiet(s.work.disk)
        && OnDisk(c, s.work.disk) == OnDisk(c, w.disk) + FramesIn(c, SavedBytes(c, w.disk, now, active, t))
        && OthersStay(w.disk, s.work.disk, t.segment)
  {
    hide Quiet, WriteDurably, TruncateSync, SalvageSteps, Scan, FramesIn, OnDiskExcept, StrandedAfter, RunBytes, DropSegmentKeys;
    NoFrames(c);
    if !(t.kind.TrailingTear? && t.segment != active) {
      var file := w.disk.dir[Segment(t.segment)];
      EmptyRun(file);
      var damaged := t.kind.CrcTear? || t.kind.ParseTear?;
      BackupFirst(w.disk, t, file);
      var d0 := if damaged then WriteDurably(w.disk, RepairBackup(t.segment), file) else w.disk;
      SameSegmentsFrames(c, w.disk, d0);
      var stranded := StrandedAfter(c, file, t.offset, now, MinSeq(t));
      SalvageTear(c, d0, t, w.maxNormal, RunBytes(file, stranded));
      CutTorn(c, d0, t);
    }
  }

  lemma {:induction false} EmptyRun(file: bytes)
    ensures RunBytes(file, []) == []
  {
  }

  ghost function AllSaved(c: Codec, d: Disk, now: int, active: nat, tears: seq<Tear>): set<Record>
    requires forall t :: t in tears ==> Segment(t.segment) in d.dir
  {
    if tears == [] then {} else FramesIn(c, SavedBytes(c, d, now, active, tears[0])) + AllSaved(c, d, now, active, tears[1..])
  }

  ghost predicate DistinctSegments(tears: seq<Tear>)
  {
    forall i, j :: 0 <= i < j < |tears| ==> tears[i].segment != tears[j].segment
  }

  lemma {:induction false} SavedStays(c: Codec, d: Disk, d': Disk, segment: nat, now: int, active: nat, tears: seq<Tear>)
    requires forall t :: t in tears ==> FreshTear(c, d, t) && t.segment != segment
    requires OthersStay(d, d', segment)
    ensures forall t :: t in tears ==> FreshTear(c, d', t) && Segment(t.segment) in d.dir && Segment(t.segment) in d'.dir
    ensures AllSaved(c, d', now, active, tears) == AllSaved(c, d, now, active, tears)
    decreases |tears|
  {
    forall t | t in tears
      ensures FreshTear(c, d', t) && Segment(t.segment) in d'.dir && Segment(t.segment) in d.dir
      ensures SavedBytes(c, d', now, active, t) == SavedBytes(c, d, now, active, t)
    {
    }
    if tears != [] {
      SavedStays(c, d, d', segment, now, active, tears[1..]);
    }
  }

  /** Settling all tears adds exactly what is saved from behind each of them. */
  lemma {:induction false} RepairAll(c: Codec, now: int, active: nat, w: Work, tears: seq<Tear>)
    requires Quiet(w.disk) && DistinctSegments(tears) && forall t :: t in tears ==> FreshTear(c, w.disk, t)
    ensures forall t :: t in tears ==> Segment(t.segment) in w.disk.dir
    ensures
      var s := SettleAll(c, Repair, now, active, w, tears);
      if s.error.Some? then s.error == Some(OutOfSegmentIds) else
        && Quiet(s.work.disk)
        && OnDisk(c, s.work.disk) == OnDisk(c, w.disk) + AllSaved(c, w.disk, now, active, tears)
    decreases |tears|
  {
    forall t | t in tears
      ensures Segment(t.segment) in w.disk.dir
    {
    }
    if tears != [] {
      RepairOne(c, now, active, w, tears[0]);
      var s := Settle(c, Repair, now, active, w, tears[0]);
      if s.error.None? {
        SavedStays(c, w.disk, s.work.disk, tears[0].segment, now, active, tears[1..]);
        RepairAll(c, now, active, s.work, tears[1..]);
      }
    }
  }

  // ---------- The replay after a repair ----------

  /** The tears of a replay pass: one per torn segment, each where replay of the segment stops. */
  lemma {:induction false} PassFindsTears(c: Codec, d: Disk, ids: seq<nat>)
    requires forall i :: 0 <= i < |ids| ==> Segment(ids[i]) in d.dir
    requires forall i, j :: 0 <= i < j < |ids| ==> ids[i] < ids[j]
    ensures
      var tears := PassAll(c, d, ids).tears;
      && DistinctSegments(tears)
      && forall t :: t in tears ==> t.segment in ids && TearsAt(c, d, t.segment, t.offset) && t.offset < |d.dir[Segment(t.segment)]|
  {
    hide Scan, MergeFrom, Places, PrefixMax;
    if ids != [] {
      var init, id := ids[..|ids| - 1], ids[|ids| - 1];
      PassFindsTears(c, d, init);
      assert ids == init + [id];
      assert forall i: nat :: i in init ==> i < id;
    }
  }

  ghost predicate NoMarkers(d: Disk)
  {
    forall j: nat, o: nat :: SalvageMarker(j, o) !in d.dir
  }

  /** The empty active file adds no frames. */
  lemma {:induction false} ActiveAddsNone(c: Codec, d: Disk, active: nat)
    ensures OnDisk(c, OpenActive(d, active)) == OnDisk(c, d)
  {
    hide FramesIn, OnDiskExcept;
    EmptyFile(c);
    if Segment(active) !in d.dir {
      assert WithSegment(d, OpenActive(d, active), active, []);
      ReplacedOnDisk(c, d, OpenActive(d, active), active, []);
    }
  }

  /**
   * Opening in Repair mode and then replaying what it left: the index is the newest-frame-wins view of all
   * frames before each tear together with the first run of valid frames behind each. It can only be refused
   * for want of segment ids.
   */
  lemma {:induction false} RepairThenReopen(c: Codec, now: int, d: Disk, ids: seq<nat>, ids': seq<nat>)
    requires Quiet(d) && NoMarkers(d) && Listing(d, ids)
    ensures forall t :: t in PassAll(c, d, ids).tears ==> Segment(t.segment) in d.dir
    ensures
      var pass := PassAll(c, d, ids);
      var frames := OnDisk(c, d) + AllSaved(c, d, now, ChooseActive(pass.summaries), pass.tears);
      match Open(c, Repair, now, d, ids)
      case Refused(_, error) => error.OutOfSegmentIds?
      case Running(db) =>
        && OnDisk(c, db.disk) == frames
        && (Listing(db.disk, ids') && Consistent(frames) && ShortKeys(c, frames) ==>
              var idx := PassAll(c, db.disk, ids').merge.idx;
              Represents(idx, LiveView(frames)) && Reads(c, db.disk, idx, LiveView(frames)))
  {
    hide Quiet, PassAll, SettleAll, ChooseActive, FramesIn, OnDiskExcept, SavedBytes, TearsAt, Represents, Accounted, Reads, LiveView, OpenActive, AllSaved, FreshSeq;
    var pass := PassAll(c, d, ids);
    var active := ChooseActive(pass.summaries);
    PassFindsTears(c, d, ids);
    forall t | t in pass.tears
      ensures FreshTear(c, d, t)
    {
    }
    var w := Work(d, pass.merge.idx, MaxNormalId(ids), MaxId(ids));
    RepairAll(c, now, active, w, pass.tears);
    var o := Open(c, Repair, now, d, ids);
    if o.Running? {
      ActiveAddsNone(c, SettleAll(c, Repair, now, active, w, pass.tears).work.disk, active);
      if Listing(o.db.disk, ids') && Consistent(OnDisk(c, o.db.disk)) && ShortKeys(c, OnDisk(c, o.db.disk)) {
        PassIndexesDisk(c, o.db.disk, ids');
      }
    }
  }

  // ---------- What the salvaged bytes replay to ----------

  /** Does replay decode the stranded frame? Validation checks everything but the value. */
  ghost predicate Decodes(c: Codec, file: bytes, f: Stranded)
  {
    f.offset + HEADER_LEN <= |file| && FrameAt(c, file, f.offset).Good?
  }

  ghost function FramesFrom(c: Codec, file: bytes, off: nat): set<Record>
    requires off <= |file|
  {
    set l | l in Scan(c, file, off).frames :: l.rec
  }

  /** The records of the stranded frames that decode. */
  ghost function Decoded(c: Codec, file: bytes, fs: seq<Stranded>): set<Record>
  {
    set f | f in fs && Decodes(c, file, f) :: FrameAt(c, file, f.offset).rec
  }

  lemma {:induction false} RunSlice(c: Codec, file: bytes, pos: nat, now: int, minSeq: Option<nat>, last: nat)
    ensures
      var fs := Run(c, file, pos, now, minSeq, last);
      pos <= RunEnd(pos, fs) && (fs != [] ==> RunEnd(pos, fs) <= |file| && RunBytes(file, fs) == file[pos..RunEnd(pos, fs)])
    decreases |file| - pos
  {
    hide ValidFrame, RunBytes;
    var fs := Run(c, file, pos, now, minSeq, last);
    if fs != [] {
      var f := fs[0];
      RunSlice(c, file, pos + f.len, now, minSeq, f.seqId);
      RunBytesCons(file, f, fs[1..]);
      assert fs == [f] + fs[1..];
      if fs[1..] == [] {
        EmptyRun(file);
        assert file[pos..pos + f.len] + [] == file[pos..pos + f.len];
      } else {
        var end := RunEnd(pos, fs);
        assert file[pos..pos + f.len] + file[pos + f.len..end] == file[pos..end];
      }
    }
  }

  ghost function Piece(file: bytes, f: Stranded): bytes
  {
    if f.offset + f.len <= |file| then file[f.offset..f.offset + f.len] else []
  }

  lemma {:induction false} RunBytesCons(file: bytes, f: Stranded, fs: seq<Stranded>)
    ensures RunBytes(file, [f] + fs) == Piece(file, f) + RunBytes(file, fs)
    decreases |fs|
  {
    EmptyRun(file);
    if fs == [] {
      assert [f] + fs == [] + [f];
      assert [] + Piece(file, f) == Piece(file, f) + [];
    } else {
      var init, g := fs[..|fs| - 1], fs[|fs| - 1];
      assert fs == init + [g];
      RunBytesCons(file, f, init);
      assert [f] + fs == ([f] + init) + [g];
      assert (Piece(file, f) + RunBytes(file, init)) + Piece(file, g) == Piece(file, f) + (RunBytes(file, init) + Piece(file, g));
    }
  }

  /** A valid frame, seen through a window that holds it whole. */
  lemma {:induction false} ValidInWindow(c: Codec, file: bytes, a: nat, b: nat, pos: nat, now: int)
    requires a <= pos <= b <= |file| && ValidFrame(c, file, pos, now).Some? && pos + ValidFrame(c, file, pos, now).value.len <= b
    ensures
      var f := ValidFrame(c, file, pos, now).value;
      var w := file[a..b];
      && pos - a + HEADER_LEN <= |w| && pos + HEADER_LEN <= |file|
      && FrameAt(c, w, pos - a) == FrameAt(c, file, pos)
      && (FrameAt(c, file, pos).Good? ==> FrameAt(c, file, pos).len == f.len)
      && (FrameAt(c, file, pos).Bad? ==> FrameAt(c, file, pos).kind.ParseTear?)
  {
    hide DecodePayload, FromBE;
    var f := ValidFrame(c, file, pos, now).value;
    var w, k := file[a..b], pos - a;
    SubSlice(file, a, b, k, k + HEADER_LEN);
    var h := DecodeHeader(file[pos..pos + HEADER_LEN]);
    assert f.len == HEADER_LEN + h.payloadLen;
    SubSlice(file, a, b, k + HEADER_LEN, k + HEADER_LEN + h.payloadLen);
  }

  /** Replay of a run finds its frames, up to the first whose value does not decode. */
  lemma {:induction false} RunReplays(c: Codec, file: bytes, a: nat, pos: nat, now: int, minSeq: Option<nat>, last: nat)
    requires a <= pos
    requires RunEnd(pos, Run(c, file, pos, now, minSeq, last)) <= |file|
    ensures pos <= RunEnd(pos, Run(c, file, pos, now, minSeq, last))
    ensures
      var fs := Run(c, file, pos, now, minSeq, last);
      var w := file[a..RunEnd(pos, fs)];
      && pos - a <= |w|
      && (Scan(c, w, pos - a).tear.None? <==> forall f :: f in fs ==> Decodes(c, file, f))
      && (Scan(c, w, pos - a).tear.None? ==> FramesFrom(c, w, pos - a) == Decoded(c, file, fs))
    decreases |file| - pos
  {
    hide ValidFrame, FrameAt, Scan, RunBytes, Run, RunEnd;
    var fs := Run(c, file, pos, now, minSeq, last);
    RunSlice(c, file, pos, now, minSeq, last);
    var end := RunEnd(pos, fs);
    if fs == [] {
      NoRun(pos);
      EmptyReplay(c, file, file[a..end]);
    } else {
      RunTail(c, file, pos, now, minSeq, last);
      RunSlice(c, file, pos + fs[0].len, now, minSeq, fs[0].seqId);
      RunReplays(c, file, a, pos + fs[0].len, now, minSeq, fs[0].seqId);
      assert
        var w := file[a..end];
        && (Scan(c, w, pos - a).tear.None? <==> forall f :: f in fs ==> Decodes(c, file, f))
        && (Scan(c, w, pos - a).tear.None? ==> FramesFrom(c, w, pos - a) == Decoded(c, file, fs)) by {
        var w := file[a..end];
        ValidInWindow(c, file, a, end, pos, now);
        if FrameAt(c, file, pos).Good? {
          ScanGood(c, w, pos - a);
          assert fs == [fs[0]] + fs[1..];
          assert forall f :: f in fs <==> f == fs[0] || f in fs[1..];
          var head, rest := Located((pos - a), FrameAt(c, w, (pos - a)).rec), Scan(c, w, (pos - a) + FrameAt(c, w, (pos - a)).len).frames;
          assert forall l :: l in Scan(c, w, (pos - a)).frames <==> l == head || l in rest;
          assert FramesFrom(c, w, (pos - a)) == {head.rec} + FramesFrom(c, w, (pos - a) + FrameAt(c, w, (pos - a)).len);
          assert Decoded(c, file, fs) == {head.rec} + Decoded(c, file, fs[1..]);
        } else {
          ParseStops(c, w, pos - a);
          assert !Decodes(c, file, fs[0]);
        }
      }
    }
  }

  lemma {:induction false} NoRun(pos: nat)
    ensures RunEnd(pos, []) == pos
  {
  }

  lemma {:induction false} RunTail(c: Codec, file: bytes, pos: nat, now: int, minSeq: Option<nat>, last: nat)
    requires Run(c, file, pos, now, minSeq, last) != []
    ensures
      var fs := Run(c, file, pos, now, minSeq, last);
      && ValidFrame(c, file, pos, now) == Some(fs[0])
      && fs[1..] == Run(c, file, pos + fs[0].len, now, minSeq, fs[0].seqId)
      && RunEnd(pos, fs) == RunEnd(pos + fs[0].len, fs[1..])
  {
    hide ValidFrame;
  }

  lemma {:induction false} EmptyReplay(c: Codec, file: bytes, w: bytes)
    ensures Scan(c, w, |w|).tear.None? && FramesFrom(c, w, |w|) == {} && Decoded(c, file, []) == {}
  {
    ScanEnd(c, w);
  }

  lemma {:induction false} ParseStops(c: Codec, file: bytes, off: nat)
    requires off + HEADER_LEN <= |file| && FrameAt(c, file, off).Bad?
    ensures Scan(c, file, off).tear.Some?
  {
    hide FrameAt;
  }

  /** The salvaged segment replays to exactly the stranded frames, if and only if all their values decode. */
  lemma {:induction false} SalvagedFramesExact(c: Codec, file: bytes, tear: nat, now: int, minSeq: Option<nat>)
    ensures
      var fs := StrandedAfter(c, file, tear, now, minSeq);
      && (Clean(c, RunBytes(file, fs)) <==> forall f :: f in fs ==> Decodes(c, file, f))
      && (Clean(c, RunBytes(file, fs)) ==> FramesIn(c, RunBytes(file, fs)) == Decoded(c, file, fs))
  {
    hide Run, FrameAt, Scan, RunBytes;
    var fs := StrandedAfter(c, file, tear, now, minSeq);
    if fs == [] {
      EmptyRun(file);
      EmptyFile(c);
      assert Decoded(c, file, []) == {};
    } else {
      var pos := FirstCredible(c, file, tear + 1, now, minSeq).value;
      RunSlice(c, file, pos, now, minSeq, LastSeq(minSeq));
      RunReplays(c, file, pos, pos, now, minSeq, LastSeq(minSeq));
      assert FramesIn(c, RunBytes(file, fs)) == FramesFrom(c, RunBytes(file, fs), 0);
    }
  }
}
