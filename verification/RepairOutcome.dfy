/**
 * What repair makes of a directory, tear by tear: each file cut at its tear or left, and one new segment for each
 * run of stranded frames, at the next free id.
 */
module RepairOutcome {
  import opened Wrappers
  import opened Bytes
  import opened Types
  import opened Frames
  import opened Index
  import opened LogMerge
  import opened Disk
  import opened FlushIndex
  import opened Flusher
  import opened Resync
  import opened Recovery
  import opened ShelfReplay
  import opened OpenAfterCrash
  import opened DiskView
  import opened FrameSets
  import opened Repair

  // ---------- One file ----------

  ghost predicate Torn(c: Codec, file: bytes)
  {
    Scan(c, file, 0).tear.Some?
  }

  /** The tear replay reports. */
  ghost function TearIn(c: Codec, id: nat, file: bytes): Tear
    requires Torn(c, file)
  {
    var r := Scan(c, file, 0);
    Tear(id, r.stop, PrefixMax(r.frames), r.tear.value)
  }

  /** The frames stranded behind the tear. */
  ghost function StrandedIn(c: Codec, now: int, id: nat, file: bytes): seq<Stranded>
  {
    if Torn(c, file) then StrandedAfter(c, file, TearIn(c, id, file).offset, now, MinSeq(TearIn(c, id, file))) else []
  }

  /** What is saved of a file: nothing, or one run of frames. */
  ghost function SavedFrom(c: Codec, now: int, id: nat, file: bytes): seq<bytes>
  {
    if StrandedIn(c, now, id, file) == [] then [] else [RunBytes(file, StrandedIn(c, now, id, file))]
  }

  /** The file repair leaves: cut at its tear if frames behind it were saved, or if it is the active segment. */
  ghost function Mended(c: Codec, now: int, active: nat, id: nat, file: bytes): bytes
  {
    if Torn(c, file) && (StrandedIn(c, now, id, file) != [] || id == active) then file[..Scan(c, file, 0).stop] else file
  }

  lemma {:induction false} CleanToEnd(c: Codec, file: bytes, off: nat)
    requires off <= |file| && Scan(c, file, off).tear.None?
    ensures Scan(c, file, off).stop == |file|
    decreases |file| - off
  {
    hide FrameAt, Scan;
    if off < |file| {
      ScanGood(c, file, off);
      CleanToEnd(c, file, off + FrameAt(c, file, off).len);
    }
  }

  lemma {:induction false} TornInside(c: Codec, file: bytes, off: nat)
    requires off <= |file| && Scan(c, file, off).tear.Some?
    ensures Scan(c, file, off).stop < |file|
    decreases |file| - off
  {
    hide FrameAt;
    if off + HEADER_LEN <= |file| && FrameAt(c, file, off).Good? {
      TornInside(c, file, off + FrameAt(c, file, off).len);
    }
  }

  /** A mended file stays as it is, has lost nothing replay finds, and has nothing left to save. */
  lemma {:induction false} MendedOnce(c: Codec, now: int, active: nat, now': int, active': nat, id: nat, file: bytes)
    ensures
      var f := Mended(c, now, active, id, file);
      && FramesIn(c, f) == FramesIn(c, file)
      && (f != file ==> !Torn(c, f) && Mended(c, now', active', id, f) == f && SavedFrom(c, now', id, f) == [])
      && (f == file ==> SavedFrom(c, now, id, f) == [])
      && Mended(c, now, active, id, f) == f
  {
    hide StrandedAfter, RunBytes;
    assert
      var cut := file[..Scan(c, file, 0).stop];
      !Torn(c, cut) && FramesIn(c, cut) == FramesIn(c, file) && Scan(c, cut, 0).stop == Scan(c, file, 0).stop == |cut| by {
      CutAtTear(c, file, 0);
      CleanToEnd(c, file[..Scan(c, file, 0).stop], 0);
    }
    if Torn(c, file) {
      TornInside(c, file, 0);
    }
  }

  lemma {:induction false} CleanStays(c: Codec, now: int, active: nat, id: nat, file: bytes)
    requires !Torn(c, file)
    ensures Mended(c, now, active, id, file) == file && SavedFrom(c, now, id, file) == []
  {
  }

  lemma {:induction false} TrailingShort(c: Codec, file: bytes, off: nat)
    requires off <= |file| && Scan(c, file, off).tear == Some(TrailingTear)
    ensures Scan(c, file, off).stop + HEADER_LEN > |file|
    decreases |file| - off
  {
    hide FrameAt;
    if off + HEADER_LEN <= |file| {
      if FrameAt(c, file, off).Good? {
        TrailingShort(c, file, off + FrameAt(c, file, off).len);
      } else {
        NotTrailing(c, file, off);
      }
    }
  }

  lemma {:induction false} NotTrailing(c: Codec, file: bytes, off: nat)
    requires off + HEADER_LEN <= |file| && FrameAt(c, file, off).Bad?
    ensures !FrameAt(c, file, off).kind.TrailingTear?
  {
    hide DecodePayload;
  }

  // ---------- New segments ----------

  function AddFile(d: Disk, id: nat, file: bytes): Disk
  {
    d.(dir := d.dir[Segment(id) := file])
  }

  /** The directory with the saved runs in new segments, and the largest normal id then; none if ids run out. */
  ghost function AddAll(d: Disk, maxNormal: nat, saves: seq<bytes>): Option<(Disk, nat)>
    decreases |saves|
  {
    if saves == [] then Some((d, maxNormal)) else
    var target := NextFree(SegmentIds(d), maxNormal + 1);
    if target >= COMPACTION_ID_BASE then None else AddAll(AddFile(d, target, saves[0]), Max(maxNormal, target), saves[1..])
  }

  lemma {:induction false} AddTwice(d: Disk, m: nat, a: seq<bytes>, b: seq<bytes>)
    ensures AddAll(d, m, a + b) ==
      if AddAll(d, m, a).None? then None else AddAll(AddAll(d, m, a).value.0, AddAll(d, m, a).value.1, b)
    decreases |a|
  {
    if a == [] {
      assert a + b == b;
    } else {
      assert (a + b)[1..] == a[1..] + b;
      var target := NextFree(SegmentIds(d), m + 1);
      if target < COMPACTION_ID_BASE {
        AddTwice(AddFile(d, target, a[0]), Max(m, target), a[1..], b);
      }
    }
  }

  // ---------- Comparing directories ----------

  ghost predicate SameNames(d: Disk, d': Disk)
  {
    forall id: nat :: Segment(id) in d.dir <==> Segment(id) in d'.dir
  }

  /** Some files of `e` are mended in `f`. */
  ghost predicate PartlyMended(c: Codec, now: int, active: nat, e: Disk, f: Disk)
  {
    && SameNames(e, f)
    && forall id: nat :: Segment(id) in e.dir ==>
         f.dir[Segment(id)] == e.dir[Segment(id)] || f.dir[Segment(id)] == Mended(c, now, active, id, e.dir[Segment(id)])
  }

  /** All files of `e` are mended in `f`. */
  ghost predicate AllMended(c: Codec, now: int, active: nat, e: Disk, f: Disk)
  {
    SameNames(e, f) && forall id: nat :: Segment(id) in e.dir ==> f.dir[Segment(id)] == Mended(c, now, active, id, e.dir[Segment(id)])
  }

  lemma {:induction false} SameNamesIds(d: Disk, d': Disk)
    requires SameNames(d, d')
    ensures SegmentIds(d) == SegmentIds(d')
  {
    hide SegmentIds;
    forall id: nat
      ensures id in SegmentIds(d) <==> id in SegmentIds(d')
    {
      SegmentIdsIff(d, id);
      SegmentIdsIff(d', id);
    }
  }

  /** Mending files does not change where new segments go. */
  lemma {:induction false} AddMended(c: Codec, now: int, active: nat, e: Disk, f: Disk, m: nat, saves: seq<bytes>)
    requires PartlyMended(c, now, active, e, f)
    ensures
      var a, b := AddAll(e, m, saves), AddAll(f, m, saves);
      (a.None? <==> b.None?) && (a.Some? ==> a.value.1 == b.value.1 && PartlyMended(c, now, active, a.value.0, b.value.0))
    decreases |saves|
  {
    hide Mended, NextFree;
    if saves != [] {
      SameNamesIds(e, f);
      var target := NextFree(SegmentIds(e), m + 1);
      if target < COMPACTION_ID_BASE {
        AddMended(c, now, active, AddFile(e, target, saves[0]), AddFile(f, target, saves[0]), Max(m, target), saves[1..]);
      }
    }
  }

  // ---------- Settling the tears ----------

  /** `t` is the tear of its segment. */
  ghost predicate IsTear(c: Codec, d: Disk, t: Tear)
  {
    Segment(t.segment) in d.dir && Torn(c, d.dir[Segment(t.segment)]) && t == TearIn(c, t.segment, d.dir[Segment(t.segment)])
  }

  /** The tears to settle are all that is left to mend. */
  ghost predicate Due(c: Codec, now: int, active: nat, d: Disk, ts: seq<Tear>)
  {
    && DistinctSegments(ts)
    && (forall t :: t in ts ==> IsTear(c, d, t))
    && (forall id: nat :: Segment(id) in d.dir && Mended(c, now, active, id, d.dir[Segment(id)]) != d.dir[Segment(id)] ==>
          exists t :: t in ts && t.segment == id)
  }

  ghost predicate Unmarked(d: Disk, ts: seq<Tear>)
  {
    forall t :: t in ts ==> SalvageMarker(t.segment, t.offset) !in d.dir
  }

  /** What is saved from behind the tears, in order. */
  ghost function Saves(c: Codec, now: int, d: Disk, ts: seq<Tear>): seq<bytes>
    requires forall t :: t in ts ==> Segment(t.segment) in d.dir
    decreases |ts|
  {
    if ts == [] then [] else
    SavedFrom(c, now, ts[0].segment, d.dir[Segment(ts[0].segment)]) + Saves(c, now, d, ts[1..])
  }

  /** All saved runs can be replayed. */
  ghost predicate AllClean(c: Codec, saves: seq<bytes>)
  {
    forall s :: s in saves ==> !Torn(c, s)
  }

  /** Settling one tear: the run behind it in a new segment, the file mended. */
  ghost predicate SettledAs(c: Codec, now: int, active: nat, w: Work, t: Tear, s: Settled)
    requires Segment(t.segment) in w.disk.dir
  {
    var file := w.disk.dir[Segment(t.segment)];
    var added := AddAll(w.disk, w.maxNormal, SavedFrom(c, now, t.segment, file));
    if added.None? then s.error == Some(OutOfSegmentIds) else
      && s.error.None? && s.work.maxNormal == added.value.1 && Quiet(s.work.disk)
      && SameSegments(AddFile(added.value.0, t.segment, Mended(c, now, active, t.segment, file)), s.work.disk)
      && OthersStay(w.disk, s.work.disk, t.segment)
  }

  lemma {:induction false} OneAdded(d: Disk, m: nat, content: bytes)
    ensures
      var target := NextFree(SegmentIds(d), m + 1);
      AddAll(d, m, [content]) ==
        if target >= COMPACTION_ID_BASE then None else Some((AddFile(d, target, content), Max(m, target)))
  {
    hide NextFree;
  }

  lemma {:induction false} TearSaves(c: Codec, now: int, active: nat, d: Disk, t: Tear)
    requires IsTear(c, d, t)
    ensures
      var file := d.dir[Segment(t.segment)];
      var stranded := StrandedAfter(c, file, t.offset, now, MinSeq(t));
      && t.offset < |file|
      && (t.kind.TrailingTear? ==> stranded == [])
      && SavedFrom(c, now, t.segment, file) == (if stranded == [] then [] else [RunBytes(file, stranded)])
      && Mended(c, now, active, t.segment, file) == if stranded != [] || t.segment == active then file[..t.offset] else file
  {
    hide Scan;
    var file := d.dir[Segment(t.segment)];
    TornInside(c, file, 0);
    if t.kind.TrailingTear? {
      // Less than a header is left behind a trailing tear.
      assert StrandedIn(c, now, t.segment, file) == [] by {
        TrailingShort(c, file, 0);
      }
    }
  }

  /** The tail of a torn segment is backed up and cut. */
  lemma {:induction false} CutAs(d: Disk, d0: Disk, t: Tear, file: bytes)
    requires Quiet(d0) && SameSegments(d, d0) && OthersStay(d, d0, t.segment)
    requires Segment(t.segment) in d.dir && d.dir[Segment(t.segment)] == file && t.offset < |file|
    ensures Segment(t.segment) in WriteDurably(d0, TornBackup(t.segment, t.offset), file[t.offset..]).dir
    ensures
      var d' := TruncateSync(WriteDurably(d0, TornBackup(t.segment, t.offset), file[t.offset..]), Segment(t.segment), t.offset);
      Quiet(d') && SameSegments(AddFile(d, t.segment, file[..t.offset]), d') && OthersStay(d, d', t.segment)
  {
    hide Quiet, WriteDurably, TruncateSync;
    DurableFile(d0, TornBackup(t.segment, t.offset), file[t.offset..]);
    CutFile(WriteDurably(d0, TornBackup(t.segment, t.offset), file[t.offset..]), t.segment, t.offset);
  }

  /** A salvage puts the frames in the target and cuts the source. */
  lemma {:induction false} SalvagedAs(d: Disk, segment: nat, offset: nat, m: nat, frames: bytes)
    requires Quiet(d) && Segment(segment) in d.dir && offset <= |d.dir[Segment(segment)]|
    requires TargetFree(d, segment, offset, m, frames)
    ensures
      var s, target := SalvageSteps(d, segment, offset, m, frames), SalvageTarget(d, SalvageMarker(segment, offset), m);
      && s.target == target && Quiet(s.unmarked)
      && SameSegments(AddFile(AddFile(d, target, frames), segment, d.dir[Segment(segment)][..offset]), s.unmarked)
      && (forall j: nat, o: nat :: j != segment && SalvageMarker(j, o) in s.unmarked.dir ==> SalvageMarker(j, o) in d.dir)
      && (forall j: nat :: j != segment && j != target && Segment(j) in d.dir ==>
            Segment(j) in s.unmarked.dir && s.unmarked.dir[Segment(j)] == d.dir[Segment(j)])
  {
    hide SalvageSteps, SalvageTarget, Quiet;
    SalvageDirs(d, segment, offset, m, frames);
    TargetIs(d, segment, offset, m, frames);
  }

  lemma {:induction false} SameFileIn(d: Disk, d0: Disk, segment: nat)
    requires SameSegments(d, d0) && Segment(segment) in d.dir
    ensures SameNames(d, d0) && Segment(segment) in d0.dir && d0.dir[Segment(segment)] == d.dir[Segment(segment)]
  {
  }

  lemma {:induction false} SameAdds(d: Disk, d0: Disk, target: nat, frames: bytes, segment: nat, cut: bytes, d': Disk)
    requires SameSegments(d, d0) && SameSegments(AddFile(AddFile(d0, target, frames), segment, cut), d')
    ensures SameSegments(AddFile(AddFile(d, target, frames), segment, cut), d')
  {
  }

  lemma {:induction false} UnmarkedTarget(d: Disk, marker: Path, m: nat)
    requires marker !in d.dir
    ensures SalvageTarget(d, marker, m) == NextFree(SegmentIds(d), m + 1)
  {
  }

  /** The disk with the copy of a damaged segment, made before anything else. */
  ghost function BackedUp(d: Disk, t: Tear, file: bytes): Disk
  {
    if t.kind.CrcTear? || t.kind.ParseTear? then WriteDurably(d, RepairBackup(t.segment), file) else d
  }

  lemma {:induction false} BackedUpSame(d: Disk, t: Tear, file: bytes)
    requires Quiet(d)
    ensures
      var d0 := BackedUp(d, t, file);
      && Quiet(d0) && SameSegments(d, d0) && OthersStay(d, d0, t.segment)
      && (forall o: nat :: SalvageMarker(t.segment, o) in d0.dir <==> SalvageMarker(t.segment, o) in d.dir)
      && (forall o: nat :: SalvageMarker(t.segment, o) in d.dir ==> d0.dir[SalvageMarker(t.segment, o)] == d.dir[SalvageMarker(t.segment, o)])
  {
    hide Quiet, WriteDurably;
    assert
      var d0 := WriteDurably(d, RepairBackup(t.segment), file);
      && Quiet(d0) && SameSegments(d, d0) && OthersStay(d, d0, t.segment)
      && (forall p: Path :: !p.RepairBackup? ==> (p in d0.dir <==> p in d.dir) && (p in d.dir ==> d0.dir[p] == d.dir[p])) by {
      DurableFile(d, RepairBackup(t.segment), file);
    }
  }

  /** Settling a tear without stranded frames: the tail of the active segment is cut, others stay. */
  lemma {:induction false} BareSettle(c: Codec, now: int, active: nat, w: Work, t: Tear)
    requires Segment(t.segment) in w.disk.dir && t.offset < |w.disk.dir[Segment(t.segment)]|
    requires StrandedAfter(c, w.disk.dir[Segment(t.segment)], t.offset, now, MinSeq(t)) == []
    ensures
      var s, file, p := Settle(c, Repair, now, active, w, t), w.disk.dir[Segment(t.segment)], Segment(t.segment);
      var d0 := BackedUp(w.disk, t, file);
      && s.error.None? && s.work.maxNormal == w.maxNormal
      && (t.segment != active ==> s.work.disk == d0)
      && (t.segment == active ==>
            p in WriteDurably(d0, TornBackup(t.segment, t.offset), file[t.offset..]).dir
            && s.work.disk == TruncateSync(WriteDurably(d0, TornBackup(t.segment, t.offset), file[t.offset..]), p, t.offset))
  {
    hide StrandedAfter, TruncateSync, DropSegmentKeys;
  }

  /** Settling a tear with stranded frames: they are salvaged. */
  lemma {:induction false} StrandedSettle(c: Codec, now: int, active: nat, w: Work, t: Tear, frames: bytes)
    requires Segment(t.segment) in w.disk.dir && t.offset < |w.disk.dir[Segment(t.segment)]|
    requires !t.kind.TrailingTear? && StrandedAfter(c, w.disk.dir[Segment(t.segment)], t.offset, now, MinSeq(t)) != []
    requires frames == RunBytes(w.disk.dir[Segment(t.segment)], StrandedAfter(c, w.disk.dir[Segment(t.segment)], t.offset, now, MinSeq(t)))
    requires
      var d0 := BackedUp(w.disk, t, w.disk.dir[Segment(t.segment)]);
      Segment(t.segment) in d0.dir && t.offset <= |d0.dir[Segment(t.segment)]|
    ensures
      var d0 := BackedUp(w.disk, t, w.disk.dir[Segment(t.segment)]);
      var s := SalvageSteps(d0, t.segment, t.offset, w.maxNormal, frames);
      Settle(c, Repair, now, active, w, t) ==
        if s.target >= COMPACTION_ID_BASE then Settled(w.(disk := d0), Some(OutOfSegmentIds))
        else Settled(Work(s.unmarked, w.idx, Max(w.maxNormal, s.target), Max(w.maxSegment, s.target)), None)
  {
    hide StrandedAfter, WriteDurably, SalvageSteps, RunBytes;
  }

  /** One tear no attempt at which has begun. */
  lemma {:induction false} SettleFresh(c: Codec, now: int, active: nat, w: Work, t: Tear)
    requires Quiet(w.disk) && IsTear(c, w.disk, t) && SalvageMarker(t.segment, t.offset) !in w.disk.dir
    ensures SettledAs(c, now, active, w, t, Settle(c, Repair, now, active, w, t))
  {
    TearSaves(c, now, active, w.disk, t);
    assert Segment(t.segment) in w.disk.dir;
    var file := w.disk.dir[Segment(t.segment)];
    var d0 := BackedUp(w.disk, t, file);
    BackedUpSame(w.disk, t, file);
    var stranded := StrandedAfter(c, file, t.offset, now, MinSeq(t));
    if stranded != [] {
      assert Segment(t.segment) in w.disk.dir;
      SameFileIn(w.disk, d0, t.segment);
      var m, target := w.maxNormal, SalvageTarget(d0, SalvageMarker(t.segment, t.offset), w.maxNormal);
      FreshTarget(d0, t.segment, t.offset, m, RunBytes(file, stranded));
      SalvagedAs(d0, t.segment, t.offset, m, RunBytes(file, stranded));
      SameNamesIds(w.disk, d0);
      UnmarkedTarget(d0, SalvageMarker(t.segment, t.offset), m);
      OneAdded(w.disk, m, RunBytes(file, stranded));
      var d', cut := SalvageSteps(d0, t.segment, t.offset, m, RunBytes(file, stranded)).unmarked, w.disk.dir[Segment(t.segment)][..t.offset];
      SameAdds(w.disk, d0, target, RunBytes(file, stranded), t.segment, cut, d');
      StrandedSettle(c, now, active, w, t, RunBytes(file, stranded));
    } else {
      CutAs(w.disk, d0, t, file);
      BareSettle(c, now, active, w, t);
    }
  }

  // ---------- Settling all tears ----------

  /** What settling the tears comes to: the saved runs added, every file mended. */
  ghost predicate SettledAllAs(c: Codec, now: int, active: nat, d: Disk, m: nat, saves: seq<bytes>, s: Settled)
  {
    var added := AddAll(d, m, saves);
    if added.None? then s.error == Some(OutOfSegmentIds) else
      && s.error.None? && s.work.maxNormal == added.value.1 && Quiet(s.work.disk)
      && AllMended(c, now, active, added.value.0, s.work.disk)
  }

  /** `d'` is `d` with one file mended and, perhaps, clean new segments. */
  ghost predicate OneMended(c: Codec, now: int, active: nat, d: Disk, d': Disk, segment: nat)
  {
    && Segment(segment) in d.dir && Segment(segment) in d'.dir
    && d'.dir[Segment(segment)] == Mended(c, now, active, segment, d.dir[Segment(segment)])
    && (forall id: nat :: id != segment && Segment(id) in d.dir ==> Segment(id) in d'.dir && d'.dir[Segment(id)] == d.dir[Segment(id)])
    && (forall id: nat :: Segment(id) in d'.dir && Segment(id) !in d.dir ==> !Torn(c, d'.dir[Segment(id)]))
  }

  lemma {:induction false} SettledShape(c: Codec, now: int, active: nat, w: Work, t: Tear, s: Settled)
    requires Segment(t.segment) in w.disk.dir && SettledAs(c, now, active, w, t, s) && s.error.None?
    requires AllClean(c, SavedFrom(c, now, t.segment, w.disk.dir[Segment(t.segment)]))
    ensures OneMended(c, now, active, w.disk, s.work.disk, t.segment)
  {
    if SavedFrom(c, now, t.segment, w.disk.dir[Segment(t.segment)]) != [] {
      var target := NextFree(SegmentIds(w.disk), w.maxNormal + 1);
      SegmentIdsIff(w.disk, target);
      assert SavedFrom(c, now, t.segment, w.disk.dir[Segment(t.segment)]) == [SavedFrom(c, now, t.segment, w.disk.dir[Segment(t.segment)])[0]];
      OneAdded(w.disk, w.maxNormal, SavedFrom(c, now, t.segment, w.disk.dir[Segment(t.segment)])[0]);
    }
    hide AddAll, Mended, SavedFrom, Torn, Quiet, OthersStay;
  }

  lemma {:induction false} DueStays(c: Codec, now: int, active: nat, d: Disk, d': Disk, t: Tear, rest: seq<Tear>)
    requires Due(c, now, active, d, [t] + rest) && OneMended(c, now, active, d, d', t.segment)
    ensures Due(c, now, active, d', rest)
  {
    var ts := [t] + rest;
    assert forall x :: x in ts <==> x == t || x in rest;
    assert forall i :: 0 <= i < |rest| ==> rest[i] == ts[i + 1];
    assert ts[0] == t;
    hide Mended, Torn, TearIn;
    forall id: nat | Segment(id) in d'.dir && Mended(c, now, active, id, d'.dir[Segment(id)]) != d'.dir[Segment(id)]
      ensures exists x :: x in rest && x.segment == id
    {
      MendedOnce(c, now, active, now, active, t.segment, d.dir[Segment(t.segment)]);
      if Segment(id) !in d.dir {
        CleanStays(c, now, active, id, d'.dir[Segment(id)]);
      } else {
        var x :| x in ts && x.segment == id;
      }
    }
  }

  /** What the next tears need to know once one is settled. */
  lemma {:induction false} DueNext(c: Codec, now: int, active: nat, w: Work, ts: seq<Tear>, s: Settled)
    requires ts != [] && Segment(ts[0].segment) in w.disk.dir && Due(c, now, active, w.disk, ts) && Unmarked(w.disk, ts)
    requires SettledAs(c, now, active, w, ts[0], s) && s.error.None?
    requires AllClean(c, SavedFrom(c, now, ts[0].segment, w.disk.dir[Segment(ts[0].segment)]))
    ensures Due(c, now, active, s.work.disk, ts[1..]) && Unmarked(s.work.disk, ts[1..])
    ensures (forall t :: t in ts[1..] ==> Segment(t.segment) in w.disk.dir && Segment(t.segment) in s.work.disk.dir)
    ensures Saves(c, now, s.work.disk, ts[1..]) == Saves(c, now, w.disk, ts[1..])
  {
    var t, rest := ts[0], ts[1..];
    assert ts == [t] + rest;
    SettledShape(c, now, active, w, t, s);
    OtherTears(w.disk, s.work.disk, t, rest);
    DueStays(c, now, active, w.disk, s.work.disk, t, rest);
    DuePresent(c, now, active, w.disk, ts);
    hide Mended, Torn, IsTear, SettledAs, SavedFrom;
    SavesSame(c, now, w.disk, s.work.disk, rest);
  }

  lemma {:induction false} OtherTears(d: Disk, d': Disk, t: Tear, rest: seq<Tear>)
    requires DistinctSegments([t] + rest) && Unmarked(d, [t] + rest)
    requires OthersStay(d, d', t.segment)
    ensures Unmarked(d', rest) && forall x :: x in rest ==> x.segment != t.segment
  {
    var ts := [t] + rest;
    forall x | x in rest
      ensures x in ts && x.segment != t.segment
    {
      var i :| 0 <= i < |rest| && rest[i] == x;
      assert ts[i + 1] == x && ts[0] == t;
    }
  }

  lemma {:induction false} SavesSame(c: Codec, now: int, d: Disk, d': Disk, ts: seq<Tear>)
    requires forall t :: t in ts ==> Segment(t.segment) in d.dir && Segment(t.segment) in d'.dir
    requires forall t :: t in ts ==> d'.dir[Segment(t.segment)] == d.dir[Segment(t.segment)]
    ensures Saves(c, now, d', ts) == Saves(c, now, d, ts)
    decreases |ts|
  {
    hide SavedFrom;
    if ts != [] {
      SavesSame(c, now, d, d', ts[1..]);
    }
  }

  lemma {:induction false} DuePresent(c: Codec, now: int, active: nat, d: Disk, ts: seq<Tear>)
    requires Due(c, now, active, d, ts)
    ensures forall t :: t in ts ==> Segment(t.segment) in d.dir
  {
    hide Torn, TearIn, Mended;
  }

  /** All tears, none of them marked by an earlier attempt. */
  lemma {:induction false} SettleAllFresh(c: Codec, now: int, active: nat, w: Work, ts: seq<Tear>)
    requires Quiet(w.disk) && Due(c, now, active, w.disk, ts) && Unmarked(w.disk, ts)
    requires forall t :: t in ts ==> Segment(t.segment) in w.disk.dir
    requires AllClean(c, Saves(c, now, w.disk, ts))
    ensures SettledAllAs(c, now, active, w.disk, w.maxNormal, Saves(c, now, w.disk, ts), SettleAll(c, Repair, now, active, w, ts))
    decreases |ts|
  {
    hide Settle, Quiet, SavedFrom, Mended, Torn, SettledAs, IsTear, TearIn;
    if ts == [] {
      NothingDue(c, now, active, w.disk);
    } else {
      var t, rest := ts[0], ts[1..];
      assert ts == [t] + rest;
      var saved := SavedFrom(c, now, t.segment, w.disk.dir[Segment(t.segment)]);
      assert forall x :: x in saved ==> x in Saves(c, now, w.disk, ts);
      SettleFresh(c, now, active, w, t);
      var s := Settle(c, Repair, now, active, w, t);
      AddTwice(w.disk, w.maxNormal, saved, Saves(c, now, w.disk, rest));
      StepAdds(c, now, active, w, t, s);
      if s.error.None? {
        DueNext(c, now, active, w, ts, s);
        DuePresent(c, now, active, s.work.disk, rest);
        SettleAllFresh(c, now, active, s.work, rest);
        JoinSettled(c, now, active, w.disk, w.maxNormal, saved, s.work.disk, s.work.maxNormal, Saves(c, now, w.disk, rest), SettleAll(c, Repair, now, active, s.work, rest));
      }
    }
  }

  lemma {:induction false} NothingDue(c: Codec, now: int, active: nat, d: Disk)
    requires Due(c, now, active, d, [])
    ensures AllMended(c, now, active, d, d)
  {
    hide Mended;
  }

  lemma {:induction false} StepAdds(c: Codec, now: int, active: nat, w: Work, t: Tear, s: Settled)
    requires Segment(t.segment) in w.disk.dir && SettledAs(c, now, active, w, t, s)
    ensures
      var added := AddAll(w.disk, w.maxNormal, SavedFrom(c, now, t.segment, w.disk.dir[Segment(t.segment)]));
      && (added.None? ==> s.error == Some(OutOfSegmentIds))
      && (added.Some? ==>
            && s.error.None? && s.work.maxNormal == added.value.1 && Quiet(s.work.disk)
            && PartlyMended(c, now, active, added.value.0, s.work.disk))
  {
    if SavedFrom(c, now, t.segment, w.disk.dir[Segment(t.segment)]) != [] {
      var target := NextFree(SegmentIds(w.disk), w.maxNormal + 1);
      SegmentIdsIff(w.disk, target);
      assert SavedFrom(c, now, t.segment, w.disk.dir[Segment(t.segment)]) == [SavedFrom(c, now, t.segment, w.disk.dir[Segment(t.segment)])[0]];
      OneAdded(w.disk, w.maxNormal, SavedFrom(c, now, t.segment, w.disk.dir[Segment(t.segment)])[0]);
    }
  }

  /** First `saved`, then `more`; files may have been mended in between. */
  lemma {:induction false} JoinSettled(c: Codec, now: int, active: nat, d: Disk, m: nat, saved: seq<bytes>, d1: Disk, m1: nat, more: seq<bytes>, s': Settled)
    requires
      var added := AddAll(d, m, saved);
      added.Some? && added.value.1 == m1 && PartlyMended(c, now, active, added.value.0, d1)
    requires SettledAllAs(c, now, active, d1, m1, more, s')
    ensures SettledAllAs(c, now, active, d, m, saved + more, s')
  {
    hide AddAll, Mended, Quiet;
    var added := AddAll(d, m, saved).value;
    AddTwice(d, m, saved, more);
    AddMended(c, now, active, added.0, d1, added.1, more);
    if AddAll(added.0, added.1, more).Some? {
      assert AllMended(c, now, active, AddAll(added.0, added.1, more).value.0, s'.work.disk) by {
        forall id: nat | Segment(id) in AddAll(added.0, added.1, more).value.0.dir
          ensures s'.work.disk.dir[Segment(id)] == Mended(c, now, active, id, AddAll(added.0, added.1, more).value.0.dir[Segment(id)])
        {
          MendedOnce(c, now, active, now, active, id, AddAll(added.0, added.1, more).value.0.dir[Segment(id)]);
        }
      }
    }
  }
}
