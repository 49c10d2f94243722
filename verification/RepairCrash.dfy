/**
 * Power is lost at a named point of a repair: some of the tears are settled, the others are as they were, and the
 * salvage of one of them may have begun.
 */
module RepairCrash {
  import opened Wrappers
  import opened Bytes
  import opened Types
  import opened Frames
  import opened Index
  import opened LogMerge
  import opened Disk
  import opened FlushIndex
  import opened Flusher
  import opened Resync
  import opened Recovery
  import opened ShelfReplay
  import opened OpenAfterCrash
  import opened DiskView
  import opened FrameSets
  import opened Repair
  import opened RepairOutcome

  // ---------- The tears of a directory ----------

  ghost predicate ListedAscending(d: Disk, ids: seq<nat>)
  {
    (forall i :: 0 <= i < |ids| ==> Segment(ids[i]) in d.dir) && (forall i, j :: 0 <= i < j < |ids| ==> ids[i] < ids[j])
  }

  ghost predicate TearsAscend(ts: seq<Tear>)
  {
    forall i, j :: 0 <= i < j < |ts| ==> ts[i].segment < ts[j].segment
  }

  /** Replay finds the tear of each torn segment, in the order of the segments. */
  lemma {:induction false} PassLists(c: Codec, d: Disk, ids: seq<nat>)
    requires ListedAscending(d, ids)
    ensures
      var ts := PassAll(c, d, ids).tears;
      && TearsAscend(ts)
      && (forall t :: t in ts ==> t.segment in ids && IsTear(c, d, t))
      && (forall id :: id in ids && Segment(id) in d.dir && Torn(c, d.dir[Segment(id)]) ==> exists t :: t in ts && t.segment == id)
    decreases |ids|
  {
    hide PassAll, IsTear, TearIn, Torn;
    if ids == [] {
      NoTears(c, d);
    } else {
      var init, id := ids[..|ids| - 1], ids[|ids| - 1];
      PassLists(c, d, init);
      assert ids == init + [id];
      assert forall i: nat :: i in init ==> i < id;
      LastTear(c, d, init, id);
      var before := PassAll(c, d, init).tears;
      assert forall t :: t in before ==> t.segment < id;
      assert forall t :: t in before ==> t in PassAll(c, d, ids).tears;
    }
  }

  lemma {:induction false} NoTears(c: Codec, d: Disk)
    ensures PassAll(c, d, []).tears == []
  {
  }

  lemma {:induction false} LastTear(c: Codec, d: Disk, init: seq<nat>, id: nat)
    requires ListedAscending(d, init + [id]) && ListedAscending(d, init) && Segment(id) in d.dir
    ensures
      var before, ts := PassAll(c, d, init).tears, PassAll(c, d, init + [id]).tears;
      if Torn(c, d.dir[Segment(id)]) then
        var t := TearIn(c, id, d.dir[Segment(id)]);
        t.segment == id && IsTear(c, d, t) && ts == before + [t] && t in ts
      else
        ts == before
  {
    hide Scan, MergeFrom, Places, PrefixMax;
    assert (init + [id])[..|init|] == init;
  }

  // ---------- Where repair may die ----------

  /** The named points of settling one tear: before it, after each durable step, and with the salvage file's entry pending. */
  ghost function TearPoints(c: Codec, now: int, active: nat, w: Work, t: Tear): seq<Disk>
  {
    if Segment(t.segment) !in w.disk.dir || t.offset >= |w.disk.dir[Segment(t.segment)]| then [] else
    if t.kind.TrailingTear? && t.segment != active then [w.disk] else
    var file := w.disk.dir[Segment(t.segment)];
    var d0 := BackedUp(w.disk, t, file);
    var stranded := StrandedAfter(c, file, t.offset, now, MinSeq(t));
    if stranded != [] then
      [w.disk, d0]
      + if SalvageSteps(d0, t.segment, t.offset, w.maxNormal, RunBytes(file, stranded)).target >= COMPACTION_ID_BASE then []
        else NamedPoints(d0, t.segment, t.offset, w.maxNormal, RunBytes(file, stranded))
    else if t.segment != active then [w.disk, d0] else
    var d1 := WriteDurably(d0, TornBackup(t.segment, t.offset), file[t.offset..]);
    [w.disk, d0, d1, TruncateSync(d1, Segment(t.segment), t.offset)]
  }

  ghost function AllTearPoints(c: Codec, now: int, active: nat, w: Work, ts: seq<Tear>): seq<Disk>
    decreases |ts|
  {
    if ts == [] then [w.disk] else
    var s := Settle(c, Repair, now, active, w, ts[0]);
    TearPoints(c, now, active, w, ts[0]) + if s.error.Some? then [] else AllTearPoints(c, now, active, s.work, ts[1..])
  }

  /** The named points of an opening in Repair mode. */
  ghost function RepairPoints(c: Codec, now: int, d: Disk, ids: seq<nat>): seq<Disk>
    requires forall i :: 0 <= i < |ids| ==> Segment(ids[i]) in d.dir
  {
    var pass := PassAll(c, d, ids);
    AllTearPoints(c, now, ChooseActive(pass.summaries), Work(d, pass.merge.idx, MaxNormalId(ids), MaxId(ids)), pass.tears)
  }

  /** They are points of the opening. */
  lemma {:induction false} TearPointsAre(c: Codec, now: int, active: nat, w: Work, t: Tear)
    ensures forall p :: p in TearPoints(c, now, active, w, t) ==> p == w.disk || p in SettlePoints(c, Repair, now, active, w, t)
    ensures
      var d' := Settle(c, Repair, now, active, w, t).work.disk;
      d' == w.disk || d' in SettlePoints(c, Repair, now, active, w, t)
  {
    hide StrandedAfter, RunBytes, DropSegmentKeys, TruncateSync;
    if Segment(t.segment) in w.disk.dir && t.offset < |w.disk.dir[Segment(t.segment)]| {
      var file := w.disk.dir[Segment(t.segment)];
      var d0 := BackedUp(w.disk, t, file);
    }
  }

  lemma {:induction false} AllPointsAre(c: Codec, now: int, active: nat, w: Work, ts: seq<Tear>)
    ensures forall p :: p in AllTearPoints(c, now, active, w, ts) ==> p == w.disk || p in SettleAllPoints(c, Repair, now, active, w, ts)
    decreases |ts|
  {
    hide Settle, SettlePoints, TearPoints;
    if ts != [] {
      TearPointsAre(c, now, active, w, ts[0]);
      AllPointsAre(c, now, active, Settle(c, Repair, now, active, w, ts[0]).work, ts[1..]);
    }
  }

  /** The named points are points of the opening, or its start. */
  lemma {:induction false} RepairPointsAre(c: Codec, now: int, d: Disk, ids: seq<nat>)
    requires ListedAscending(d, ids)
    ensures forall p :: p in RepairPoints(c, now, d, ids) ==> p == d || p in OpenPoints(c, Repair, now, d, ids)
  {
    hide PassAll, AllTearPoints, SettleAllPoints, SettleAll, OpenActivePoints, ChooseActive, MaxId, MaxNormalId;
    var pass := PassAll(c, d, ids);
    AllPointsAre(c, now, ChooseActive(pass.summaries), Work(d, pass.merge.idx, MaxNormalId(ids), MaxId(ids)), pass.tears);
  }

  // ---------- What a power loss at a named point leaves ----------

  /** The segments of `d`, and perhaps one more. */
  ghost predicate SameOr(d: Disk, d': Disk, target: nat, content: bytes)
  {
    && Segment(target) !in d.dir
    && (forall j: nat :: j != target ==>
          (Segment(j) in d.dir <==> Segment(j) in d'.dir) && (Segment(j) in d.dir ==> d'.dir[Segment(j)] == d.dir[Segment(j)]))
    && (Segment(target) in d'.dir ==> d'.dir[Segment(target)] == content)
  }

  /** The salvage of `t` has begun: its marker names the next free id, where the frames may already be. */
  ghost predicate Begun(c: Codec, now: int, d: Disk, m: nat, t: Tear, d': Disk)
  {
    && Segment(t.segment) in d.dir
    && var saved := SavedFrom(c, now, t.segment, d.dir[Segment(t.segment)]);
       var target := NextFree(SegmentIds(d), m + 1);
       && |saved| == 1 && target < COMPACTION_ID_BASE
       && SalvageMarker(t.segment, t.offset) in d'.dir
       && d'.dir[SalvageMarker(t.segment, t.offset)] == MarkerBytes(target, |saved[0]|)
       && SameOr(d, d', target, saved[0])
  }

  /** Before the cut only these files differ from those of `d`. */
  ghost predicate OnlyAdded(d: Disk, d': Disk, segment: nat, offset: nat, target: nat, frames: bytes)
  {
    var marker := SalvageMarker(segment, offset);
    && marker in d'.dir && d'.dir[marker] == MarkerBytes(target, |frames|)
    && (Segment(target) in d'.dir ==> d'.dir[Segment(target)] == frames)
    && (forall p :: p != marker && p != Segment(target) && p != TornBackup(segment, offset) ==>
          (p in d.dir <==> p in d'.dir) && (p in d.dir ==> d'.dir[p] == d.dir[p]))
  }

  lemma {:induction false} WrittenOnlyAdds(d: Disk, segment: nat, offset: nat, frames: bytes, s: Salvage, d': Disk)
    requires Quiet(s.marked) && s.marked.dir == d.dir[SalvageMarker(segment, offset) := MarkerBytes(s.target, |frames|)]
    requires Segment(s.target) in d.dir ==> d.dir[Segment(s.target)] == frames
    requires CrashOf(Written(s, frames), d')
    ensures Quiet(d') && OnlyAdded(d, d', segment, offset, s.target, frames)
  {
    hide Quiet, CrashOf, Written;
    WrittenLeaves(s, frames, d');
  }

  lemma {:induction false} QuietOnlyAdds(d: Disk, segment: nat, offset: nat, frames: bytes, s: Salvage, p: Disk, d': Disk)
    requires s.marked.dir == d.dir[SalvageMarker(segment, offset) := MarkerBytes(s.target, |frames|)]
    requires s.salvaged.dir == s.marked.dir[Segment(s.target) := frames]
    requires Segment(s.target) in d.dir ==> d.dir[Segment(s.target)] == frames
    requires Segment(segment) in d.dir && offset <= |d.dir[Segment(segment)]|
    requires s.backedUp.dir == s.salvaged.dir[TornBackup(segment, offset) := d.dir[Segment(segment)][offset..]]
    requires (p == s.marked || p == s.salvaged || p == s.backedUp) && d'.dir == p.dir
    ensures OnlyAdded(d, d', segment, offset, s.target, frames)
  {
  }

  lemma {:induction false} SalvageCrash(d: Disk, segment: nat, offset: nat, m: nat, frames: bytes, i: nat, d': Disk)
    requires Quiet(d) && Segment(segment) in d.dir && offset <= |d.dir[Segment(segment)]|
    requires SalvageMarker(segment, offset) !in d.dir
    requires i < 6 && CrashOf(NamedPoints(d, segment, offset, m, frames)[i], d')
    ensures
      var s, target := SalvageSteps(d, segment, offset, m, frames), NextFree(SegmentIds(d), m + 1);
      && s.target == target && Quiet(d') && OthersStay(d, d', segment)
      && (i < 4 ==>
            && SalvageMarker(segment, offset) in d'.dir && d'.dir[SalvageMarker(segment, offset)] == MarkerBytes(target, |frames|)
            && SameOr(d, d', target, frames))
      && (i >= 4 ==> SameSegments(s.unmarked, d'))
  {
    hide SalvageSteps, SalvageTarget, Quiet, CrashOf, NextFree, SegmentIds;
    FreshTarget(d, segment, offset, m, frames);
    UnmarkedTarget(d, SalvageMarker(segment, offset), m);
    TargetIs(d, segment, offset, m, frames);
    if i < 4 {
      assert Quiet(d') && OnlyAdded(d, d', segment, offset, SalvageSteps(d, segment, offset, m, frames).target, frames) by {
        var s := SalvageSteps(d, segment, offset, m, frames);
        SalvageDirs(d, segment, offset, m, frames);
        TargetIs(d, segment, offset, m, frames);
        if i == 1 {
          WrittenOnlyAdds(d, segment, offset, frames, s, d');
        } else {
          var p := NamedPoints(d, segment, offset, m, frames)[i];
          QuietCrash(p, d');
          QuietOnlyAdds(d, segment, offset, frames, s, p, d');
        }
      }
      assert SameOr(d, d', NextFree(SegmentIds(d), m + 1), frames) && OthersStay(d, d', segment);
    } else {
      SalvagedAs(d, segment, offset, m, frames);
      assert
        var s := SalvageSteps(d, segment, offset, m, frames);
        && Quiet(d') && SameSegments(s.unmarked, d')
        && (forall j: nat, o: nat :: j != segment && SalvageMarker(j, o) in d'.dir ==> SalvageMarker(j, o) in d.dir) by {
        SalvageDirs(d, segment, offset, m, frames);
        QuietCrash(NamedPoints(d, segment, offset, m, frames)[i], d');
      }
    }
  }

  ghost predicate NoMarkerOf(d: Disk, segment: nat)
  {
    forall o: nat :: SalvageMarker(segment, o) !in d.dir
  }

  /** The tear as it was, or its salvage begun, or the tear settled. */
  ghost predicate HeadLeft(c: Codec, now: int, active: nat, w: Work, t: Tear, d': Disk)
  {
    && Quiet(d') && OthersStay(w.disk, d', t.segment)
    && (|| (SameSegments(w.disk, d') && NoMarkerOf(d', t.segment))
        || Begun(c, now, w.disk, w.maxNormal, t, d')
        || (var s := Settle(c, Repair, now, active, w, t);
            && s.error.None? && SameSegments(s.work.disk, d')
            && (Segment(t.segment) in w.disk.dir && SavedFrom(c, now, t.segment, w.disk.dir[Segment(t.segment)]) == [] ==> NoMarkerOf(d', t.segment))))
  }

  lemma {:induction false} QuietLeft(d: Disk, d0: Disk, d': Disk, segment: nat)
    requires Quiet(d0) && CrashOf(d0, d')
    ensures Quiet(d') && SameSegments(d0, d')
    ensures OthersStay(d, d0, segment) ==> OthersStay(d, d', segment)
    ensures SameSegments(d, d0) ==> SameSegments(d, d')
    ensures NoMarkerOf(d0, segment) ==> NoMarkerOf(d', segment)
  {
    hide Quiet, CrashOf;
    QuietCrash(d0, d');
  }

  /** Which points there are. */
  lemma {:induction false} PointCases(c: Codec, now: int, active: nat, w: Work, t: Tear, p: Disk)
    requires Segment(t.segment) in w.disk.dir && t.offset < |w.disk.dir[Segment(t.segment)]| && p in TearPoints(c, now, active, w, t)
    requires
      var d0 := BackedUp(w.disk, t, w.disk.dir[Segment(t.segment)]);
      Segment(t.segment) in d0.dir && d0.dir[Segment(t.segment)] == w.disk.dir[Segment(t.segment)]
    ensures
      var file := w.disk.dir[Segment(t.segment)];
      var d0 := BackedUp(w.disk, t, file);
      var stranded := StrandedAfter(c, file, t.offset, now, MinSeq(t));
      || p == w.disk || p == d0
      || (stranded != [] && SalvageSteps(d0, t.segment, t.offset, w.maxNormal, RunBytes(file, stranded)).target < COMPACTION_ID_BASE
          && p in NamedPoints(d0, t.segment, t.offset, w.maxNormal, RunBytes(file, stranded)))
      || (stranded == [] && t.segment == active
          && var d1 := WriteDurably(d0, TornBackup(t.segment, t.offset), file[t.offset..]);
             Segment(t.segment) in d1.dir && (p == d1 || p == TruncateSync(d1, Segment(t.segment), t.offset)))
  {
    hide TruncateSync, SalvageSteps, StrandedAfter, RunBytes, BackedUp, NamedPoints;
    var file := w.disk.dir[Segment(t.segment)];
  }

  lemma {:induction false} HeadCrash(c: Codec, now: int, active: nat, w: Work, t: Tear, p: Disk, d': Disk)
    requires Quiet(w.disk) && IsTear(c, w.disk, t) && NoMarkerOf(w.disk, t.segment)
    requires p in TearPoints(c, now, active, w, t) && CrashOf(p, d')
    ensures HeadLeft(c, now, active, w, t, d')
  {
    TearSaves(c, now, active, w.disk, t);
    assert Segment(t.segment) in w.disk.dir;
    var file := w.disk.dir[Segment(t.segment)];
    var d0 := BackedUp(w.disk, t, file);
    var stranded := StrandedAfter(c, file, t.offset, now, MinSeq(t));
    BackedUpSame(w.disk, t, file);
    SameFileIn(w.disk, d0, t.segment);
    PointCases(c, now, active, w, t, p);
    if p == w.disk || p == d0 {
      QuietLeft(w.disk, p, d', t.segment);
    } else if stranded != [] {
      SalvageHead(c, now, active, w, t, d0, RunBytes(file, stranded), p, d');
    } else {
      assert HeadLeft(c, now, active, w, t, d') by {
        var file := w.disk.dir[Segment(t.segment)];
        BackedUpSame(w.disk, t, file);
        BareSettle(c, now, active, w, t);
        SideLeft(w.disk, d0, t, file);
        CutAs(w.disk, d0, t, file);
        assert NoMarkerOf(TruncateSync(WriteDurably(d0, TornBackup(t.segment, t.offset), file[t.offset..]), Segment(t.segment), t.offset), t.segment);
        QuietLeft(w.disk, p, d', t.segment);
      }
    }
  }

  lemma {:induction false} SideLeft(d: Disk, d0: Disk, t: Tear, file: bytes)
    requires Quiet(d0) && SameSegments(d, d0) && OthersStay(d, d0, t.segment) && t.offset <= |file|
    ensures
      var d1 := WriteDurably(d0, TornBackup(t.segment, t.offset), file[t.offset..]);
      && Quiet(d1) && SameSegments(d, d1) && OthersStay(d, d1, t.segment)
      && (NoMarkerOf(d0, t.segment) ==> NoMarkerOf(d1, t.segment))
  {
    hide Quiet, WriteDurably;
    DurableFile(d0, TornBackup(t.segment, t.offset), file[t.offset..]);
  }

  lemma {:induction false} SalvageHead(c: Codec, now: int, active: nat, w: Work, t: Tear, d0: Disk, frames: bytes, p: Disk, d': Disk)
    requires Quiet(w.disk) && IsTear(c, w.disk, t) && NoMarkerOf(w.disk, t.segment)
    requires Segment(t.segment) in w.disk.dir && t.offset < |w.disk.dir[Segment(t.segment)]| && !t.kind.TrailingTear?
    requires StrandedAfter(c, w.disk.dir[Segment(t.segment)], t.offset, now, MinSeq(t)) != []
    requires frames == RunBytes(w.disk.dir[Segment(t.segment)], StrandedAfter(c, w.disk.dir[Segment(t.segment)], t.offset, now, MinSeq(t)))
    requires SavedFrom(c, now, t.segment, w.disk.dir[Segment(t.segment)]) == [frames]
    requires d0 == BackedUp(w.disk, t, w.disk.dir[Segment(t.segment)])
    requires Segment(t.segment) in d0.dir && d0.dir[Segment(t.segment)] == w.disk.dir[Segment(t.segment)]
    requires SalvageSteps(d0, t.segment, t.offset, w.maxNormal, frames).target < COMPACTION_ID_BASE
    requires p in NamedPoints(d0, t.segment, t.offset, w.maxNormal, frames) && CrashOf(p, d')
    ensures HeadLeft(c, now, active, w, t, d')
  {
    hide Quiet, SalvageSteps, StrandedAfter, RunBytes, SavedFrom, IsTear, Settle, BackedUp, CrashOf, NextFree, SegmentIds;
    var file, m := w.disk.dir[Segment(t.segment)], w.maxNormal;
    BackedUpSame(w.disk, t, file);
    SameFileIn(w.disk, d0, t.segment);
    SameNamesIds(w.disk, d0);
    var i :| 0 <= i < 6 && NamedPoints(d0, t.segment, t.offset, m, frames)[i] == p;
    hide NamedPoints;
    SalvageCrash(d0, t.segment, t.offset, m, frames, i, d');
    if i < 4 {
    } else {
      StrandedSettle(c, now, active, w, t, frames);
    }
  }

  // ---------- After a power loss at any named point ----------

  function Without(d: Disk, id: nat): Disk
  {
    d.(dir := d.dir - {Segment(id)})
  }

  /** In `b` the first `k` tears are settled, the others untouched; `e` has the runs saved so far in new segments. */
  ghost predicate Halfway(c: Codec, now: int, active: nat, e: Disk, d: Disk, ts: seq<Tear>, k: nat, b: Disk)
  {
    && PartlyMended(c, now, active, e, b)
    && forall i :: 0 <= i < |ts| ==>
         && Segment(ts[i].segment) in d.dir && Segment(ts[i].segment) in b.dir
         && b.dir[Segment(ts[i].segment)] ==
              if i < k then Mended(c, now, active, ts[i].segment, d.dir[Segment(ts[i].segment)]) else d.dir[Segment(ts[i].segment)]
  }

  /** The salvage of the next tear has begun, towards `target`. */
  ghost predicate Underway(c: Codec, now: int, d: Disk, t: Tear, target: nat, d': Disk)
  {
    && Segment(t.segment) in d.dir
    && var saved := SavedFrom(c, now, t.segment, d.dir[Segment(t.segment)]);
       && |saved| == 1 && target < COMPACTION_ID_BASE
       && SalvageMarker(t.segment, t.offset) in d'.dir
       && d'.dir[SalvageMarker(t.segment, t.offset)] == MarkerBytes(target, |saved[0]|)
       && (Segment(target) in d'.dir ==> d'.dir[Segment(target)] == saved[0])
  }

  /** `e` has the runs saved so far in new segments, up to the normal id `m`. */
  ghost predicate HaltedOn(c: Codec, now: int, active: nat, e: Disk, m: nat, d: Disk, ts: seq<Tear>, k: nat, begun: bool, d': Disk)
  {
    && k <= |ts| && (begun ==> k < |ts|)
    && var target := NextFree(SegmentIds(e), m + 1);
       && Halfway(c, now, active, e, d, ts, k, if begun then Without(d', target) else d')
       && (begun ==> Underway(c, now, d, ts[k], target, d'))
       && forall j: nat, o: nat :: SalvageMarker(j, o) in d'.dir ==> exists i :: MarkedAt(c, now, d, ts, i, j) && (i < k || (begun && i == k))
  }

  /** The salvage of tear `i` may have left its marker behind. */
  ghost predicate MarkedAt(c: Codec, now: int, d: Disk, ts: seq<Tear>, i: int, j: nat)
  {
    0 <= i < |ts| && ts[i].segment == j && Segment(j) in d.dir && SavedFrom(c, now, j, d.dir[Segment(j)]) != []
  }

  ghost predicate Halted(c: Codec, now: int, active: nat, d: Disk, m: nat, ts: seq<Tear>, k: nat, begun: bool, d': Disk)
  {
    && k <= |ts| && (forall t :: t in ts ==> Segment(t.segment) in d.dir) && Quiet(d')
    && var added := AddAll(d, m, Saves(c, now, d, ts[..k]));
       added.Some? && HaltedOn(c, now, active, added.value.0, added.value.1, d, ts, k, begun, d')
  }

  lemma {:induction false} PartlyTwice(c: Codec, now: int, active: nat, e: Disk, f: Disk, g: Disk)
    requires PartlyMended(c, now, active, e, f) && PartlyMended(c, now, active, f, g)
    ensures PartlyMended(c, now, active, e, g)
  {
    hide Mended;
    forall id: nat | Segment(id) in e.dir
      ensures g.dir[Segment(id)] == e.dir[Segment(id)] || g.dir[Segment(id)] == Mended(c, now, active, id, e.dir[Segment(id)])
    {
      MendedOnce(c, now, active, now, active, id, e.dir[Segment(id)]);
    }
  }

  lemma {:induction false} HaltedInHead(c: Codec, now: int, active: nat, d: Disk, m: nat, ts: seq<Tear>, d': Disk)
    requires ts != [] && Quiet(d') && Begun(c, now, d, m, ts[0], d')
    requires forall j: nat, o: nat :: SalvageMarker(j, o) in d'.dir ==> j == ts[0].segment
    requires forall t :: t in ts ==> Segment(t.segment) in d.dir
    ensures Halted(c, now, active, d, m, ts, 0, true, d')
  {
    hide Quiet, NextFree, SegmentIds, SavedFrom;
    assert MarkedAt(c, now, d, ts, 0, ts[0].segment);
    assert ts[..0] == [];
    var target := NextFree(SegmentIds(d), m + 1);
  }

  /** What is saved from behind a first tear comes before what is saved from behind the others. */
  lemma {:induction false} LaterAdds(c: Codec, now: int, active: nat, w: Work, t: Tear, s: Settled, part: seq<Tear>)
    requires Segment(t.segment) in w.disk.dir && SettledAs(c, now, active, w, t, s) && s.error.None?
    requires forall x :: x in part ==> Segment(x.segment) in w.disk.dir && Segment(x.segment) in s.work.disk.dir
    requires forall x :: x in part ==> s.work.disk.dir[Segment(x.segment)] == w.disk.dir[Segment(x.segment)]
    requires AddAll(s.work.disk, s.work.maxNormal, Saves(c, now, s.work.disk, part)).Some?
    ensures forall x :: x in [t] + part ==> Segment(x.segment) in w.disk.dir
    ensures
      var a, b := AddAll(w.disk, w.maxNormal, Saves(c, now, w.disk, [t] + part)), AddAll(s.work.disk, s.work.maxNormal, Saves(c, now, s.work.disk, part));
      a.Some? && a.value.1 == b.value.1 && PartlyMended(c, now, active, a.value.0, b.value.0)
  {
    StepAdds(c, now, active, w, t, s);
    hide SettledAs, Quiet, AddAll, Mended, SavedFrom, PartlyMended, IsTear, NextFree, SegmentIds;
    var saved := SavedFrom(c, now, t.segment, w.disk.dir[Segment(t.segment)]);
    var added, more := AddAll(w.disk, w.maxNormal, saved).value, Saves(c, now, s.work.disk, part);
    SavesSame(c, now, w.disk, s.work.disk, part);
    assert ([t] + part)[1..] == part;
    AddTwice(w.disk, w.maxNormal, saved, more);
    AddMended(c, now, active, added.0, s.work.disk, added.1, more);
  }

  /** What is left of the other tears once one is settled. */
  lemma {:induction false} RestKept(c: Codec, now: int, active: nat, w: Work, ts: seq<Tear>, s: Settled)
    requires ts != [] && Due(c, now, active, w.disk, ts) && Unmarked(w.disk, ts) && Segment(ts[0].segment) in w.disk.dir
    requires SettledAs(c, now, active, w, ts[0], s) && s.error.None?
    requires AllClean(c, SavedFrom(c, now, ts[0].segment, w.disk.dir[Segment(ts[0].segment)]))
    ensures OneMended(c, now, active, w.disk, s.work.disk, ts[0].segment)
    ensures forall x :: x in ts[1..] ==> x.segment != ts[0].segment && Segment(x.segment) in w.disk.dir && Segment(x.segment) in s.work.disk.dir
    ensures forall x :: x in ts[1..] ==> s.work.disk.dir[Segment(x.segment)] == w.disk.dir[Segment(x.segment)]
  {
    var t, rest := ts[0], ts[1..];
    assert ts == [t] + rest;
    SettledShape(c, now, active, w, t, s);
    DueNext(c, now, active, w, ts, s);
    OtherTears(w.disk, s.work.disk, t, rest);
    hide Due, Unmarked, SettledAs, AllClean, Mended, Torn;
  }

  lemma {:induction false} HaltedOnLater(c: Codec, now: int, active: nat, e: Disk, f: Disk, m: nat, d: Disk, d1: Disk, t: Tear, rest: seq<Tear>, k: nat, begun: bool, d': Disk)
    requires PartlyMended(c, now, active, e, f) && HaltedOn(c, now, active, f, m, d1, rest, k, begun, d')
    requires OneMended(c, now, active, d, d1, t.segment) && Segment(t.segment) in f.dir && f.dir[Segment(t.segment)] == d1.dir[Segment(t.segment)]
    requires forall x :: x in rest ==> x.segment != t.segment && Segment(x.segment) in d.dir && Segment(x.segment) in d1.dir
    requires forall x :: x in rest ==> d1.dir[Segment(x.segment)] == d.dir[Segment(x.segment)]
    ensures HaltedOn(c, now, active, e, m, d, [t] + rest, k + 1, begun, d')
  {
    hide Mended, SavedFrom, NextFree, SegmentIds;
    var ts := [t] + rest;
    PartlyNames(c, now, active, e, f);
    var target := NextFree(SegmentIds(e), m + 1);
    assert Halfway(c, now, active, e, d, [t] + rest, k + 1, (if begun then Without(d', target) else d')) by {
      PartlyTwice(c, now, active, e, f, (if begun then Without(d', target) else d'));
      MendedOnce(c, now, active, now, active, t.segment, d.dir[Segment(t.segment)]);
      var ts := [t] + rest;
      forall i | 0 <= i < |ts|
        ensures Segment(ts[i].segment) in d.dir && Segment(ts[i].segment) in (if begun then Without(d', target) else d').dir
        ensures (if begun then Without(d', target) else d').dir[Segment(ts[i].segment)] ==
          if i < k + 1 then Mended(c, now, active, ts[i].segment, d.dir[Segment(ts[i].segment)]) else d.dir[Segment(ts[i].segment)]
      {
        if i > 0 {
          assert ts[i] == rest[i - 1] && rest[i - 1] in rest;
        }
      }
    }
    assert begun ==> ts[k + 1] == rest[k];
    forall j: nat, o: nat | SalvageMarker(j, o) in d'.dir
      ensures exists i :: MarkedAt(c, now, d, ts, i, j) && (i < k + 1 || (begun && i == k + 1))
    {
      var i :| MarkedAt(c, now, d1, rest, i, j) && (i < k || (begun && i == k));
      assert rest[i] in rest && ts[i + 1] == rest[i];
      assert MarkedAt(c, now, d, ts, i + 1, j);
    }
  }

  /** One more tear settled before those of `ts[1..]`. */
  lemma {:induction false} HaltedLater(c: Codec, now: int, active: nat, w: Work, ts: seq<Tear>, s: Settled, k: nat, begun: bool, d': Disk)
    requires ts != [] && Due(c, now, active, w.disk, ts) && Unmarked(w.disk, ts) && Segment(ts[0].segment) in w.disk.dir
    requires SettledAs(c, now, active, w, ts[0], s) && s.error.None?
    requires AllClean(c, SavedFrom(c, now, ts[0].segment, w.disk.dir[Segment(ts[0].segment)]))
    requires Halted(c, now, active, s.work.disk, s.work.maxNormal, ts[1..], k, begun, d')
    ensures Halted(c, now, active, w.disk, w.maxNormal, ts, k + 1, begun, d')
  {
    hide Due, Unmarked, SettledAs, AllClean, Quiet, AddAll, Mended, SavedFrom, PartlyMended, OneMended, HaltedOn, Saves;
    DuePresent(c, now, active, w.disk, ts);
    RestKept(c, now, active, w, ts, s);
    var t, rest := ts[0], ts[1..];
    assert ts == [t] + rest;
    assert ts[..k + 1] == [t] + rest[..k];
    LaterAdds(c, now, active, w, t, s, rest[..k]);
    HeadMended(c, now, active, w.disk, s.work.disk, t, Saves(c, now, s.work.disk, rest[..k]), s.work.maxNormal);
    var a, b := AddAll(w.disk, w.maxNormal, Saves(c, now, w.disk, ts[..k + 1])).value, AddAll(s.work.disk, s.work.maxNormal, Saves(c, now, s.work.disk, rest[..k])).value;
    HaltedOnLater(c, now, active, a.0, b.0, a.1, w.disk, s.work.disk, t, rest, k, begun, d');
  }

  lemma {:induction false} HeadMended(c: Codec, now: int, active: nat, d: Disk, d1: Disk, t: Tear, saves: seq<bytes>, m: nat)
    requires OneMended(c, now, active, d, d1, t.segment) && AddAll(d1, m, saves).Some?
    ensures Segment(t.segment) in d1.dir
    ensures
      var f := AddAll(d1, m, saves).value.0;
      Segment(t.segment) in f.dir && f.dir[Segment(t.segment)] == d1.dir[Segment(t.segment)]
  {
    AddedKeeps(d1, m, saves);
    hide AddAll, Mended, Torn;
  }

  lemma {:induction false} PartlyNames(c: Codec, now: int, active: nat, e: Disk, f: Disk)
    requires PartlyMended(c, now, active, e, f)
    ensures SegmentIds(e) == SegmentIds(f)
  {
    hide Mended;
    SameNamesIds(e, f);
  }

  /** Adding segments leaves the others as they are. */
  lemma {:induction false} AddedKeeps(d: Disk, m: nat, saves: seq<bytes>)
    ensures
      var added := AddAll(d, m, saves);
      added.Some? ==>
        && m <= added.value.1
        && (forall id: nat :: Segment(id) in d.dir ==> Segment(id) in added.value.0.dir && added.value.0.dir[Segment(id)] == d.dir[Segment(id)])
        && (forall id: nat :: Segment(id) in added.value.0.dir && Segment(id) !in d.dir ==> added.value.0.dir[Segment(id)] in saves && id < COMPACTION_ID_BASE)
    decreases |saves|
  {
    hide NextFree;
    if saves != [] {
      var target := NextFree(SegmentIds(d), m + 1);
      SegmentIdsIff(d, target);
      if target < COMPACTION_ID_BASE {
        assert saves == [saves[0]] + saves[1..];
        AddedKeeps(AddFile(d, target, saves[0]), Max(m, target), saves[1..]);
      }
    }
  }

  /** Power loss at any named point of settling the tears. */
  lemma {:induction false} CrashHalts(c: Codec, now: int, active: nat, w: Work, ts: seq<Tear>, p: Disk, d': Disk) returns (k: nat, begun: bool)
    requires Quiet(w.disk) && Due(c, now, active, w.disk, ts) && NoMarkers(w.disk)
    requires forall t :: t in ts ==> Segment(t.segment) in w.disk.dir
    requires AllClean(c, Saves(c, now, w.disk, ts))
    requires p in AllTearPoints(c, now, active, w, ts) && CrashOf(p, d')
    ensures Halted(c, now, active, w.disk, w.maxNormal, ts, k, begun, d')
    decreases |ts|
  {
    hide Quiet, CrashOf, Settle, TearPoints, SettledAs, HeadLeft, SavedFrom, Unmarked, AllClean, IsTear, OthersStay;
    if ts == [] {
      QuietLeft(w.disk, w.disk, d', 0);
      AllSame(w.disk);
      assert NoMarkers(d') by {
        QuietCrash(w.disk, d');
      }
      assert Halted(c, now, active, w.disk, w.maxNormal, ts, 0, false, d') by {
        assert ts[..0] == [] && ts[0..] == ts;
      }
      return 0, false;
    }
    var t, rest := ts[0], ts[1..];
    assert ts == [t] + rest;
    NeverMarked(w.disk, ts);
    if p in TearPoints(c, now, active, w, t) {
      HeadCrash(c, now, active, w, t, p, d');
      k, begun := HeadHalts(c, now, active, w, ts, d');
    } else {
      SettleFresh(c, now, active, w, t);
      var s := Settle(c, Repair, now, active, w, t);
      CleanHead(c, SavedFrom(c, now, t.segment, w.disk.dir[Segment(t.segment)]), Saves(c, now, w.disk, rest));
      StepAdds(c, now, active, w, t, s);
      DueNext(c, now, active, w, ts, s);
      MarkersGone(c, now, active, w, t);
      k, begun := CrashHalts(c, now, active, s.work, rest, p, d');
      HaltedLater(c, now, active, w, ts, s, k, begun, d');
      k := k + 1;
    }
  }

  lemma {:induction false} AllSame(d: Disk)
    ensures SameSegments(d, d)
  {
  }

  lemma {:induction false} NeverMarked(d: Disk, ts: seq<Tear>)
    requires NoMarkers(d)
    ensures Unmarked(d, ts) && forall j: nat :: NoMarkerOf(d, j)
  {
  }

  /** No marker is left once a tear is settled. */
  lemma {:induction false} MarkersGone(c: Codec, now: int, active: nat, w: Work, t: Tear)
    requires Quiet(w.disk) && IsTear(c, w.disk, t) && NoMarkers(w.disk) && Settle(c, Repair, now, active, w, t).error.None?
    ensures NoMarkers(Settle(c, Repair, now, active, w, t).work.disk)
  {
    TearSaves(c, now, active, w.disk, t);
    assert Segment(t.segment) in w.disk.dir;
    hide Quiet, WriteDurably, TruncateSync, SalvageSteps, StrandedAfter, RunBytes, SavedFrom, IsTear, Settle, Mended, NoMarkers, BackedUp;
    var file := w.disk.dir[Segment(t.segment)];
    var d0, stranded := BackedUp(w.disk, t, file), StrandedAfter(c, file, t.offset, now, MinSeq(t));
    BackedUpSame(w.disk, t, file);
    SameFileIn(w.disk, d0, t.segment);
    if stranded != [] {
      FreshTarget(d0, t.segment, t.offset, w.maxNormal, RunBytes(file, stranded));
      SalvageDirs(d0, t.segment, t.offset, w.maxNormal, RunBytes(file, stranded));
      StrandedSettle(c, now, active, w, t, RunBytes(file, stranded));
    } else {
      BareSettle(c, now, active, w, t);
    }
  }

  lemma {:induction false} CleanHead(c: Codec, a: seq<bytes>, b: seq<bytes>)
    requires AllClean(c, a + b)
    ensures AllClean(c, a) && AllClean(c, b)
  {
    hide Torn;
    assert forall x :: x in a || x in b ==> x in a + b;
  }

  lemma {:induction false} OnlyItsMarkers(d: Disk, d': Disk, segment: nat)
    requires NoMarkers(d) && OthersStay(d, d', segment)
    ensures forall j: nat, o: nat :: SalvageMarker(j, o) in d'.dir ==> j == segment
    ensures NoMarkerOf(d', segment) ==> NoMarkers(d')
  {
  }

  /** Nothing of these tears has been settled. */
  lemma {:induction false} HaltedAtStart(c: Codec, now: int, active: nat, d: Disk, m: nat, ts: seq<Tear>, d': Disk)
    requires Quiet(d') && SameSegments(d, d') && NoMarkers(d') && forall t :: t in ts ==> Segment(t.segment) in d.dir
    ensures Halted(c, now, active, d, m, ts, 0, false, d')
  {
    assert ts[..0] == [] && ts[0..] == ts;
  }

  lemma {:induction false} HeadHalts(c: Codec, now: int, active: nat, w: Work, ts: seq<Tear>, d': Disk) returns (k: nat, begun: bool)
    requires ts != [] && Quiet(w.disk) && Due(c, now, active, w.disk, ts) && NoMarkers(w.disk)
    requires forall t :: t in ts ==> Segment(t.segment) in w.disk.dir
    requires AllClean(c, Saves(c, now, w.disk, ts)) && IsTear(c, w.disk, ts[0])
    requires HeadLeft(c, now, active, w, ts[0], d')
    ensures Halted(c, now, active, w.disk, w.maxNormal, ts, k, begun, d')
  {
    var t, rest := ts[0], ts[1..];
    assert ts == [t] + rest;
    OnlyItsMarkers(w.disk, d', t.segment);
    if SameSegments(w.disk, d') && NoMarkerOf(d', t.segment) {
      HaltedAtStart(c, now, active, w.disk, w.maxNormal, ts, d');
      return 0, false;
    }
    if Begun(c, now, w.disk, w.maxNormal, t, d') {
      HaltedInHead(c, now, active, w.disk, w.maxNormal, ts, d');
      return 0, true;
    }
    hide Quiet, Settle, SettledAs, Halted, SavedFrom, AllClean, IsTear, SameSegments, Due, Unmarked;
    NeverMarked(w.disk, ts);
    SettleFresh(c, now, active, w, t);
    var s := Settle(c, Repair, now, active, w, t);
    CleanHead(c, SavedFrom(c, now, t.segment, w.disk.dir[Segment(t.segment)]), Saves(c, now, w.disk, rest));
    HaltedAfterHead(c, now, active, w, ts, s, d');
    return 1, false;
  }

  /** Just the first tear has been settled; its marker may still be there. */
  lemma {:induction false} HaltedAfterHead(c: Codec, now: int, active: nat, w: Work, ts: seq<Tear>, s: Settled, d': Disk)
    requires ts != [] && Due(c, now, active, w.disk, ts) && Unmarked(w.disk, ts) && Quiet(d')
    requires forall t :: t in ts ==> Segment(t.segment) in w.disk.dir
    requires SettledAs(c, now, active, w, ts[0], s) && s.error.None? && SameSegments(s.work.disk, d')
    requires AllClean(c, SavedFrom(c, now, ts[0].segment, w.disk.dir[Segment(ts[0].segment)]))
    requires forall j: nat, o: nat :: SalvageMarker(j, o) in d'.dir ==>
      j == ts[0].segment && SavedFrom(c, now, j, w.disk.dir[Segment(j)]) != []
    ensures Halted(c, now, active, w.disk, w.maxNormal, ts, 1, false, d')
  {
    var t, rest := ts[0], ts[1..];
    assert ts == [t] + rest && ts[..1] == [t];
    var saved := SavedFrom(c, now, t.segment, w.disk.dir[Segment(t.segment)]);
    RestKept(c, now, active, w, ts, s);
    StepAdds(c, now, active, w, t, s);
    assert Saves(c, now, w.disk, [t]) == SavedFrom(c, now, t.segment, w.disk.dir[Segment(t.segment)]);
    hide Quiet, SettledAs, SavedFrom, AllClean, Due, Unmarked, AddAll, NextFree;
    assert MarkedAt(c, now, w.disk, ts, 0, t.segment) || saved == [];
    SettledHalfway(c, now, active, AddAll(w.disk, w.maxNormal, saved).value.0, w.disk, s.work.disk, t, rest, d');
  }

  lemma {:induction false} SettledHalfway(c: Codec, now: int, active: nat, e: Disk, d: Disk, d1: Disk, t: Tear, rest: seq<Tear>, d': Disk)
    requires PartlyMended(c, now, active, e, d1) && OneMended(c, now, active, d, d1, t.segment) && SameSegments(d1, d')
    requires forall x :: x in rest ==> Segment(x.segment) in d.dir && Segment(x.segment) in d1.dir && d1.dir[Segment(x.segment)] == d.dir[Segment(x.segment)]
    ensures Halfway(c, now, active, e, d, [t] + rest, 1, d')
  {
    hide Mended, Torn;
    var ts := [t] + rest;
    assert forall i :: 1 <= i < |ts| ==> ts[i] == rest[i - 1] && rest[i - 1] in rest;
  }
}
