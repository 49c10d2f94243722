/**
 * Opening in Repair mode, interrupted by a power loss at any named point and done again: both ways the same segments
 * with the same frames come out, and the condition under which their bytes are the same too.
 */
module RepairTwice {
  import opened Wrappers
  import opened Bytes
  import opened Types
  import opened Frames
  import opened Index
  import opened LogMerge
  import opened Disk
  import opened FlushIndex
  import opened Flusher
  import opened Resync
  import opened Recovery
  import opened ShelfReplay
  import opened OpenAfterCrash
  import opened DiskView
  import opened FrameSets
  import opened Repair
  import opened RepairOutcome
  import opened RepairCrash
  import opened RepairRerun

  // ---------- What is asked of the directory ----------

  /** All frames stranded behind the tears have values that decode. */
  ghost predicate ValuesDecode(c: Codec, now: int, d: Disk)
  {
    forall id: nat, f :: Segment(id) in d.dir && f in StrandedIn(c, now, id, d.dir[Segment(id)]) ==> Decodes(c, d.dir[Segment(id)], f)
  }

  ghost predicate FilesFit(d: Disk)
  {
    forall id: nat :: Segment(id) in d.dir ==> |d.dir[Segment(id)]| < U64
  }

  /** A directory no repair has been begun in. */
  ghost predicate Repairable(c: Codec, now: int, d: Disk)
  {
    Quiet(d) && NoMarkers(d) && FilesFit(d) && ValuesDecode(c, now, d)
  }

  lemma {:induction false} DecodeClean(c: Codec, now: int, d: Disk, ts: seq<Tear>)
    requires ValuesDecode(c, now, d) && forall t :: t in ts ==> Segment(t.segment) in d.dir
    ensures AllClean(c, Saves(c, now, d, ts))
    decreases |ts|
  {
    hide SavedFrom, Torn, StrandedIn;
    if ts != [] {
      DecodeClean(c, now, d, ts[1..]);
      SavedDecodes(c, now, ts[0].segment, d.dir[Segment(ts[0].segment)]);
    }
  }

  lemma {:induction false} SavedDecodes(c: Codec, now: int, id: nat, file: bytes)
    requires forall f :: f in StrandedIn(c, now, id, file) ==> Decodes(c, file, f)
    ensures forall s :: s in SavedFrom(c, now, id, file) ==> !Torn(c, s)
  {
    hide StrandedAfter, RunBytes, Decodes, Scan;
    if Torn(c, file) {
      SalvagedFramesExact(c, file, TearIn(c, id, file).offset, now, MinSeq(TearIn(c, id, file)));
    }
  }

  // ---------- The largest normal id ----------

  ghost predicate IsMaxNormal(d: Disk, m: nat)
  {
    && m < COMPACTION_ID_BASE && (m == 0 || Segment(m) in d.dir)
    && forall id: nat :: Segment(id) in d.dir && id < COMPACTION_ID_BASE ==> id <= m
  }

  lemma {:induction false} ListingMax(d: Disk, ids: seq<nat>)
    requires Listing(d, ids)
    ensures IsMaxNormal(d, MaxNormalId(ids))
  {
    MaxOf(ids);
  }

  lemma {:induction false} MaxOf(ids: seq<nat>)
    ensures MaxNormalId(ids) < COMPACTION_ID_BASE && (MaxNormalId(ids) == 0 || MaxNormalId(ids) in ids)
    ensures forall id :: id in ids && id < COMPACTION_ID_BASE ==> id <= MaxNormalId(ids)
    decreases |ids|
  {
    if ids != [] {
      assert ids == ids[..|ids| - 1] + [ids[|ids| - 1]];
      MaxOf(ids[..|ids| - 1]);
    }
  }

  lemma {:induction false} AddAllMax(d: Disk, m: nat, saves: seq<bytes>)
    requires IsMaxNormal(d, m) && AddAll(d, m, saves).Some?
    ensures IsMaxNormal(AddAll(d, m, saves).value.0, AddAll(d, m, saves).value.1)
    decreases |saves|
  {
    hide NextFree, SegmentIds;
    if saves != [] {
      var target := NextFree(SegmentIds(d), m + 1);
      AddAllMax(AddFile(d, target, saves[0]), Max(m, target), saves[1..]);
    }
  }

  // ---------- The two runs ----------

  ghost function ActiveOf(c: Codec, d: Disk, ids: seq<nat>): nat
    requires ListedAscending(d, ids)
  {
    ChooseActive(PassAll(c, d, ids).summaries)
  }

  ghost function SettledBy(c: Codec, now: int, d: Disk, ids: seq<nat>): Settled
    requires ListedAscending(d, ids)
  {
    var pass := PassAll(c, d, ids);
    SettleAll(c, Repair, now, ActiveOf(c, d, ids), Work(d, pass.merge.idx, MaxNormalId(ids), MaxId(ids)), pass.tears)
  }

  lemma {:induction false} ListingAscends(d: Disk, ids: seq<nat>)
    requires Listing(d, ids)
    ensures ListedAscending(d, ids)
  {
    assert forall i :: 0 <= i < |ids| ==> ids[i] in ids;
  }

  /** The uninterrupted run. */
  lemma {:induction false} FirstRun(c: Codec, now: int, d: Disk, ids: seq<nat>)
    requires Repairable(c, now, d) && Listing(d, ids)
    ensures ListedAscending(d, ids) && forall t :: t in PassAll(c, d, ids).tears ==> Segment(t.segment) in d.dir
    ensures SettledAllAs(c, now, ActiveOf(c, d, ids), d, MaxNormalId(ids), Saves(c, now, d, PassAll(c, d, ids).tears), SettledBy(c, now, d, ids))
  {
    PassListed(c, d, ids);
    hide PassAll, SettleAll, SettledAllAs, Saves, Quiet, ValuesDecode, IsTear, Torn, MaxNormalId, MaxId, ChooseActive;
    var pass := PassAll(c, d, ids);
    assert Due(c, now, ActiveOf(c, d, ids), d, pass.tears);
    DecodeClean(c, now, d, pass.tears);
    NeverMarked(d, pass.tears);
    SettleAllFresh(c, now, ActiveOf(c, d, ids), Work(d, pass.merge.idx, MaxNormalId(ids), MaxId(ids)), pass.tears);
  }

  /** The run that is interrupted. */
  lemma {:induction false} HaltedRun(c: Codec, now: int, d: Disk, ids: seq<nat>, p: Disk, d': Disk) returns (k: nat, begun: bool)
    requires Repairable(c, now, d) && Listing(d, ids)
    requires ListedAscending(d, ids) && p in RepairPoints(c, now, d, ids) && CrashOf(p, d')
    ensures Halted(c, now, ActiveOf(c, d, ids), d, MaxNormalId(ids), PassAll(c, d, ids).tears, k, begun, d')
  {
    PassListed(c, d, ids);
    hide PassAll, AllTearPoints, Halted, Saves, Quiet, ValuesDecode, IsTear, Torn, MaxNormalId, MaxId, ChooseActive, CrashOf;
    var pass := PassAll(c, d, ids);
    assert Due(c, now, ActiveOf(c, d, ids), d, pass.tears);
    DecodeClean(c, now, d, pass.tears);
    k, begun := CrashHalts(c, now, ActiveOf(c, d, ids), Work(d, pass.merge.idx, MaxNormalId(ids), MaxId(ids)), pass.tears, p, d');
  }

  /** The directory without the segment whose salvage had begun. */
  ghost function BaseOf(d': Disk, begun: bool, e: Disk, m: nat): Disk
  {
    if begun then Without(d', NextFree(SegmentIds(e), m + 1)) else d'
  }

  lemma {:induction false} HaltedParts(c: Codec, now: int, active: nat, d: Disk, m: nat, ts: seq<Tear>, k: nat, begun: bool, d': Disk)
    requires Halted(c, now, active, d, m, ts, k, begun, d')
    ensures k <= |ts| && (begun ==> k < |ts|) && Quiet(d') && (forall t :: t in ts ==> Segment(t.segment) in d.dir)
    ensures AddAll(d, m, Saves(c, now, d, ts[..k])).Some?
    ensures
      var e, m' := AddAll(d, m, Saves(c, now, d, ts[..k])).value.0, AddAll(d, m, Saves(c, now, d, ts[..k])).value.1;
      && PartlyMended(c, now, active, e, BaseOf(d', begun, e, m'))
      && (begun ==> Underway(c, now, d, ts[k], NextFree(SegmentIds(e), m' + 1), d'))
  {
    hide Quiet, AddAll, Saves, NextFree, SegmentIds, PartlyMended, Underway;
  }

  /** A tear with frames stranded behind it is always mended by a cut. */
  lemma {:induction false} SavedIsCut(c: Codec, now: int, active: nat, id: nat, file: bytes)
    requires SavedFrom(c, now, id, file) != []
    ensures Torn(c, file) && Mended(c, now, active, id, file) != file
  {
    hide StrandedAfter, RunBytes;
    if Torn(c, file) {
      TornInside(c, file, 0);
    }
  }

  /** A tear found again carries no marker, unless its salvage had begun. */
  lemma {:induction false} FoundUnmarked(c: Codec, now: int, active: nat, d: Disk, m: nat, ts: seq<Tear>, k: nat, begun: bool, d': Disk, x: Tear)
    requires Due(c, now, active, d, ts) && AllClean(c, Saves(c, now, d, ts)) && Listed(c, d, ts)
    requires Halted(c, now, active, d, m, ts, k, begun, d') && IsTear(c, d', x)
    ensures SalvageMarker(x.segment, x.offset) in d'.dir ==> begun && k < |ts| && x == ts[k]
  {
    HaltedFile(c, now, active, d, m, ts, k, begun, d', x.segment);
    hide Quiet, AddAll, Saves, NextFree, SegmentIds, Halfway, Underway, AllClean, SavedFrom, Mended, Torn, TearIn, Due;
    var i :| 0 <= i < |ts| && ts[i].segment == x.segment && d'.dir[Segment(x.segment)] == d.dir[Segment(x.segment)]
      && (i < k ==> Mended(c, now, active, x.segment, d.dir[Segment(x.segment)]) == d.dir[Segment(x.segment)]);
    assert ts[i] in ts && IsTear(c, d, ts[i]);
    if SalvageMarker(x.segment, x.offset) in d'.dir {
      var j :| MarkedAt(c, now, d, ts, j, x.segment) && (j < k || (begun && j == k));
      SavedIsCut(c, now, active, x.segment, d.dir[Segment(x.segment)]);
      assert j == i;
    }
  }

  /** A rerun saves what is left to save, from the directory without the segment whose salvage had begun. */
  ghost predicate LeftDone(c: Codec, now: int, now': int, d: Disk, m: nat, ts: seq<Tear>, k: nat, begun: bool, d': Disk, ids': seq<nat>)
  {
    && ListedAscending(d', ids') && k <= |ts| && (forall t :: t in ts ==> Segment(t.segment) in d.dir)
    && var added := AddAll(d, m, Saves(c, now, d, ts[..k]));
       && added.Some?
       && SettledAllAs(c, now', ActiveOf(c, d', ids'), BaseOf(d', begun, added.value.0, added.value.1), added.value.1,
                       Saves(c, now, d, ts[k..]), SettledBy(c, now', d', ids'))
  }

  lemma {:induction false} SecondRun(c: Codec, now: int, now': int, active: nat, d: Disk, m: nat, ts: seq<Tear>, k: nat, begun: bool, d': Disk, ids': seq<nat>)
    requires Halted(c, now, active, d, m, ts, k, begun, d') && Listed(c, d, ts) && Listing(d', ids')
    requires Repairable(c, now, d) && SameClocks(d, now, now') && IsMaxNormal(d, m)
    ensures LeftDone(c, now, now', d, m, ts, k, begun, d', ids')
  {
    hide PassAll, Saves, WithSaves, ValuesDecode, Halted, AllClean, SameClocks, ActiveOf;
    HaltedParts(c, now, active, d, m, ts, k, begun, d');
    AddAllMax(d, m, Saves(c, now, d, ts[..k]));
    PassListed(c, d', ids');
    var ts' := PassAll(c, d', ids').tears;
    assert Due(c, now, active, d, ts);
    assert Due(c, now', ActiveOf(c, d', ids'), d', ts');
    ListedTears(c, d', ts');
    DecodeClean(c, now, d, ts);
    // The rerun has the same tears to save from as were left.
    assert WithSaves(c, now', d', ts') == WithSaves(c, now, d, ts[k..]) && Saves(c, now', d', ts') == Saves(c, now, d, ts[k..]) by {
      assert Due(c, now, active, d, ts);
      var rest := ts[k..];
      assert forall i :: 0 <= i < |rest| ==> rest[i] == ts[i + k];
      assert forall t :: t in rest ==> t in ts;
      ListedTears(c, d', ts');
      WithSavesMember(c, now', d', ts');
      WithSavesMember(c, now, d, ts[k..]);
      LeftIn(c, now, now', active, d, m, ts, k, begun, d', ts');
      LeftOut(c, now, now', active, d, m, ts, k, begun, d', ts');
      SameAscending(WithSaves(c, now', d', ts'), WithSaves(c, now, d, rest));
      assert Saves(c, now', d', ts') == Saves(c, now, d, rest) by {
        var ws := WithSaves(c, now, d, rest);
        SavesOfThose(c, now', d', ts');
        SavesOfThose(c, now, d, rest);
        SavesSame(c, now', d, d', ws);
        ClockSaves(c, now, now', d, ws);
      }
    }
    SavesParts(c, now, d, ts, k);
    CleanHead(c, Saves(c, now, d, ts[..k]), Saves(c, now, d, ts[k..]));
    RunOf(c, now, now', active, d, m, ts, k, begun, d', ids');
  }

  lemma {:induction false} RunOf(c: Codec, now: int, now': int, active: nat, d: Disk, m: nat, ts: seq<Tear>, k: nat, begun: bool, d': Disk, ids': seq<nat>)
    requires Halted(c, now, active, d, m, ts, k, begun, d') && Listed(c, d, ts) && Listing(d', ids') && ListedAscending(d', ids')
    requires k <= |ts| && (begun ==> k < |ts|) && Quiet(d') && SameClocks(d, now, now') && FilesFit(d)
    requires forall t :: t in ts ==> Segment(t.segment) in d.dir
    requires Due(c, now, active, d, ts) && AllClean(c, Saves(c, now, d, ts)) && AllClean(c, Saves(c, now, d, ts[k..]))
    requires
      var ts' := PassAll(c, d', ids').tears;
      && Listed(c, d', ts') && Due(c, now', ActiveOf(c, d', ids'), d', ts') && (forall t :: t in ts' ==> Segment(t.segment) in d'.dir)
      && Saves(c, now', d', ts') == Saves(c, now, d, ts[k..]) && WithSaves(c, now', d', ts') == WithSaves(c, now, d, ts[k..])
    requires
      var added := AddAll(d, m, Saves(c, now, d, ts[..k]));
      && added.Some? && IsMaxNormal(added.value.0, added.value.1)
      && PartlyMended(c, now, active, added.value.0, BaseOf(d', begun, added.value.0, added.value.1))
      && (begun ==> Underway(c, now, d, ts[k], NextFree(SegmentIds(added.value.0), added.value.1 + 1), d'))
    ensures LeftDone(c, now, now', d, m, ts, k, begun, d', ids')
  {
    hide PassAll, SettledAllAs, Saves, WithSaves, Quiet, Halted, AddAll, Due, AllClean, SameClocks, FilesFit, Underway, SegmentIds, NextFree, Without;
    var added := AddAll(d, m, Saves(c, now, d, ts[..k])).value;
    if begun {
      BegunRun(c, now, now', active, d, m, ts, k, d', ids', added.0, added.1);
    } else {
      assert SettledAllAs(c, now', ActiveOf(c, d', ids'), d', added.1, Saves(c, now, d, ts[k..]), SettledBy(c, now', d', ids')) by {
        ListingMax(d', ids');
        var pass := PassAll(c, d', ids');
        ListedTears(c, d', pass.tears);
        forall x | x in pass.tears
          ensures SalvageMarker(x.segment, x.offset) !in d'.dir
        {
          FoundUnmarked(c, now, active, d, m, ts, k, false, d', x);
        }
        SettleAllFresh(c, now', ActiveOf(c, d', ids'), Work(d', pass.merge.idx, MaxNormalId(ids'), MaxId(ids')), pass.tears);
      }
    }
  }

  lemma {:induction false} BegunRun(c: Codec, now: int, now': int, active: nat, d: Disk, m: nat, ts: seq<Tear>, k: nat, d': Disk, ids': seq<nat>, e: Disk, m': nat)
    requires Halted(c, now, active, d, m, ts, k, true, d') && Listed(c, d, ts) && Listing(d', ids') && ListedAscending(d', ids')
    requires Due(c, now, active, d, ts) && AllClean(c, Saves(c, now, d, ts)) && Quiet(d') && forall t :: t in ts ==> Segment(t.segment) in d.dir
    requires Listed(c, d', PassAll(c, d', ids').tears) && Due(c, now', ActiveOf(c, d', ids'), d', PassAll(c, d', ids').tears)
    requires k < |ts| && AllClean(c, Saves(c, now, d, ts[k..]))
    requires (forall t :: t in PassAll(c, d', ids').tears ==> Segment(t.segment) in d'.dir)
    requires Saves(c, now', d', PassAll(c, d', ids').tears) == Saves(c, now, d, ts[k..])
    requires WithSaves(c, now', d', PassAll(c, d', ids').tears) == WithSaves(c, now, d, ts[k..])
    requires PartlyMended(c, now, active, e, BaseOf(d', true, e, m')) && IsMaxNormal(e, m')
    requires Underway(c, now, d, ts[k], NextFree(SegmentIds(e), m' + 1), d') && SameClocks(d, now, now') && FilesFit(d)
    ensures SettledAllAs(c, now', ActiveOf(c, d', ids'), BaseOf(d', true, e, m'), m', Saves(c, now, d, ts[k..]), SettledBy(c, now', d', ids'))
  {
    var t, target := ts[k], NextFree(SegmentIds(e), m' + 1);
    var pass := PassAll(c, d', ids');
    var w := Work(d', pass.merge.idx, MaxNormalId(ids'), MaxId(ids'));
    BegunMax(c, now, now', active, d, t, d', ids', e, m');
    PartlyNames(c, now, active, e, Without(d', target));
    assert Aimed(c, now', d', w.maxNormal, t, target, m') by {
      SameStranded(c, d.dir[Segment(t.segment)], t.segment, now, now');
    }
    assert FirstIs(c, now', ActiveOf(c, d', ids'), d', pass.tears, ts[k], target) by {
      ListedTears(c, d', pass.tears);
      assert Segment(target) in d'.dir ==> !Torn(c, d'.dir[Segment(target)]);
      forall x | x in pass.tears
        ensures x.segment != target && (x != ts[k] ==> SalvageMarker(x.segment, x.offset) !in d'.dir)
      {
        assert IsTear(c, d', x);
        FoundUnmarked(c, now, active, d, m, ts, k, true, d', x);
      }
    }
    SettleAllResumed(c, now', ActiveOf(c, d', ids'), w, pass.tears, t, target, m');
  }

  /** The largest normal id found is as it was, or that of the salvage that had begun. */
  lemma {:induction false} BegunMax(c: Codec, now: int, now': int, active: nat, d: Disk, t: Tear, d': Disk, ids': seq<nat>, e: Disk, m': nat)
    requires Listing(d', ids') && PartlyMended(c, now, active, e, BaseOf(d', true, e, m')) && IsMaxNormal(e, m')
    requires Underway(c, now, d, t, NextFree(SegmentIds(e), m' + 1), d')
    ensures MaxNormalId(ids') == m' || MaxNormalId(ids') == Max(m', NextFree(SegmentIds(e), m' + 1))
  {
    var target := NextFree(SegmentIds(e), m' + 1);
    var base := Without(d', target);
    assert target < COMPACTION_ID_BASE by { hide SavedFrom, MarkerBytes; }
    hide MaxNormalId, SegmentIds, NextFree, Mended, Underway;
    ListingMax(d', ids');
  }

  // ---------- Comparing what the two runs leave ----------

  ghost function Prefix(c: Codec, file: bytes): bytes
  {
    file[..Scan(c, file, 0).stop]
  }

  /** The same segments, each with the same bytes up to where its replay stops. */
  ghost predicate SameReplay(c: Codec, d: Disk, d': Disk)
  {
    SameNames(d, d') && forall id: nat :: Segment(id) in d.dir ==> Prefix(c, d'.dir[Segment(id)]) == Prefix(c, d.dir[Segment(id)])
  }

  /** A torn tail with no frames stranded in it. */
  ghost predicate BareFile(c: Codec, now: int, id: nat, file: bytes)
  {
    Torn(c, file) && StrandedIn(c, now, id, file) == []
  }

  ghost predicate BareTail(c: Codec, now: int, d: Disk, id: nat)
  {
    Segment(id) in d.dir && BareFile(c, now, id, d.dir[Segment(id)])
  }

  /** One file, mended by the first run or by part of it and the rerun. */
  lemma {:induction false} CompareFile(c: Codec, now: int, now': int, a: nat, a': nat, id: nat, f: bytes, g: bytes)
    requires g == f || g == Mended(c, now, a, id, f)
    requires Torn(c, f) ==> SameClock(f, now, now')
    ensures
      var x, y := Mended(c, now, a, id, f), Mended(c, now', a', id, g);
      && Prefix(c, x) == Prefix(c, y)
      && (x == y <==> a == a' || !BareFile(c, now', id, g) || (id != a && id != a'))
  {
    assert Prefix(c, Mended(c, now, a, id, f)) == Prefix(c, f) by {
      assert
        var cut := f[..Scan(c, f, 0).stop];
        !Torn(c, cut) && FramesIn(c, cut) == FramesIn(c, f) && Scan(c, cut, 0).stop == Scan(c, f, 0).stop == |cut| by {
        CutAtTear(c, f, 0);
        CleanToEnd(c, f[..Scan(c, f, 0).stop], 0);
      }
    }
    assert Prefix(c, Mended(c, now', a', id, g)) == Prefix(c, g) by {
      assert
        var cut := g[..Scan(c, g, 0).stop];
        !Torn(c, cut) && FramesIn(c, cut) == FramesIn(c, g) && Scan(c, cut, 0).stop == Scan(c, g, 0).stop == |cut| by {
        CutAtTear(c, g, 0);
        CleanToEnd(c, g[..Scan(c, g, 0).stop], 0);
      }
    }
    if Torn(c, f) {
      SameStranded(c, f, id, now, now');
      TornInside(c, f, 0);
    }
    assert
      var cut := f[..Scan(c, f, 0).stop];
      !Torn(c, cut) && FramesIn(c, cut) == FramesIn(c, f) && Scan(c, cut, 0).stop == Scan(c, f, 0).stop == |cut| by {
      CutAtTear(c, f, 0);
      CleanToEnd(c, f[..Scan(c, f, 0).stop], 0);
    }
    hide Scan, StrandedIn, SameClock, Prefix;
  }

  // ---------- The active segment ----------

  lemma {:induction false} NextSummary(c: Codec, pass: Pass, id: nat, file: bytes)
    ensures
      var ss, ss' := pass.summaries, PassSegment(c, pass, id, file).summaries;
      && (forall s :: s in ss' ==> s in ss || (s.id == id < COMPACTION_ID_BASE))
      && |ss'| == |ss| + if id < COMPACTION_ID_BASE then 1 else 0
  {
    hide Scan, MergeFrom, Places, PrefixMax;
  }

  lemma {:induction false} SummaryIds(c: Codec, d: Disk, ids: seq<nat>)
    requires ListedAscending(d, ids)
    ensures
      var ss := PassAll(c, d, ids).summaries;
      && (forall s :: s in ss ==> s.id in ids && s.id < COMPACTION_ID_BASE)
      && (forall id :: id in ids && id < COMPACTION_ID_BASE ==> ss != [])
    decreases |ids|
  {
    hide PassSegment;
    if ids != [] {
      var init, id := ids[..|ids| - 1], ids[|ids| - 1];
      SummaryIds(c, d, init);
      assert ids == init + [id];
      NextSummary(c, PassAll(c, d, init), id, d.dir[Segment(id)]);
    }
  }

  lemma {:induction false} ChosenIsListed(ss: seq<Summary>)
    ensures
      && (Newest(ss).Some? <==> ss != []) && (Newest(ss).Some? ==> Newest(ss).value in ss)
      && (MostRecent(ss).Some? ==> MostRecent(ss).value in ss)
      && ((exists s :: s in ss && s.hasFrame) ==> MostRecent(ss).Some?)
    decreases |ss|
  {
    if ss != [] {
      ChosenIsListed(ss[..|ss| - 1]);
      assert ss == ss[..|ss| - 1] + [ss[|ss| - 1]];
    }
  }

  ghost predicate NoNormal(d: Disk)
  {
    forall id: nat :: Segment(id) in d.dir ==> id >= COMPACTION_ID_BASE
  }

  /** The active segment exists, unless there is no normal segment at all. */
  lemma {:induction false} ActiveThere(c: Codec, d: Disk, ids: seq<nat>)
    requires Listing(d, ids) && ListedAscending(d, ids)
    ensures
      var a := ActiveOf(c, d, ids);
      if NoNormal(d) then a == 1 else Segment(a) in d.dir && a < COMPACTION_ID_BASE
  {
    hide PassAll, Newest, MostRecent;
    var ss := PassAll(c, d, ids).summaries;
    SummaryIds(c, d, ids);
    ChosenIsListed(ss);
    if NoNormal(d) {
      assert forall s :: s !in ss;
    } else {
      var id: nat :| Segment(id) in d.dir && id < COMPACTION_ID_BASE;
      assert id in ids;
    }
  }

  /** Without a normal segment the first one saved gets id 1. */
  lemma {:induction false} FirstAdded(d: Disk, saves: seq<bytes>)
    requires NoNormal(d) && AddAll(d, 0, saves).Some?
    ensures if saves == [] then AddAll(d, 0, saves).value.0 == d else Segment(1) in AddAll(d, 0, saves).value.0.dir
  {
    if saves != [] {
      SegmentIdsIff(d, 1);
      assert NextFree(SegmentIds(d), 1) == 1;
      AddedKeeps(AddFile(d, 1, saves[0]), 1, saves[1..]);
    }
  }

  // ---------- The theorem ----------

  /** Both runs add the same segments in the end. */
  lemma {:induction false} Combine(c: Codec, now: int, now': int, a: nat, a': nat, d: Disk, m: nat, done: seq<bytes>, rest: seq<bytes>, base: Disk, s: Settled, s': Settled)
    requires AddAll(d, m, done).Some? && PartlyMended(c, now, a, AddAll(d, m, done).value.0, base)
    requires SettledAllAs(c, now, a, d, m, done + rest, s)
    requires SettledAllAs(c, now', a', base, AddAll(d, m, done).value.1, rest, s')
    ensures AddAll(d, m, done + rest).None? ==> s.error == Some(OutOfSegmentIds) && s'.error == Some(OutOfSegmentIds)
    ensures
      var f := AddAll(base, AddAll(d, m, done).value.1, rest);
      AddAll(d, m, done + rest).Some? ==>
        && f.Some? && s.error.None? && s'.error.None?
        && s.work.maxNormal == s'.work.maxNormal == AddAll(d, m, done + rest).value.1
        && AllMended(c, now, a, AddAll(d, m, done + rest).value.0, s.work.disk)
        && PartlyMended(c, now, a, AddAll(d, m, done + rest).value.0, f.value.0)
        && AllMended(c, now', a', f.value.0, s'.work.disk)
  {
    hide AddAll, PartlyMended, AllMended, Quiet;
    AddTwice(d, m, done, rest);
    AddMended(c, now, a, AddAll(d, m, done).value.0, base, AddAll(d, m, done).value.1, rest);
  }

  /** Only the files of `d` can be torn. */
  lemma {:induction false} TornWereThere(c: Codec, now: int, now': int, d: Disk, m: nat, saves: seq<bytes>)
    requires AllClean(c, saves) && SameClocks(d, now, now') && AddAll(d, m, saves).Some?
    ensures
      var e := AddAll(d, m, saves).value.0;
      forall id: nat :: Segment(id) in e.dir && Torn(c, e.dir[Segment(id)]) ==> SameClock(e.dir[Segment(id)], now, now')
  {
    hide Torn, SameClock, AddAll;
    AddedKeeps(d, m, saves);
  }

  /** The saved segments are no bare tails, nor is the one whose salvage had begun. */
  lemma {:induction false} SameBare(c: Codec, now': int, base: Disk, m: nat, rest: seq<bytes>, d': Disk, target: nat, begun: bool, id: nat)
    requires AllClean(c, rest) && AddAll(base, m, rest).Some?
    requires base == (if begun then Without(d', target) else d') && (Segment(target) in d'.dir && begun ==> !Torn(c, d'.dir[Segment(target)]))
    ensures BareTail(c, now', AddAll(base, m, rest).value.0, id) <==> BareTail(c, now', d', id)
  {
    hide Torn, StrandedIn, AddAll;
    AddedKeeps(base, m, rest);
  }

  lemma {:induction false} FoundNames(d: Disk, base: Disk, m: nat, rest: seq<bytes>, d': Disk, begun: bool, e: Disk)
    requires AddAll(base, m, rest).Some? && base == BaseOf(d', begun, e, m) && SegmentIds(e) == SegmentIds(base) && (begun ==> rest != [])
    requires forall id: nat :: Segment(id) in d.dir ==> Segment(id) in base.dir
    ensures forall id: nat :: Segment(id) in d'.dir ==> Segment(id) in AddAll(base, m, rest).value.0.dir
    ensures forall id: nat :: Segment(id) in d.dir ==> Segment(id) in d'.dir
  {
    var target := NextFree(SegmentIds(e), m + 1);
    AddedKeeps(base, m, rest);
    if begun {
      AddedKeeps(AddFile(base, target, rest[0]), Max(m, target), rest[1..]);
    }
    hide SegmentIds, NextFree;
  }

  /** Both are refused for want of ids, or both run, with the same replay in every segment. */
  ghost predicate SameOpening(c: Codec, o: Opened, o': Opened)
  {
    match o
    case Refused(_, e) => e.OutOfSegmentIds? && o'.Refused? && o'.error.OutOfSegmentIds?
    case Running(db) => o'.Running? && SameReplay(c, db.disk, o'.db.disk) && o'.db.segmentCounter == db.segmentCounter
  }

  /** What the interrupted and the uninterrupted run have in common, before the active file is opened. */
  ghost predicate SettledAlike(c: Codec, now': int, d: Disk, ids: seq<nat>, d': Disk, ids': seq<nat>, s: Settled, s': Settled)
    requires ListedAscending(d, ids) && ListedAscending(d', ids')
  {
    var a, a' := ActiveOf(c, d, ids), ActiveOf(c, d', ids');
    if s.error.Some? then s.error == Some(OutOfSegmentIds) && s'.error == Some(OutOfSegmentIds) else
      && s'.error.None? && s.work.maxNormal == s'.work.maxNormal && SameReplay(c, s.work.disk, s'.work.disk)
      && (SameSegments(s.work.disk, s'.work.disk) <==> a == a' || !(BareTail(c, now', d', a) || BareTail(c, now', d', a')))
      && (Segment(a) in s.work.disk.dir <==> Segment(a') in s'.work.disk.dir)
      && (Segment(a) !in s.work.disk.dir ==> a == a') && Max(s.work.maxNormal, a) == Max(s.work.maxNormal, a')
  }

  lemma {:induction false} SettlesAlike(c: Codec, now: int, now': int, d: Disk, ids: seq<nat>, d': Disk, ids': seq<nat>, k: nat, begun: bool)
    requires Listing(d, ids) && ListedAscending(d, ids) && Listing(d', ids') && ListedAscending(d', ids')
    requires Repairable(c, now, d) && SameClocks(d, now, now')
    requires Halted(c, now, ActiveOf(c, d, ids), d, MaxNormalId(ids), PassAll(c, d, ids).tears, k, begun, d')
    ensures SettledAlike(c, now', d, ids, d', ids', SettledBy(c, now, d, ids), SettledBy(c, now', d', ids'))
  {
    hide PassAll, SettledBy, SettledAllAs, Saves, Halted, AddAll, Listed, IsMaxNormal, SameClocks, PartlyMended, AllMended, Underway, ActiveOf, BaseOf, Repairable, SettledAlike, MaxNormalId, AllClean, Listing;
    var ts, a, m := PassAll(c, d, ids).tears, ActiveOf(c, d, ids), MaxNormalId(ids);
    PassListed(c, d, ids);
    ListingMax(d, ids);
    HaltedParts(c, now, a, d, m, ts, k, begun, d');
    FirstRun(c, now, d, ids);
    SecondRun(c, now, now', a, d, m, ts, k, begun, d', ids');
    SavesParts(c, now, d, ts, k);
    SavesClean(c, now, d, ts, k);
    if begun {
      TargetIsWhole(c, now, d, ts, k, NextFree(SegmentIds(AddAll(d, m, Saves(c, now, d, ts[..k])).value.0), AddAll(d, m, Saves(c, now, d, ts[..k])).value.1 + 1), d');
    }
    Alike(c, now, now', d, ids, d', ids', Saves(c, now, d, ts[..k]), Saves(c, now, d, ts[k..]), begun);
  }

  lemma {:induction false} SavesClean(c: Codec, now: int, d: Disk, ts: seq<Tear>, k: nat)
    requires Repairable(c, now, d) && k <= |ts| && forall t :: t in ts ==> Segment(t.segment) in d.dir
    ensures AllClean(c, Saves(c, now, d, ts))
    ensures AllClean(c, Saves(c, now, d, ts[..k])) && AllClean(c, Saves(c, now, d, ts[k..]))
  {
    hide Quiet, NoMarkers, FilesFit, ValuesDecode, Saves, AllClean;
    DecodeClean(c, now, d, ts);
    SavesParts(c, now, d, ts, k);
    CleanHead(c, Saves(c, now, d, ts[..k]), Saves(c, now, d, ts[k..]));
  }

  lemma {:induction false} TargetIsWhole(c: Codec, now: int, d: Disk, ts: seq<Tear>, k: nat, target: nat, d': Disk)
    requires k < |ts| && (forall t :: t in ts ==> Segment(t.segment) in d.dir) && AllClean(c, Saves(c, now, d, ts))
    requires Underway(c, now, d, ts[k], target, d')
    ensures (Segment(target) in d'.dir ==> !Torn(c, d'.dir[Segment(target)])) && Saves(c, now, d, ts[k..]) != []
  {
    assert Segment(target) in d'.dir ==> !Torn(c, d'.dir[Segment(target)]) by {
      SavedClean(c, now, d, ts, k);
    }
    hide SavedFrom, Torn, MarkerBytes, AllClean;
    assert ts[k..][0] == ts[k];
  }

  lemma {:induction false} Alike(c: Codec, now: int, now': int, d: Disk, ids: seq<nat>, d': Disk, ids': seq<nat>, done: seq<bytes>, rest: seq<bytes>, begun: bool)
    requires Listing(d, ids) && ListedAscending(d, ids) && Listing(d', ids') && ListedAscending(d', ids')
    requires AllClean(c, done + rest) && AllClean(c, rest) && SameClocks(d, now, now') && AddAll(d, MaxNormalId(ids), done).Some?
    requires SettledAllAs(c, now, ActiveOf(c, d, ids), d, MaxNormalId(ids), done + rest, SettledBy(c, now, d, ids))
    requires
      var e, m := AddAll(d, MaxNormalId(ids), done).value.0, AddAll(d, MaxNormalId(ids), done).value.1;
      var target := NextFree(SegmentIds(e), m + 1);
      && PartlyMended(c, now, ActiveOf(c, d, ids), e, BaseOf(d', begun, e, m))
      && (begun ==> rest != [] && (Segment(target) in d'.dir ==> !Torn(c, d'.dir[Segment(target)])))
      && SettledAllAs(c, now', ActiveOf(c, d', ids'), BaseOf(d', begun, e, m), m, rest, SettledBy(c, now', d', ids'))
    ensures SettledAlike(c, now', d, ids, d', ids', SettledBy(c, now, d, ids), SettledBy(c, now', d', ids'))
  {
    hide SettledBy, SettledAllAs, AddAll, SameClocks, ActiveOf, MaxNormalId, AllClean, Listing, ListedAscending, NextFree, SegmentIds, Without, Torn;
    var a, a', m0 := ActiveOf(c, d, ids), ActiveOf(c, d', ids'), MaxNormalId(ids);
    var s, s' := SettledBy(c, now, d, ids), SettledBy(c, now', d', ids');
    var e, m := AddAll(d, m0, done).value.0, AddAll(d, m0, done).value.1;
    var base := BaseOf(d', begun, e, m);
    Combine(c, now, now', a, a', d, m0, done, rest, base, s, s');
    if AddAll(d, m0, done + rest).Some? {
      var full, f := AddAll(d, m0, done + rest).value.0, AddAll(base, m, rest).value.0;
      TornWereThere(c, now, now', d, m0, done + rest);
      assert
        && SameReplay(c, s.work.disk, s'.work.disk)
        && (SameSegments(s.work.disk, s'.work.disk) <==> a == a' || !(BareTail(c, now', f, a) || BareTail(c, now', f, a'))) by {
        forall id: nat | Segment(id) in full.dir
          ensures Prefix(c, s'.work.disk.dir[Segment(id)]) == Prefix(c, s.work.disk.dir[Segment(id)])
          ensures s.work.disk.dir[Segment(id)] == s'.work.disk.dir[Segment(id)] <==>
            a == a' || !BareFile(c, now', id, f.dir[Segment(id)]) || (id != a && id != a')
        {
          CompareFile(c, now, now', a, a', id, full.dir[Segment(id)], f.dir[Segment(id)]);
        }
        if SameSegments(s.work.disk, s'.work.disk) && a != a' {
          assert Segment(a) in full.dir ==> s.work.disk.dir[Segment(a)] == s'.work.disk.dir[Segment(a)];
          assert Segment(a') in full.dir ==> s.work.disk.dir[Segment(a')] == s'.work.disk.dir[Segment(a')];
        }
      }
      SameBare(c, now', base, m, rest, d', NextFree(SegmentIds(e), m + 1), begun, a);
      SameBare(c, now', base, m, rest, d', NextFree(SegmentIds(e), m + 1), begun, a');
      AlikeActive(c, now, now', d, ids, d', ids', done, rest, begun);
    }
  }

  lemma {:induction false} AlikeActive(c: Codec, now: int, now': int, d: Disk, ids: seq<nat>, d': Disk, ids': seq<nat>, done: seq<bytes>, rest: seq<bytes>, begun: bool)
    requires Listing(d, ids) && ListedAscending(d, ids) && Listing(d', ids') && ListedAscending(d', ids')
    requires AddAll(d, MaxNormalId(ids), done).Some? && AddAll(d, MaxNormalId(ids), done + rest).Some? && (begun ==> rest != [])
    requires
      var e, m := AddAll(d, MaxNormalId(ids), done).value.0, AddAll(d, MaxNormalId(ids), done).value.1;
      && PartlyMended(c, now, ActiveOf(c, d, ids), e, BaseOf(d', begun, e, m))
      && AddAll(BaseOf(d', begun, e, m), m, rest).Some?
      && PartlyMended(c, now, ActiveOf(c, d, ids), AddAll(d, MaxNormalId(ids), done + rest).value.0, AddAll(BaseOf(d', begun, e, m), m, rest).value.0)
    ensures
      var full, f := AddAll(d, MaxNormalId(ids), done + rest).value, AddAll(BaseOf(d', begun, AddAll(d, MaxNormalId(ids), done).value.0, AddAll(d, MaxNormalId(ids), done).value.1), AddAll(d, MaxNormalId(ids), done).value.1, rest).value.0;
      var a, a' := ActiveOf(c, d, ids), ActiveOf(c, d', ids');
      && (Segment(a) in full.0.dir <==> Segment(a') in f.dir) && (Segment(a) !in full.0.dir ==> a == a')
      && Max(full.1, a) == Max(full.1, a')
  {
    ListingMax(d, ids);
    hide AddAll, ActiveOf, MaxNormalId, Listing, ListedAscending, NextFree, SegmentIds, BaseOf, Mended, IsMaxNormal;
    var m0 := MaxNormalId(ids);
    var e, m := AddAll(d, m0, done).value.0, AddAll(d, m0, done).value.1;
    var base := BaseOf(d', begun, e, m);
    var full, f := AddAll(d, m0, done + rest).value, AddAll(base, m, rest).value.0;
    AddAllMax(d, m0, done + rest);
    AddedKeeps(d, m0, done);
    PartlyNames(c, now, ActiveOf(c, d, ids), e, base);
    FoundNames(d, base, m, rest, d', begun, e);
    // Either both runs find their active segment, or both create segment 1.
    assert
      var a, a' := ActiveOf(c, d, ids), ActiveOf(c, d', ids');
      && (Segment(a) in full.0.dir <==> Segment(a') in f.dir) && (Segment(a) !in full.0.dir ==> a == a' == 1)
      && Max(full.1, a) == Max(full.1, a') by {
      ActiveThere(c, d, ids);
      ActiveThere(c, d', ids');
      ListingMax(d, ids);
      AddedKeeps(d, MaxNormalId(ids), (done + rest));
      if NoNormal(d) {
        assert MaxNormalId(ids) == 0;
        FirstAdded(d, (done + rest));
      }
    }
  }

  /**
   * Opening in Repair mode, interrupted by a power loss at any named point, and opening in Repair mode again under a
   * later clock that takes no header for one of the future that the first did, or the other way round: the outcome
   * is that of an uninterrupted opening, with the same segments and the same replay of each. The bytes are the same
   * too, unless the rerun makes another segment active and one of the two has a torn tail without stranded frames.
   */
  lemma {:induction false} RerunReachesSame(c: Codec, now: int, now': int, d: Disk, ids: seq<nat>, p: Disk, d': Disk, ids': seq<nat>)
    requires Repairable(c, now, d) && SameClocks(d, now, now') && Listing(d, ids)
    requires p in RepairPoints(c, now, d, ids) && CrashOf(p, d') && Listing(d', ids')
    ensures ListedAscending(d, ids) && ListedAscending(d', ids')
    ensures
      var once, again := Open(c, Repair, now, d, ids), Open(c, Repair, now', d', ids');
      var a, a' := ActiveOf(c, d, ids), ActiveOf(c, d', ids');
      && SameOpening(c, once, again)
      && (once.Running? ==>
            (SameSegments(once.db.disk, again.db.disk) <==> a == a' || !(BareTail(c, now', d', a) || BareTail(c, now', d', a'))))
  {
    ListingAscends(d, ids);
    ListingAscends(d', ids');
    hide Repairable, SameClocks, RepairPoints, CrashOf, Halted, SameOpening, SameSegments, BareTail, PassAll, Seed, SameReplay, MaxNormalId;
    var k, begun := HaltedRun(c, now, d, ids, p, d');
    SettlesAlike(c, now, now', d, ids, d', ids', k, begun);
    OutcomesSame(c, now', d, ids, d', ids', PassAll(c, d, ids).merge, PassAll(c, d', ids').merge, SettledBy(c, now, d, ids), SettledBy(c, now', d', ids'));
  }

  lemma {:induction false} OutcomesSame(c: Codec, now': int, d: Disk, ids: seq<nat>, d': Disk, ids': seq<nat>, g: Merge, g': Merge, s: Settled, s': Settled)
    requires ListedAscending(d, ids) && ListedAscending(d', ids') && SettledAlike(c, now', d, ids, d', ids', s, s')
    ensures
      var a, a' := ActiveOf(c, d, ids), ActiveOf(c, d', ids');
      var once, again := Seed(g, a, s), Seed(g', a', s');
      && SameOpening(c, once, again)
      && (once.Running? ==>
            again.Running? &&
            (SameSegments(once.db.disk, again.db.disk) <==> a == a' || !(BareTail(c, now', d', a) || BareTail(c, now', d', a'))))
  {
    var a, a' := ActiveOf(c, d, ids), ActiveOf(c, d', ids');
    if s.error.None? {
      assert SameOpening(c, Seed(g, a, s), Seed(g', a', s'));
      assert
        var o, o' := Seed(g, a, s), Seed(g', a', s');
        o.Running? && o'.Running? ==> (SameSegments(o.db.disk, o'.db.disk) <==> SameSegments(s.work.disk, s'.work.disk));
    }
  }
}
