/**
 * Repair that dies at a named point and is run again. The rerun lists the directory anew, finds the tears anew, and
 * may choose another active segment; it ends with the same segments all the same.
 */
module RepairRerun {
  import opened Wrappers
  import opened Bytes
  import opened Types
  import opened Frames
  import opened Index
  import opened LogMerge
  import opened Disk
  import opened FlushIndex
  import opened Flusher
  import opened Resync
  import opened Recovery
  import opened ShelfReplay
  import opened OpenAfterCrash
  import opened DiskView
  import opened FrameSets
  import opened Repair
  import opened RepairOutcome
  import opened RepairCrash

  // ---------- Two clocks ----------

  /** No header anywhere has a timestamp that one of the two clocks takes for the future and the other does not. */
  ghost predicate SameClock(file: bytes, now: int, now': int)
  {
    forall off: nat :: off + HEADER_LEN <= |file| ==> (TimeAt(file, off) <= now + DAY_MS <==> TimeAt(file, off) <= now' + DAY_MS)
  }

  ghost function TimeAt(file: bytes, off: nat): int
    requires off + HEADER_LEN <= |file|
  {
    DecodeHeader(file[off..off + HEADER_LEN]).timestamp
  }

  lemma {:induction false} SameValid(c: Codec, file: bytes, off: nat, now: int, now': int)
    requires SameClock(file, now, now')
    ensures ValidFrame(c, file, off, now) == ValidFrame(c, file, off, now')
    ensures TailLooksTorn(file, off, now) == TailLooksTorn(file, off, now')
  {
    hide FromBE, DecodeHeader;
    if off + HEADER_LEN <= |file| {
      assert TimeAt(file, off) <= now + DAY_MS <==> TimeAt(file, off) <= now' + DAY_MS;
    }
  }

  lemma {:induction false} SameCredible(c: Codec, file: bytes, pos: nat, now: int, now': int, minSeq: Option<nat>)
    requires SameClock(file, now, now')
    ensures FirstCredible(c, file, pos, now, minSeq) == FirstCredible(c, file, pos, now', minSeq)
    decreases |file| - pos
  {
    hide ValidFrame, TailLooksTorn, SameClock;
    SameValid(c, file, pos, now, now');
    if ValidFrame(c, file, pos, now).Some? {
      SameValid(c, file, pos + ValidFrame(c, file, pos, now).value.len, now, now');
    }
    if pos + HEADER_LEN <= |file| {
      SameCredible(c, file, pos + 1, now, now', minSeq);
    }
  }

  lemma {:induction false} SameRun(c: Codec, file: bytes, pos: nat, now: int, now': int, minSeq: Option<nat>, last: nat)
    requires SameClock(file, now, now')
    ensures Run(c, file, pos, now, minSeq, last) == Run(c, file, pos, now', minSeq, last)
    decreases |file| - pos
  {
    hide ValidFrame, SameClock;
    SameValid(c, file, pos, now, now');
    var f := ValidFrame(c, file, pos, now);
    if f.Some? {
      SameRun(c, file, pos + f.value.len, now, now', minSeq, f.value.seqId);
    }
  }

  /** Under such clocks the same frames are found behind a tear. */
  lemma {:induction false} SameStranded(c: Codec, file: bytes, id: nat, now: int, now': int)
    requires SameClock(file, now, now')
    ensures StrandedIn(c, now, id, file) == StrandedIn(c, now', id, file)
    ensures SavedFrom(c, now, id, file) == SavedFrom(c, now', id, file)
    ensures forall active :: Mended(c, now, active, id, file) == Mended(c, now', active, id, file)
  {
    hide Scan, Run, FirstCredible, RunBytes, SameClock;
    if Torn(c, file) {
      var t := TearIn(c, id, file);
      SameCredible(c, file, t.offset + 1, now, now', MinSeq(t));
      var pos := FirstCredible(c, file, t.offset + 1, now, MinSeq(t));
      if pos.Some? {
        SameRun(c, file, pos.value, now, now', MinSeq(t), LastSeq(MinSeq(t)));
      }
    }
  }

  ghost predicate SameClocks(d: Disk, now: int, now': int)
  {
    forall id: nat :: Segment(id) in d.dir ==> SameClock(d.dir[Segment(id)], now, now')
  }

  // ---------- The tears the rerun finds ----------

  /** The tears with frames stranded behind them. */
  ghost function WithSaves(c: Codec, now: int, d: Disk, ts: seq<Tear>): seq<Tear>
    requires forall t :: t in ts ==> Segment(t.segment) in d.dir
    decreases |ts|
  {
    if ts == [] then [] else
    (if SavedFrom(c, now, ts[0].segment, d.dir[Segment(ts[0].segment)]) == [] then [] else [ts[0]]) + WithSaves(c, now, d, ts[1..])
  }

  lemma {:induction false} WithSavesMember(c: Codec, now: int, d: Disk, ts: seq<Tear>)
    requires forall t :: t in ts ==> Segment(t.segment) in d.dir
    requires TearsAscend(ts)
    ensures
      var ws := WithSaves(c, now, d, ts);
      && (forall t :: t in ws <==> t in ts && SavedFrom(c, now, t.segment, d.dir[Segment(t.segment)]) != [])
      && TearsAscend(ws)
    decreases |ts|
  {
    hide SavedFrom;
    if ts != [] {
      assert forall i :: 0 <= i < |ts[1..]| ==> ts[1..][i] == ts[i + 1];
      WithSavesMember(c, now, d, ts[1..]);
      assert ts == [ts[0]] + ts[1..];
    }
  }

  lemma {:induction false} SavesOfThose(c: Codec, now: int, d: Disk, ts: seq<Tear>)
    requires forall t :: t in ts ==> Segment(t.segment) in d.dir
    ensures forall t :: t in WithSaves(c, now, d, ts) ==> t in ts
    ensures Saves(c, now, d, WithSaves(c, now, d, ts)) == Saves(c, now, d, ts)
    decreases |ts|
  {
    hide SavedFrom;
    if ts != [] {
      SavesOfThose(c, now, d, ts[1..]);
      var more := WithSaves(c, now, d, ts[1..]);
      if SavedFrom(c, now, ts[0].segment, d.dir[Segment(ts[0].segment)]) == [] {
        assert WithSaves(c, now, d, ts) == more;
        assert [] + Saves(c, now, d, ts[1..]) == Saves(c, now, d, ts[1..]);
      } else {
        assert WithSaves(c, now, d, ts) == [ts[0]] + more;
        assert ([ts[0]] + more)[1..] == more;
      }
    }
  }

  /** Ascending lists with the same elements are the same. */
  lemma {:induction false} SameAscending(a: seq<Tear>, b: seq<Tear>)
    requires TearsAscend(a) && TearsAscend(b) && forall t :: t in a <==> t in b
    ensures a == b
    decreases |a|
  {
    assert b != [] ==> b[0] in b;
    if a != [] {
      assert a[0] in b;
      assert b[0] in a;
      var i :| 0 <= i < |a| && a[i] == b[0];
      var j :| 0 <= j < |b| && b[j] == a[0];
      assert a[0] == b[0];
      TailMembers(a);
      TailMembers(b);
      SameAscending(a[1..], b[1..]);
      assert a == [a[0]] + a[1..] && b == [b[0]] + b[1..];
    }
  }

  lemma {:induction false} TailMembers(a: seq<Tear>)
    requires a != [] && TearsAscend(a)
    ensures TearsAscend(a[1..]) && forall t :: t in a[1..] <==> t in a && t != a[0]
  {
    assert forall i :: 0 <= i < |a[1..]| ==> a[1..][i] == a[i + 1];
    forall t | t in a && t != a[0]
      ensures t in a[1..]
    {
      var i :| 0 <= i < |a| && a[i] == t;
      assert a[1..][i - 1] == t;
    }
  }

  /** The files found after the power loss: a torn one is one of the torn files of `d`, and no settled salvage. */
  lemma {:induction false} HaltedFile(c: Codec, now: int, active: nat, d: Disk, m: nat, ts: seq<Tear>, k: nat, begun: bool, d': Disk, id: nat)
    requires Due(c, now, active, d, ts) && (forall t :: t in ts ==> Segment(t.segment) in d.dir) && AllClean(c, Saves(c, now, d, ts))
    requires forall j: nat :: Segment(j) in d.dir && Torn(c, d.dir[Segment(j)]) ==> exists t :: t in ts && t.segment == j
    requires Halted(c, now, active, d, m, ts, k, begun, d') && Segment(id) in d'.dir && Torn(c, d'.dir[Segment(id)])
    ensures exists i :: (
      0 <= i < |ts| && ts[i].segment == id && d'.dir[Segment(id)] == d.dir[Segment(id)]
      && (i < k ==> Mended(c, now, active, id, d.dir[Segment(id)]) == d.dir[Segment(id)]))
  {
    var e, m' := AddAll(d, m, Saves(c, now, d, ts[..k])).value.0, AddAll(d, m, Saves(c, now, d, ts[..k])).value.1;
    var target := NextFree(SegmentIds(e), m' + 1);
    AddedKeeps(d, m, Saves(c, now, d, ts[..k]));
    SavesParts(c, now, d, ts, k);
    hide AddAll, NextFree, SegmentIds, Mended, Torn, IsTear, Unmarked, Quiet, Saves;
    var b := if begun then Without(d', target) else d';
    if begun && id == target {
      SavedClean(c, now, d, ts, k);
      assert false;
    }
    assert Segment(id) in b.dir && b.dir[Segment(id)] == d'.dir[Segment(id)];
    var file := e.dir[Segment(id)];
    if Segment(id) !in d.dir {
      CleanStays(c, now, active, id, file);
      assert false;
    }
    MendedOnce(c, now, active, now, active, id, file);
    var t :| t in ts && t.segment == id;
    var i :| 0 <= i < |ts| && ts[i] == t;
  }

  lemma {:induction false} SavesParts(c: Codec, now: int, d: Disk, ts: seq<Tear>, k: nat)
    requires k <= |ts| && forall t :: t in ts ==> Segment(t.segment) in d.dir
    ensures Saves(c, now, d, ts) == Saves(c, now, d, ts[..k]) + Saves(c, now, d, ts[k..])
    decreases k
  {
    hide SavedFrom;
    if k == 0 {
      assert ts[0..] == ts && ts[..0] == [];
    } else {
      SavesParts(c, now, d, ts[1..], k - 1);
      assert ts[1..][..k - 1] == ts[..k][1..] && ts[1..][k - 1..] == ts[k..];
    }
  }

  lemma {:induction false} SavedClean(c: Codec, now: int, d: Disk, ts: seq<Tear>, k: nat)
    requires k < |ts| && (forall t :: t in ts ==> Segment(t.segment) in d.dir) && AllClean(c, Saves(c, now, d, ts))
    ensures forall s :: s in SavedFrom(c, now, ts[k].segment, d.dir[Segment(ts[k].segment)]) ==> !Torn(c, s)
  {
    hide SavedFrom, Torn;
    SavesParts(c, now, d, ts, k);
    assert Saves(c, now, d, ts[k..]) == SavedFrom(c, now, ts[k].segment, d.dir[Segment(ts[k].segment)]) + Saves(c, now, d, ts[k..][1..]);
  }

  /** What there was to settle. */
  ghost predicate Listed(c: Codec, d: Disk, ts: seq<Tear>)
  {
    && TearsAscend(ts)
    && (forall t :: t in ts ==> Segment(t.segment) in d.dir && IsTear(c, d, t))
    && (forall id: nat :: Segment(id) in d.dir && Torn(c, d.dir[Segment(id)]) ==> exists t :: t in ts && t.segment == id)
  }

  lemma {:induction false} PassListed(c: Codec, d: Disk, ids: seq<nat>)
    requires Listing(d, ids)
    ensures ListedAscending(d, ids) && Listed(c, d, PassAll(c, d, ids).tears)
  {
    PassLists(c, d, ids);
    hide PassAll, IsTear, Torn;
    var ts := PassAll(c, d, ids).tears;
    forall t | t in ts
      ensures Segment(t.segment) in d.dir
    {
      assert t.segment in ids;
    }
  }

  lemma {:induction false} LeftIn(c: Codec, now: int, now': int, active: nat, d: Disk, m: nat, ts: seq<Tear>, k: nat, begun: bool, d': Disk, ts': seq<Tear>)
    requires Listed(c, d, ts) && AllClean(c, Saves(c, now, d, ts)) && Halted(c, now, active, d, m, ts, k, begun, d')
    requires Due(c, now, active, d, ts) && SameClocks(d, now, now') && k <= |ts|
    requires forall t :: t in ts' ==> Segment(t.segment) in d'.dir && IsTear(c, d', t)
    ensures forall t :: t in ts' && SavedFrom(c, now', t.segment, d'.dir[Segment(t.segment)]) != [] ==>
      t in ts[k..] && Segment(t.segment) in d.dir && SavedFrom(c, now, t.segment, d.dir[Segment(t.segment)]) != []
  {
    hide Halted, AllClean, Due;
    forall t | t in ts' && SavedFrom(c, now', t.segment, d'.dir[Segment(t.segment)]) != []
      ensures t in ts[k..] && Segment(t.segment) in d.dir && SavedFrom(c, now, t.segment, d.dir[Segment(t.segment)]) != []
    {
      assert
        && t in ts[k..] && SavedFrom(c, now, t.segment, d.dir[Segment(t.segment)]) != [] && Segment(t.segment) in d.dir
        && d'.dir[Segment(t.segment)] == d.dir[Segment(t.segment)] by {
        HaltedFile(c, now, active, d, m, ts, k, begun, d', t.segment);
        var i :| 0 <= i < |ts| && ts[i].segment == t.segment && d'.dir[Segment(t.segment)] == d.dir[Segment(t.segment)]
          && (i < k ==> Mended(c, now, active, t.segment, d.dir[Segment(t.segment)]) == d.dir[Segment(t.segment)]);
        assert ts[i] in ts;
        SameStranded(c, d.dir[Segment(t.segment)], t.segment, now, now');
        assert Torn(c, d.dir[Segment(t.segment)]) && Mended(c, now, active, t.segment, d.dir[Segment(t.segment)]) != d.dir[Segment(t.segment)];
        assert ts[k..][i - k] == ts[i];
      }
    }
  }

  lemma {:induction false} LeftOut(c: Codec, now: int, now': int, active: nat, d: Disk, m: nat, ts: seq<Tear>, k: nat, begun: bool, d': Disk, ts': seq<Tear>)
    requires Listed(c, d, ts) && Halted(c, now, active, d, m, ts, k, begun, d') && Listed(c, d', ts')
    requires SameClocks(d, now, now') && k <= |ts| && forall t :: t in ts[k..] ==> Segment(t.segment) in d.dir
    ensures forall t :: t in ts[k..] && SavedFrom(c, now, t.segment, d.dir[Segment(t.segment)]) != [] ==>
      && t in ts' && Segment(t.segment) in d'.dir && d'.dir[Segment(t.segment)] == d.dir[Segment(t.segment)]
      && SavedFrom(c, now', t.segment, d'.dir[Segment(t.segment)]) != []
  {
    hide SavedFrom;
    forall t | t in ts[k..] && SavedFrom(c, now, t.segment, d.dir[Segment(t.segment)]) != []
      ensures t in ts' && Segment(t.segment) in d'.dir && d'.dir[Segment(t.segment)] == d.dir[Segment(t.segment)]
      ensures SavedFrom(c, now', t.segment, d'.dir[Segment(t.segment)]) != []
    {
      var i :| 0 <= i < |ts[k..]| && ts[k..][i] == t;
      assert
        && ts[(i + k)] in ts' && Segment(ts[(i + k)].segment) in d'.dir && d'.dir[Segment(ts[(i + k)].segment)] == d.dir[Segment(ts[(i + k)].segment)]
        && SavedFrom(c, now', ts[(i + k)].segment, d'.dir[Segment(ts[(i + k)].segment)]) != [] by {
        assert ts[(i + k)] in ts;
        SameStranded(c, d.dir[Segment(ts[(i + k)].segment)], ts[(i + k)].segment, now, now');
        var t :| t in ts' && t.segment == ts[(i + k)].segment;
      }
    }
  }

  lemma {:induction false} ListedTears(c: Codec, d: Disk, ts: seq<Tear>)
    requires Listed(c, d, ts)
    ensures TearsAscend(ts) && forall t :: t in ts ==> Segment(t.segment) in d.dir && IsTear(c, d, t)
  {
    hide IsTear, Torn;
  }

  lemma {:induction false} ClockSaves(c: Codec, now: int, now': int, d: Disk, ts: seq<Tear>)
    requires (forall t :: t in ts ==> Segment(t.segment) in d.dir) && SameClocks(d, now, now')
    ensures Saves(c, now', d, ts) == Saves(c, now, d, ts)
    decreases |ts|
  {
    hide SavedFrom, SameClock;
    if ts != [] {
      SameStranded(c, d.dir[Segment(ts[0].segment)], ts[0].segment, now, now');
      ClockSaves(c, now, now', d, ts[1..]);
    }
  }

  // ---------- Settling a tear whose salvage has begun ----------

  /** The salvage goes on towards the id in the marker. */
  lemma {:induction false} SettleResumed(c: Codec, now: int, active: nat, w: Work, t: Tear, target: nat)
    requires Quiet(w.disk) && IsTear(c, w.disk, t) && Underway(c, now, w.disk, t, target, w.disk)
    requires 0 < target && target != t.segment && |w.disk.dir[Segment(t.segment)]| < U64
    ensures
      var s, frames := Settle(c, Repair, now, active, w, t), SavedFrom(c, now, t.segment, w.disk.dir[Segment(t.segment)])[0];
      && s.error.None? && s.work.maxNormal == Max(w.maxNormal, target) && Quiet(s.work.disk)
      && SameSegments(AddFile(AddFile(w.disk, target, frames), t.segment, Mended(c, now, active, t.segment, w.disk.dir[Segment(t.segment)])), s.work.disk)
      && (forall j: nat, o: nat :: j != t.segment && SalvageMarker(j, o) in s.work.disk.dir ==> SalvageMarker(j, o) in w.disk.dir)
  {
    TearSaves(c, now, active, w.disk, t);
    assert Segment(t.segment) in w.disk.dir;
    hide SalvageTarget, MarkerBytes;
    var file, m := w.disk.dir[Segment(t.segment)], w.maxNormal;
    var d0, stranded := BackedUp(w.disk, t, file), StrandedAfter(c, file, t.offset, now, MinSeq(t));
    var frames := RunBytes(file, stranded);
    BackedUpSame(w.disk, t, file);
    SameFileIn(w.disk, d0, t.segment);
    var pos := FirstCredible(c, file, t.offset + 1, now, MinSeq(t));
    EmptyRun(file);
    if pos.Some? {
      RunSlice(c, file, pos.value, now, MinSeq(t), LastSeq(MinSeq(t)));
    }
    assert SalvageTarget(d0, SalvageMarker(t.segment, t.offset), m) == target by {
      MarkerRoundTrip(d0, SalvageMarker(t.segment, t.offset), target, |frames|);
      MarkedTarget(d0, SalvageMarker(t.segment, t.offset), m, target, |frames|);
    }
    SalvagedAs(d0, t.segment, t.offset, m, frames);
    StrandedSettle(c, now, active, w, t, frames);
    SameAdds(w.disk, d0, target, frames, t.segment, file[..t.offset], SalvageSteps(d0, t.segment, t.offset, m, frames).unmarked);
    MarkersStay(w.disk, d0, t.segment);
  }

  lemma {:induction false} MarkersStay(d: Disk, d0: Disk, segment: nat)
    requires OthersStay(d, d0, segment)
    ensures forall j: nat, o: nat :: j != segment && SalvageMarker(j, o) in d0.dir ==> SalvageMarker(j, o) in d.dir
  {
  }

  // ---------- Settling the tears after a salvage has begun ----------

  /** The first tear to save from is `t`, and no other is marked. */
  ghost predicate FirstIs(c: Codec, now: int, active: nat, d: Disk, ts: seq<Tear>, t: Tear, target: nat)
  {
    && Due(c, now, active, d, ts) && (forall x :: x in ts ==> Segment(x.segment) in d.dir)
    && AllClean(c, Saves(c, now, d, ts))
    && WithSaves(c, now, d, ts) != [] && WithSaves(c, now, d, ts)[0] == t
    && (forall x :: x in ts ==> x.segment != target)
    && (forall x :: x in ts && x != t ==> SalvageMarker(x.segment, x.offset) !in d.dir)
  }

  /** The salvage of `t` has begun towards the next free id. */
  ghost predicate Aimed(c: Codec, now: int, d: Disk, maxNormal: nat, t: Tear, target: nat, m: nat)
  {
    && Underway(c, now, d, t, target, d) && 0 < target
    && target == NextFree(SegmentIds(Without(d, target)), m + 1)
    && (maxNormal == m || maxNormal == Max(m, target))
    && |d.dir[Segment(t.segment)]| < U64
  }

  ghost predicate Resumable(c: Codec, now: int, active: nat, w: Work, ts: seq<Tear>, t: Tear, target: nat, m: nat)
  {
    Quiet(w.disk) && FirstIs(c, now, active, w.disk, ts, t, target) && Aimed(c, now, w.disk, w.maxNormal, t, target, m)
  }

  lemma {:induction false} SettleAllResumed(c: Codec, now: int, active: nat, w: Work, ts: seq<Tear>, t: Tear, target: nat, m: nat)
    requires Resumable(c, now, active, w, ts, t, target, m)
    ensures forall x :: x in ts ==> Segment(x.segment) in w.disk.dir
    ensures SettledAllAs(c, now, active, Without(w.disk, target), m, Saves(c, now, w.disk, ts), SettleAll(c, Repair, now, active, w, ts))
    decreases |ts|
  {
    FirstToSave(c, now, active, w, ts, t, target, m);
    assert forall x :: x in ts ==> Segment(x.segment) in w.disk.dir;
    hide Settle, SettledAllAs, Resumable, SavedFrom, Without, PartlyMended;
    var s, rest, saved := Settle(c, Repair, now, active, w, ts[0]), ts[1..], SavedFrom(c, now, ts[0].segment, w.disk.dir[Segment(ts[0].segment)]);
    var base, more := Without(w.disk, target), Saves(c, now, w.disk, rest);
    if ts[0] == t {
      // The salvage that had begun is finished.
      var rest, saved := ts[1..], SavedFrom(c, now, t.segment, w.disk.dir[Segment(t.segment)]);
      assert ts == [t] + rest;
      CleanHead(c, saved, Saves(c, now, w.disk, rest));
      assert IsTear(c, w.disk, t);
      OthersDistinct(t, rest);
      SettleResumed(c, now, active, w, t, target);
      var s := Settle(c, Repair, now, active, w, t);
      assert saved == [saved[0]];
      ResumedShape(c, now, active, w.disk, s.work.disk, t, target, saved[0]);
      DueStays(c, now, active, w.disk, s.work.disk, t, rest);
      SavesSame(c, now, w.disk, s.work.disk, rest);
      OneAdded(Without(w.disk, target), m, saved[0]);
      SettleAllFresh(c, now, active, s.work, rest);
      JoinSettled(c, now, active, base, m, saved, s.work.disk, s.work.maxNormal, more, SettleAll(c, Repair, now, active, s.work, rest));
    } else {
      BareHead(c, now, active, w, ts, t, target, m);
      SettleAllResumed(c, now, active, s.work, rest, t, target, m);
      JoinSettled(c, now, active, base, m, saved, Without(s.work.disk, target), m, more, SettleAll(c, Repair, now, active, s.work, rest));
    }
  }

  lemma {:induction false} FirstToSave(c: Codec, now: int, active: nat, w: Work, ts: seq<Tear>, t: Tear, target: nat, m: nat)
    requires Resumable(c, now, active, w, ts, t, target, m)
    ensures ts != [] && Segment(ts[0].segment) in w.disk.dir && ts == [ts[0]] + ts[1..]
    ensures forall x :: x in ts ==> Segment(x.segment) in w.disk.dir
    ensures ts[0] != t ==>
      SavedFrom(c, now, ts[0].segment, w.disk.dir[Segment(ts[0].segment)]) == [] && WithSaves(c, now, w.disk, ts) == WithSaves(c, now, w.disk, ts[1..])
  {
    hide Quiet, Due, AllClean, Saves, SavedFrom, Aimed;
  }

  lemma {:induction false} OthersDistinct(t: Tear, rest: seq<Tear>)
    requires DistinctSegments([t] + rest)
    ensures forall x :: x in rest ==> x.segment != t.segment && x != t
  {
    var ts := [t] + rest;
    forall x | x in rest
      ensures x.segment != t.segment
    {
      var i :| 0 <= i < |rest| && rest[i] == x;
      assert ts[i + 1] == x && ts[0] == t;
    }
  }

  lemma {:induction false} ResumedShape(c: Codec, now: int, active: nat, d: Disk, d': Disk, t: Tear, target: nat, frames: bytes)
    requires Segment(t.segment) in d.dir && target != t.segment && !Torn(c, frames)
    requires Segment(target) in d.dir ==> d.dir[Segment(target)] == frames
    requires SameSegments(AddFile(AddFile(d, target, frames), t.segment, Mended(c, now, active, t.segment, d.dir[Segment(t.segment)])), d')
    ensures OneMended(c, now, active, d, d', t.segment)
    ensures PartlyMended(c, now, active, AddFile(Without(d, target), target, frames), d')
  {
    hide Mended, Torn;
  }

  /** A tear without stranded frames comes before it. */
  lemma {:induction false} BareHead(c: Codec, now: int, active: nat, w: Work, ts: seq<Tear>, t: Tear, target: nat, m: nat)
    requires Resumable(c, now, active, w, ts, t, target, m) && ts != [] && ts[0] != t && Segment(ts[0].segment) in w.disk.dir
    requires SavedFrom(c, now, ts[0].segment, w.disk.dir[Segment(ts[0].segment)]) == []
    ensures
      var s, rest := Settle(c, Repair, now, active, w, ts[0]), ts[1..];
      && s.error.None? && Resumable(c, now, active, s.work, rest, t, target, m)
      && (forall x :: x in rest ==> Segment(x.segment) in s.work.disk.dir && Segment(x.segment) in w.disk.dir)
      && Saves(c, now, s.work.disk, rest) == Saves(c, now, w.disk, rest)
      && PartlyMended(c, now, active, Without(w.disk, target), Without(s.work.disk, target))
  {
    hide Settle, SavedFrom, IsTear, Saves, Quiet, Without, OneMended, PartlyMended, SegmentIds;
    BareFacts(c, now, active, w, ts[0], target);
    assert
      && Resumable(c, now, active, Settle(c, Repair, now, active, w, ts[0]).work, ts[1..], t, target, m)
      && (forall x :: x in ts[1..] ==> Segment(x.segment) in Settle(c, Repair, now, active, w, ts[0]).work.disk.dir && Segment(x.segment) in w.disk.dir)
      && Saves(c, now, Settle(c, Repair, now, active, w, ts[0]).work.disk, ts[1..]) == Saves(c, now, w.disk, ts[1..]) by {
      FirstStays(c, now, active, w.disk, Settle(c, Repair, now, active, w, ts[0]).work.disk, ts, t, target);
    }
  }

  lemma {:induction false} FirstStays(c: Codec, now: int, active: nat, d: Disk, d': Disk, ts: seq<Tear>, t: Tear, target: nat)
    requires FirstIs(c, now, active, d, ts, t, target) && ts != [] && ts[0] != t && Segment(ts[0].segment) in d.dir
    requires SavedFrom(c, now, ts[0].segment, d.dir[Segment(ts[0].segment)]) == [] && OneMended(c, now, active, d, d', ts[0].segment)
    requires forall j: nat, o: nat :: j != ts[0].segment && SalvageMarker(j, o) in d'.dir ==> SalvageMarker(j, o) in d.dir
    ensures FirstIs(c, now, active, d', ts[1..], t, target)
    ensures (forall x :: x in ts[1..] ==> Segment(x.segment) in d'.dir && Segment(x.segment) in d.dir)
    ensures Saves(c, now, d', ts[1..]) == Saves(c, now, d, ts[1..])
    ensures Segment(t.segment) in d.dir && Segment(t.segment) in d'.dir && d'.dir[Segment(t.segment)] == d.dir[Segment(t.segment)]
  {
    var u, rest := ts[0], ts[1..];
    assert ts == [u] + rest;
    hide SavedFrom, AllClean, Saves, OneMended, Due, FirstIs;
    RestOf(c, now, active, d, ts, t, target);
    DueStays(c, now, active, d, d', u, rest);
    SavesSame(c, now, d, d', rest);
    WithSavesSame(c, now, d, d', rest);
  }

  /** What is known of the tears after the first. */
  lemma {:induction false} RestOf(c: Codec, now: int, active: nat, d: Disk, ts: seq<Tear>, t: Tear, target: nat)
    requires FirstIs(c, now, active, d, ts, t, target) && ts != [] && ts[0] != t && Segment(ts[0].segment) in d.dir
    requires SavedFrom(c, now, ts[0].segment, d.dir[Segment(ts[0].segment)]) == []
    ensures
      var rest := ts[1..];
      && Due(c, now, active, d, ts)
      && (forall x :: x in rest ==> Segment(x.segment) in d.dir && x.segment != ts[0].segment && x.segment != target)
      && AllClean(c, Saves(c, now, d, rest))
      && WithSaves(c, now, d, rest) != [] && WithSaves(c, now, d, rest)[0] == t && t in rest
      && (forall x :: x in rest && x != t ==> SalvageMarker(x.segment, x.offset) !in d.dir)
  {
    var u, rest := ts[0], ts[1..];
    assert ts == [u] + rest;
    assert DistinctSegments(ts);
    hide SavedFrom, AllClean, Due;
    OthersDistinct(u, rest);
    CleanHead(c, SavedFrom(c, now, u.segment, d.dir[Segment(u.segment)]), Saves(c, now, d, rest));
    SavesOfThose(c, now, d, rest);
    assert WithSaves(c, now, d, ts) == WithSaves(c, now, d, rest);
    assert t in WithSaves(c, now, d, rest);
  }

  /** What settling a tear without stranded frames changes. */
  lemma {:induction false} BareFacts(c: Codec, now: int, active: nat, w: Work, u: Tear, target: nat)
    requires Quiet(w.disk) && IsTear(c, w.disk, u) && SalvageMarker(u.segment, u.offset) !in w.disk.dir && u.segment != target
    requires Segment(u.segment) in w.disk.dir && SavedFrom(c, now, u.segment, w.disk.dir[Segment(u.segment)]) == []
    ensures
      var s := Settle(c, Repair, now, active, w, u);
      var d, d' := w.disk, s.work.disk;
      && s.error.None? && s.work.maxNormal == w.maxNormal && Quiet(d') && OneMended(c, now, active, d, d', u.segment)
      && (forall j: nat, o: nat :: SalvageMarker(j, o) in d.dir ==>
            SalvageMarker(j, o) in d'.dir && d'.dir[SalvageMarker(j, o)] == d.dir[SalvageMarker(j, o)])
      && (forall j: nat, o: nat :: j != u.segment && SalvageMarker(j, o) in d'.dir ==> SalvageMarker(j, o) in d.dir)
      && SegmentIds(Without(d', target)) == SegmentIds(Without(d, target))
      && PartlyMended(c, now, active, Without(d, target), Without(d', target))
      && (Segment(target) in d'.dir <==> Segment(target) in d.dir)
      && (Segment(target) in d.dir ==> d'.dir[Segment(target)] == d.dir[Segment(target)])
  {
    SettleFresh(c, now, active, w, u);
    var s := Settle(c, Repair, now, active, w, u);
    hide Settle, SavedFrom, IsTear, Mended, Torn, AddAll, SegmentIds, Quiet, Without, PartlyMended;
    SettledShape(c, now, active, w, u, s);
    NamesKept(c, now, active, w.disk, u, s.work.disk, target);
    MarkersStay(w.disk, s.work.disk, u.segment);
  }

  lemma {:induction false} NamesKept(c: Codec, now: int, active: nat, d: Disk, u: Tear, d': Disk, target: nat)
    requires Segment(u.segment) in d.dir && u.segment != target
    requires SameSegments(AddFile(d, u.segment, Mended(c, now, active, u.segment, d.dir[Segment(u.segment)])), d')
    ensures SegmentIds(Without(d', target)) == SegmentIds(Without(d, target))
    ensures PartlyMended(c, now, active, Without(d, target), Without(d', target))
    ensures (Segment(target) in d'.dir <==> Segment(target) in d.dir) && (Segment(target) in d.dir ==> d'.dir[Segment(target)] == d.dir[Segment(target)])
  {
    hide Mended, SegmentIds;
    SameNamesIds(Without(d', target), Without(d, target));
  }

  lemma {:induction false} WithSavesSame(c: Codec, now: int, d: Disk, d': Disk, ts: seq<Tear>)
    requires forall t :: t in ts ==> Segment(t.segment) in d.dir && Segment(t.segment) in d'.dir
    requires forall t :: t in ts ==> d'.dir[Segment(t.segment)] == d.dir[Segment(t.segment)]
    ensures WithSaves(c, now, d', ts) == WithSaves(c, now, d, ts)
    decreases |ts|
  {
    hide SavedFrom;
    if ts != [] {
      WithSavesSame(c, now, d, d', ts[1..]);
    }
  }
}
