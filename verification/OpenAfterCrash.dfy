/**
 * Default recovery on any disk an outage can leave behind: it refuses, or rebuilds the history and a prefix of
 * the write that was in flight; and at every point of it the disk still holds that history.
 */
module OpenAfterCrash {
  import opened Wrappers
  import opened Bytes
  import opened Types
  import opened Frames
  import opened Index
  import opened LogMerge
  import opened Disk
  import opened GroupCommit
  import opened FlushIndex
  import opened Flusher
  import opened Resync
  import opened Recovery
  import opened Shelves
  import opened ShelfReplay

  /**
   * A running engine that serves the durable records of `ss` and those of `extra`, which it found whole in the
   * newest segment although they may not be durable.
   */
  ghost predicate Ready(c: Codec, db: Db, ss: seq<Shelf>, extra: seq<Record>)
  {
    && ss != []
    && Shelved(c, db.disk, ss, extra, |EncodeAll(c, extra)|)
    && db.activeId == ss[|ss| - 1].id
    && db.activeSize == |EncodeAll(c, ss[|ss| - 1].recs)| + |EncodeAll(c, extra)|
    && !db.failed
    && db.segmentCounter > db.activeId
    && (!db.fileOpen ==> db.segmentCounter >= COMPACTION_ID_BASE)
    && db.nextSeq == |History(ss)| + |extra| + 1
    && Indexes(c, db.disk, db.idx, History(ss) + extra)
  }

  /** The active segment's directory entry is not durable. */
  ghost predicate Exposed(db: Db)
  {
    Segment(db.activeId) in db.disk.creates
  }

  /** A running engine whose disk, all of it durable, and indexes agree with `History(ss)`. */
  ghost predicate Idle(c: Codec, db: Db, ss: seq<Shelf>)
  {
    Ready(c, db, ss, []) && !Exposed(db)
  }

  /** The disk holds the records of `h`, and perhaps some of `inflight` behind them, the last one torn. */
  ghost predicate Recoverable(c: Codec, d: Disk, h: seq<Record>, inflight: seq<Record>)
  {
    exists ss, extra, t :: Shelved(c, d, ss, extra, t) && h <= History(ss) && History(ss) + extra <= h + inflight
  }

  // ---------- The active segment is the newest one ----------

  lemma {:induction false} MaxSeqConsecutive(rs: seq<Record>, first: nat)
    requires Consecutive(rs, first)
    ensures rs != [] ==> MaxSeq(rs) == first + |rs| - 1
    decreases |rs|
  {
    if |rs| > 1 {
      MaxSeqConsecutive(rs[1..], first + 1);
    }
  }

  lemma {:induction false} ChoiceOnShelves(ss: seq<Shelf>)
    requires Consecutive(History(ss), 1)
    requires forall i, j :: 0 <= i < j < |ss| ==> ss[i].id < ss[j].id
    ensures ss != [] ==> Newest(SummariesOf(ss)) == Some(SummaryOf(ss[|ss| - 1]))
    ensures
      var recent := MostRecent(SummariesOf(ss));
      if History(ss) == [] then recent == None
      else recent.Some? && recent.value.maxSeq == |History(ss)|
           && (ss[|ss| - 1].recs != [] ==> recent == Some(SummaryOf(ss[|ss| - 1])))
  {
    hide Consecutive, MaxSeq;
    if ss != [] {
      var init, s := ss[..|ss| - 1], ss[|ss| - 1];
      ConsecutiveConcat(History(init), s.recs, 1);
      ChoiceOnShelves(init);
      MaxSeqConsecutive(s.recs, |History(init)| + 1);
      var sums := SummariesOf(ss);
      assert sums[..|sums| - 1] == SummariesOf(init);
      assert sums[|sums| - 1] == SummaryOf(s);
    }
  }

  // ---------- Settling the one possible tear ----------

  /** Nothing is pending: the state of a disk right after a crash, and right after recovery. */
  ghost predicate Quiet(d: Disk)
  {
    && WellFormed(d)
    && d.creates == {} && d.unlinks == map[]
    && (forall p :: p in d.dir ==> d.durable[p] == |d.dir[p]|)
  }

  /** Nothing happens to the segments of `d`, as far as replay and durability go. */
  ghost predicate SameShelves(d: Disk, d': Disk)
  {
    && WellFormed(d')
    && (forall id: nat :: Segment(id) in d'.dir <==> Segment(id) in d.dir)
    && (forall id: nat :: Segment(id) in d.dir && Segment(id) in d.durable && Segment(id) in d'.durable ==>
          d'.dir[Segment(id)] == d.dir[Segment(id)] && d'.durable[Segment(id)] == d.durable[Segment(id)])
    && (forall id: nat :: Segment(id) in d'.creates ==> Segment(id) in d.creates)
    && (forall p :: p in d'.unlinks ==> p in d.unlinks && d'.unlinks[p] == d.unlinks[p])
  }

  lemma {:induction false} SameShelved(c: Codec, d: Disk, d': Disk, ss: seq<Shelf>, extra: seq<Record>, t: nat)
    requires Shelved(c, d, ss, extra, t) && SameShelves(d, d')
    ensures Shelved(c, d', ss, extra, t)
  {
    hide EncodeAll, Sound;
    assert forall i :: 0 <= i < |ss| - 1 ==> FullShelf(c, d, ss[i]) ==> FullShelf(c, d', ss[i]);
  }

  lemma {:induction false} NoSegmentUnlinks(c: Codec, d: Disk, ss: seq<Shelf>, extra: seq<Record>, t: nat)
    requires Shelved(c, d, ss, extra, t)
    ensures forall id :: Segment(id) !in d.unlinks
  {
    hide Sound, FullShelf, TopShelf;
  }

  lemma {:induction false} SideAppend(d0: Disk, d: Disk, p: Path, content: bytes)
    requires SameShelves(d0, d) && !p.Segment? && p in d.dir
    ensures SameShelves(d0, Append(d, p, content)) && p in Append(d, p, content).dir
  {
  }

  lemma {:induction false} SideSync(d0: Disk, d: Disk, p: Path)
    requires SameShelves(d0, d) && !p.Segment? && p in d.dir
    ensures SameShelves(d0, Sync(d, p)) && p in Sync(d, p).dir
  {
  }

  lemma {:induction false} SideDirSync(d0: Disk, d: Disk)
    requires SameShelves(d0, d)
    ensures SameShelves(d0, DirSync(d))
  {
  }

  /** Writing a file that is no segment leaves the segments alone at each of its points. */
  lemma {:induction false} SideFile(d: Disk, p: Path, content: bytes)
    requires WellFormed(d) && !p.Segment?
    ensures |DurablyPoints(d, p, content)| == 4 && forall i :: 0 <= i < 4 ==> SameShelves(d, DurablyPoints(d, p, content)[i])
    ensures
      var d' := WriteDurably(d, p, content);
      && d' == DurablyPoints(d, p, content)[3]
      && SameShelves(d, d') && d'.creates == {} && d'.unlinks == map[]
      && (Quiet(d) ==> Quiet(d'))
      && p in d'.dir && d'.dir[p] == content
      && (forall q :: q != p && q in d.dir ==> q in d'.dir && d'.dir[q] == d.dir[q])
  {
    assert [] + content == content;
    assert SameShelves(d, Create(d, p)) && p in Create(d, p).dir;
    var d1 := Create(d, p);
    SideAppend(d, d1, p, content);
    var d2 := Append(d1, p, content);
    SideSync(d, d2, p);
    var d3 := Sync(d2, p);
    SideDirSync(d, d3);
    assert DurablyPoints(d, p, content) == [d1, d2, d3, DirSync(d3)];
  }

  lemma {:induction false} FoundFacts(c: Codec, d: Disk, ss: seq<Shelf>, extra: seq<Record>, t: nat)
    requires Shelved(c, d, ss, extra, t)
    ensures
      var found := Found(c, ss, extra, t);
      && Sound(c, History(found))
      && History(found) == History(ss) + extra[..WholeFrames(c, extra, t)]
      && |found| == |ss|
      && (forall i :: 0 <= i < |ss| ==> found[i].id == ss[i].id)
  {
    hide Writable, FullShelf, TopShelf;
    var h := History(Found(c, ss, extra, t));
    assert forall i :: 0 <= i < |h| ==> h[i] == (History(ss) + extra)[i];
  }

  /** Cutting the newest segment back to its whole frames settles the torn write. */
  lemma {:induction false} CutToFound(c: Codec, d: Disk, d': Disk, ss: seq<Shelf>, extra: seq<Record>, t: nat)
    requires ss != [] && Shelved(c, d, ss, extra, t)
    requires WellFormed(d') && d'.creates == {} && d'.unlinks == map[]
    requires
      var top := Segment(ss[|ss| - 1].id);
      var found := Found(c, ss, extra, t)[|ss| - 1].recs;
      && (forall id: nat :: Segment(id) in d'.dir <==> Segment(id) in d.dir)
      && (forall id: nat :: Segment(id) in d.dir && Segment(id) != top && Segment(id) in d.durable && Segment(id) in d'.durable ==>
            d'.dir[Segment(id)] == d.dir[Segment(id)] && d'.durable[Segment(id)] == d.durable[Segment(id)])
      && top in d'.dir && d'.dir[top] == EncodeAll(c, found) && top in d'.durable && d'.durable[top] == |d'.dir[top]|
    ensures Shelved(c, d', Found(c, ss, extra, t), [], 0)
  {
    hide EncodeAll, Sound, WholeFrames;
    var found := Found(c, ss, extra, t);
    FoundFacts(c, d, ss, extra, t);
    assert History(found) + [] == History(found);
    FoundSegments(d, d', ss, found);
    forall i | 0 <= i < |found| - 1
      ensures FullShelf(c, d', found[i])
    {
      assert found[i] == ss[i] && FullShelf(c, d, ss[i]);
      assert ss[i].id < ss[|ss| - 1].id;
    }
    BareTop(c, d', found[|ss| - 1]);
  }

  lemma {:induction false} FoundSegments(d: Disk, d': Disk, ss: seq<Shelf>, found: seq<Shelf>)
    requires OnlySegments(d, ss) && (forall id :: Segment(id) !in d'.unlinks)
    requires |found| == |ss| && forall i :: 0 <= i < |ss| ==> found[i].id == ss[i].id
    requires forall id :: Segment(id) in d'.dir <==> Segment(id) in d.dir
    ensures OnlySegments(d', found)
  {
    forall id
      ensures Segment(id) in d'.dir <==> exists i :: 0 <= i < |found| && found[i].id == id
    {
      if i :| 0 <= i < |ss| && ss[i].id == id {
        assert found[i].id == id;
      }
      if i :| 0 <= i < |found| && found[i].id == id {
        assert ss[i].id == id;
      }
    }
  }

  lemma {:induction false} BareTop(c: Codec, d: Disk, s: Shelf)
    requires
      var p := Segment(s.id);
      p in d.dir && p in d.durable && p !in d.creates && d.durable[p] == |d.dir[p]| && d.dir[p] == EncodeAll(c, s.recs)
    ensures TopShelf(c, d, s, [], 0)
  {
    assert EncodeAll(c, s.recs) + EncodeAll(c, [])[..0] == EncodeAll(c, s.recs);
  }

  lemma {:induction false} TopWritable(c: Codec, ss: seq<Shelf>, extra: seq<Record>)
    requires ss != [] && AllWritable(c, History(ss) + extra)
    ensures AllWritable(c, ss[|ss| - 1].recs + extra)
  {
    hide AllWritable, History;
    var init, top := ss[..|ss| - 1], ss[|ss| - 1];
    HistoryLast(ss);
    assert History(ss) + extra == History(init) + (top.recs + extra);
    WritableConcat(c, History(init), top.recs + extra);
  }

  lemma {:induction false} SoundPrefix(c: Codec, a: seq<Record>, b: seq<Record>)
    requires Sound(c, a + b)
    ensures Sound(c, a)
  {
    hide AllWritable, Consecutive;
    WritableConcat(c, a, b);
    ConsecutiveConcat(a, b, 1);
  }

  /** Without a tear the frames behind the durable ones are whole. */
  lemma {:induction false} WholeTail(c: Codec, d: Disk, ss: seq<Shelf>, extra: seq<Record>, t: nat)
    requires c.Lawful() && ss != [] && Shelved(c, d, ss, extra, t) && TearsOf(c, ss, extra, t) == []
    ensures
      var kept := extra[..WholeFrames(c, extra, t)];
      && Shelved(c, d, ss, kept, |EncodeAll(c, kept)|)
      && d.dir[Segment(ss[|ss| - 1].id)] == EncodeAll(c, ss[|ss| - 1].recs + kept)
  {
    hide WholeFrames, Sound, FullShelf, OnlySegments;
    var n, top := WholeFrames(c, extra, t), ss[|ss| - 1];
    var kept := extra[..n];
    assert (History(ss) + kept) + extra[n..] == History(ss) + extra;
    SoundPrefix(c, History(ss) + kept, extra[n..]);
    CutHoldsWhole(c, extra, t);
    EncodeAllConcat(c, top.recs, kept);
    assert Found(c, ss, extra, t)[|ss| - 1].recs == top.recs + kept;
    hide EncodeAll;
    assert |EncodeAll(c, kept)| == t && EncodeAll(c, kept)[..t] == EncodeAll(c, kept);
  }

  /** What is found in a newest segment that is durable to its end belongs to the history. */
  lemma {:induction false} ReadyIdle(c: Codec, db: Db, ss: seq<Shelf>, extra: seq<Record>) returns (ss': seq<Shelf>)
    requires Ready(c, db, ss, extra) && !Exposed(db)
    requires
      var p := Segment(db.activeId);
      p in db.disk.dir && p in db.disk.durable && db.disk.durable[p] == |db.disk.dir[p]|
    ensures Idle(c, db, ss') && History(ss') == History(ss) + extra
  {
    hide Indexes, Sound, FullShelf, OnlySegments, EncodeAll;
    var init, top := ss[..|ss| - 1], ss[|ss| - 1];
    var longer := Shelf(top.id, top.recs + extra);
    ss' := init + [longer];
    HistoryLast(ss);
    assert History(init + [longer]) == History(init) + longer.recs;
    assert History(init) + (top.recs + extra) == History(ss) + extra;
    assert History(ss') + [] == History(ss');
    EncodeAllConcat(c, top.recs, extra);
    assert EncodeAll(c, extra)[..|EncodeAll(c, extra)|] == EncodeAll(c, extra);
    NoSegmentUnlinks(c, db.disk, ss, extra, |EncodeAll(c, extra)|);
    FoundSegments(db.disk, db.disk, ss, ss');
    BareTop(c, db.disk, longer);
    EmptyLog(c);
    assert forall i :: 0 <= i < |ss| - 1 ==> ss'[i] == ss[i];
  }
  /** A disk on the way through recovery: the torn write as it was, or cut back to its whole frames. */
  ghost predicate OnTheWay(c: Codec, d: Disk, ss: seq<Shelf>, extra: seq<Record>, t: nat)
  {
    Shelved(c, d, ss, extra, t) || Shelved(c, d, Found(c, ss, extra, t), [], 0)
  }

  /** What recovery makes of the newest segment: the whole frames stay as they are, or become durable with the cut. */
  ghost predicate Rebuilt(c: Codec, d: Disk, d': Disk, ss: seq<Shelf>, extra: seq<Record>, t: nat)
  {
    var kept := extra[..WholeFrames(c, extra, t)];
    || (d' == d && Shelved(c, d, ss, kept, |EncodeAll(c, kept)|))
    || (d'.creates == {} && d'.unlinks == map[] && Shelved(c, d', Found(c, ss, extra, t), [], 0))
  }

  /** Default mode on a torn write in the active segment: refused, or backed up and cut. */
  lemma {:induction false} SettleTop(c: Codec, now: int, w: Work, tear: Tear, active: nat)
    requires WellFormed(w.disk) && tear.segment == active
    requires tear.kind.TrailingTear? || tear.kind.PayloadTear?
    requires Segment(active) in w.disk.dir && tear.offset < |w.disk.dir[Segment(active)]|
    ensures
      var s := Settle(c, Default, now, active, w, tear);
      var points := SettlePoints(c, Default, now, active, w, tear);
      var file, p := w.disk.dir[Segment(active)], Segment(active);
      var side := TornBackup(active, tear.offset);
      if s.error.Some? then s.error.value.RecoveryRequired? && s.work == w && points == [] else
        && s.work.(disk := w.disk) == w
        && points == DurablyPoints(w.disk, side, file[tear.offset..]) + [s.work.disk]
        && p in WriteDurably(w.disk, side, file[tear.offset..]).dir
        && s.work.disk == TruncateSync(WriteDurably(w.disk, side, file[tear.offset..]), p, tear.offset)
  {
    hide StrandedAfter, WriteDurably;
    SideFile(w.disk, TornBackup(active, tear.offset), w.disk.dir[Segment(active)][tear.offset..]);
  }

  /** The cut disk: the active file ends at the tear, its tail is in the sidecar, nothing else has changed. */
  lemma {:induction false} CutDisk(d: Disk, active: nat, offset: nat)
    requires WellFormed(d) && Segment(active) in d.dir && offset <= |d.dir[Segment(active)]|
    ensures Segment(active) in WriteDurably(d, TornBackup(active, offset), d.dir[Segment(active)][offset..]).dir
    ensures
      var p, side, file := Segment(active), TornBackup(active, offset), d.dir[Segment(active)];
      var d' := TruncateSync(WriteDurably(d, side, file[offset..]), p, offset);
      && WellFormed(d') && d'.creates == {} && d'.unlinks == map[]
      && (Quiet(d) ==> Quiet(d'))
      && (forall id: nat :: Segment(id) in d'.dir <==> Segment(id) in d.dir)
      && (forall id: nat :: Segment(id) in d.dir && id != active ==>
            d'.dir[Segment(id)] == d.dir[Segment(id)] && d'.durable[Segment(id)] == d.durable[Segment(id)])
      && d'.dir[p] == file[..offset] && d'.durable[p] == offset
      && side in d'.dir && d'.dir[side] == file[offset..]
  {
    SideFile(d, TornBackup(active, offset), d.dir[Segment(active)][offset..]);
    hide WriteDurably, DurablyPoints;
  }

  /**
   * Default mode: there is no tear; or the tear hides what looks like frames and recovery refuses, leaving the
   * disk alone; or it is backed up and cut off. At each point the disk is on the way.
   */
  lemma {:induction false} SettleShelved(c: Codec, now: int, d: Disk, idx: Index, low: nat, high: nat, ss: seq<Shelf>, extra: seq<Record>, t: nat)
    requires c.Lawful() && ss != [] && Shelved(c, d, ss, extra, t)
    ensures
      var top, w, tears := ss[|ss| - 1].id, Work(d, idx, low, high), TearsOf(c, ss, extra, t);
      var s, points := SettleAll(c, Default, now, top, w, tears), SettleAllPoints(c, Default, now, top, w, tears);
      && (forall i :: 0 <= i < |points| ==> OnTheWay(c, points[i], ss, extra, t))
      && if s.error.Some? then
           s.error.value.RecoveryRequired? && s.work.disk == d
         else
           s.work.(disk := d) == w && Rebuilt(c, d, s.work.disk, ss, extra, t)
  {
    hide EncodeAll, AllWritable, Scan, StrandedAfter, WholeFrames, WriteDurably, Layout, Settle, SettlePoints, Shelved;
    var top := ss[|ss| - 1];
    var tears := TearsOf(c, ss, extra, t);
    if tears == [] {
      WholeTail(c, d, ss, extra, t);
    } else {
      OneTear(c, d, ss, extra, t);
      assert tears[1..] == [];
      var w := Work(d, idx, low, high);
      SettleTop(c, now, w, tears[0], top.id);
      var s := Settle(c, Default, now, top.id, w, tears[0]);
      assert SettleAll(c, Default, now, top.id, w, tears) == s;
      assert SettleAllPoints(c, Default, now, top.id, w, tears) == SettlePoints(c, Default, now, top.id, w, tears[0]);
      if s.error.None? {
        var top := ss[|ss| - 1].id;
        var side, tail := TornBackup(top, tears[0].offset), d.dir[Segment(top)][tears[0].offset..];
        SideFile(d, side, tail);
        CutDisk(d, top, tears[0].offset);
        forall i | 0 <= i < 4
          ensures Shelved(c, DurablyPoints(d, side, tail)[i], ss, extra, t)
        {
          SameShelved(c, d, DurablyPoints(d, side, tail)[i], ss, extra, t);
        }
        CutToFound(c, d, TruncateSync(WriteDurably(d, side, tail), Segment(top), tears[0].offset), ss, extra, t);
      }
    }
  }

  /** The one tear there is, and the file it is in. */
  lemma {:induction false} OneTear(c: Codec, d: Disk, ss: seq<Shelf>, extra: seq<Record>, t: nat)
    requires c.Lawful() && ss != [] && Shelved(c, d, ss, extra, t) && TearsOf(c, ss, extra, t) != []
    ensures
      var top, tears := ss[|ss| - 1].id, TearsOf(c, ss, extra, t);
      && WellFormed(d) && |tears| == 1 && tears[0].segment == top
      && (tears[0].kind.TrailingTear? || tears[0].kind.PayloadTear?)
      && Segment(top) in d.dir && tears[0].offset < |d.dir[Segment(top)]|
      && d.dir[Segment(top)][..tears[0].offset] == EncodeAll(c, Found(c, ss, extra, t)[|ss| - 1].recs)
  {
    hide EncodeAll, AllWritable, Scan, WholeFrames, Layout;
    TopWritable(c, ss, extra);
    ScanShelf(c, d.dir[Segment(ss[|ss| - 1].id)], ss[|ss| - 1].recs, extra, t);
  }

  lemma {:induction false} ShelvedFiles(c: Codec, d: Disk, ss: seq<Shelf>, extra: seq<Record>, t: nat)
    requires Shelved(c, d, ss, extra, t)
    ensures forall i :: 0 <= i < |ss| ==> HoldsShelf(c, d, ss[i])
    ensures ss != [] ==> d.dir[Segment(ss[|ss| - 1].id)] == EncodeAll(c, ss[|ss| - 1].recs) + EncodeAll(c, extra)[..t]
  {
    hide Writable, EncodeAll;
    if ss != [] {
      assert forall i :: 0 <= i < |ss| - 1 ==> FullShelf(c, d, ss[i]);
    }
  }

  lemma {:induction false} EmptyIndexes(c: Codec, d: Disk)
    ensures Indexes(c, d, EMPTY_INDEX, [])
  {
    assert TimeEntries(EMPTY_INDEX.times) == {};
  }

  lemma {:induction false} OpenNothing(c: Codec, mode: Mode, now: int, d: Disk)
    ensures Open(c, mode, now, d, []) == Seed(EMPTY_MERGE, 1, Settled(Work(d, EMPTY_INDEX, 0, 0), None))
    ensures OpenPoints(c, mode, now, d, []) == OpenActivePoints(d, 1)
  {
    hide Seed, Scan, Settle, SettlePoints, OpenActive, OpenActivePoints;
    assert [] + OpenActivePoints(d, 1) == OpenActivePoints(d, 1);
  }

  /** A directory without segments: segment 1 is created durably and the database is empty. */
  lemma {:induction false} OpenEmpty(c: Codec, now: int, d: Disk)
    requires c.Lawful() && Shelved(c, d, [], [], 0)
    ensures
      var o := Open(c, Default, now, d, []);
      o.Running? && Idle(c, o.db, [Shelf(1, [])])
    ensures forall i :: 0 <= i < |OpenPoints(c, Default, now, d, [])| ==> Shelved(c, OpenPoints(c, Default, now, d, [])[i], [Shelf(1, [])], [], 0)
    ensures History([Shelf(1, [])]) == []
  {
    OpenNothing(c, Default, now, d);
    hide Open, OpenPoints;
    var d' := DirSync(Create(d, Segment(1)));
    assert
      && Segment(1) !in d.dir && History([Shelf(1, [])]) == []
      && Shelved(c, Create(d, Segment(1)), [Shelf(1, [])], [], 0)
      && Shelved(c, DirSync(Create(d, Segment(1))), [Shelf(1, [])], [], 0) by {
      var ss := [Shelf(1, [])];
      assert ss[..0] == [];
      EmptyLog(c);
      FirstSegment(d);
      EmptyTop(c, d, 1);
    }
    EmptyIndexes(c, d');
    EmptyLog(c);
  }

  lemma {:induction false} EmptyTop(c: Codec, d: Disk, id: nat)
    ensures
      var d' := Create(d, Segment(id));
      TopShelf(c, d', Shelf(id, []), [], 0) && TopShelf(c, DirSync(d'), Shelf(id, []), [], 0)
  {
    EmptyLog(c);
    assert EncodeAll(c, []) + EncodeAll(c, [])[..0] == EncodeAll(c, []);
  }

  lemma {:induction false} FirstSegment(d: Disk)
    requires OnlySegments(d, []) && WellFormed(d)
    ensures
      var d' := Create(d, Segment(1));
      && Segment(1) !in d.dir && WellFormed(d') && WellFormed(DirSync(d'))
      && OnlySegments(d', [Shelf(1, [])]) && OnlySegments(DirSync(d'), [Shelf(1, [])])
  {
    var ss, d' := [Shelf(1, [])], Create(d, Segment(1));
    forall id
      ensures Segment(id) in d'.dir <==> exists i :: 0 <= i < |ss| && ss[i].id == id
    {
      assert ss[0].id == 1;
    }
  }

  lemma {:induction false} EmptyLog(c: Codec)
    ensures EncodeAll(c, []) == []
  {
  }

  /**
   * What an opening yields. Refused: the disk as it was (or, out of segment ids, with the torn tail cut).
   * Running: the history and the whole frames of the write in flight, either just as they were found, or durable.
   */
  ghost predicate Outcomes(c: Codec, d: Disk, o: Opened, ss: seq<Shelf>, extra: seq<Record>, t: nat)
  {
    match o
    case Refused(disk, e) =>
      || (e.RecoveryRequired? && disk == d)
      || (e == OutOfSegmentIds && ss != [] && Rebuilt(c, d, disk, ss, extra, t))
    case Running(db) =>
      var kept := extra[..WholeFrames(c, extra, t)];
      || (db.disk == d && Ready(c, db, ss, kept))
      || exists ss' :: Idle(c, db, ss') && History(ss') == History(ss) + kept
  }

  /** Recovery of any disk an outage can leave behind, and the disk at each of its points. */
  lemma {:induction false} OpenShelved(c: Codec, now: int, d: Disk, ss: seq<Shelf>, extra: seq<Record>, t: nat)
    requires c.Lawful() && Shelved(c, d, ss, extra, t)
    ensures forall i :: 0 <= i < |ss| ==> Segment(IdsOf(ss)[i]) in d.dir
    ensures Outcomes(c, d, Open(c, Default, now, d, IdsOf(ss)), ss, extra, t)
    ensures
      var points := OpenPoints(c, Default, now, d, IdsOf(ss));
      forall i :: 0 <= i < |points| ==> Recoverable(c, points[i], History(ss), extra)
  {
    hide EncodeAll, SettleAll, SettleAllPoints, PassAll, TearsOf, WholeFrames, AllPlaces, Sound, Found, ChooseActive, MergeFrom, Ready, Rebuilt, OnTheWay;
    PassShelved(c, d, ss, extra, t);
    FoundActive(c, d, ss, extra, t);
    if ss == [] {
      OpenEmpty(c, now, d);
      assert History([]) == [];
    } else {
      var top, found := ss[|ss| - 1].id, Found(c, ss, extra, t);
      var w := Work(d, MergeAll(c, AllPlaces(c, found)).idx, MaxNormalId(IdsOf(ss)), MaxId(IdsOf(ss)));
      assert
        var top := ss[|ss| - 1].id;
        var found := Found(c, ss, extra, t);
        Outcomes(c, w.disk, Seed(MergeAll(c, AllPlaces(c, found)), top, SettleAll(c, Default, now, top, w, TearsOf(c, ss, extra, t))), ss, extra, t) by {
        var top := ss[|ss| - 1].id;
        var found := Found(c, ss, extra, t);
        var m := MergeAll(c, AllPlaces(c, found));
        SettleShelved(c, now, w.disk, w.idx, w.maxNormal, w.maxSegment, ss, extra, t);
        var s := SettleAll(c, Default, now, top, w, TearsOf(c, ss, extra, t));
        if s.error.None? {
          var d' := s.work.disk;
          var next: nat := Max(w.maxNormal, top) + 1;
          RunningRebuilt(c, w.disk, d', ss, extra, t, next, Max(w.maxSegment + 1, COMPACTION_ID_BASE));
        }
      }
      SettleShelved(c, now, d, w.idx, w.maxNormal, w.maxSegment, ss, extra, t);
      SettledHasTop(c, now, w, ss, extra, t);
      var points := OpenPoints(c, Default, now, d, IdsOf(ss));
      assert points == SettleAllPoints(c, Default, now, top, w, TearsOf(c, ss, extra, t));
      forall i | 0 <= i < |points|
        ensures Recoverable(c, points[i], History(ss), extra)
      {
        WayRecoverable(c, points[i], d, ss, extra, t);
      }
    }
  }

  lemma {:induction false} WayRecoverable(c: Codec, d': Disk, d: Disk, ss: seq<Shelf>, extra: seq<Record>, t: nat)
    requires OnTheWay(c, d', ss, extra, t) && Shelved(c, d, ss, extra, t)
    ensures Recoverable(c, d', History(ss), extra)
  {
    hide Shelved, WholeFrames;
    FoundFacts(c, d, ss, extra, t);
    var found, n := Found(c, ss, extra, t), WholeFrames(c, extra, t);
    assert History(found) + [] <= History(ss) + extra;
  }

  lemma {:induction false} SettledHasTop(c: Codec, now: int, w: Work, ss: seq<Shelf>, extra: seq<Record>, t: nat)
    requires c.Lawful() && ss != [] && Shelved(c, w.disk, ss, extra, t)
    ensures
      var top := ss[|ss| - 1].id;
      var s := SettleAll(c, Default, now, top, w, TearsOf(c, ss, extra, t));
      s.error.None? ==> Segment(top) in s.work.disk.dir
  {
    SettleShelved(c, now, w.disk, w.idx, w.maxNormal, w.maxSegment, ss, extra, t);
    var s := SettleAll(c, Default, now, ss[|ss| - 1].id, w, TearsOf(c, ss, extra, t));
  }

  lemma {:induction false} FoundActive(c: Codec, d: Disk, ss: seq<Shelf>, extra: seq<Record>, t: nat)
    requires Shelved(c, d, ss, extra, t)
    ensures ChooseActive(SummariesOf(Found(c, ss, extra, t))) == if ss == [] then 1 else ss[|ss| - 1].id
  {
    FoundFacts(c, d, ss, extra, t);
    ChoiceOnShelves(Found(c, ss, extra, t));
    if ss == [] {
      assert Found(c, ss, extra, t) == [];
    }
  }

  /** The engine recovery builds on the rebuilt disk. */
  lemma {:induction false} RunningRebuilt(c: Codec, d: Disk, d': Disk, ss: seq<Shelf>, extra: seq<Record>, t: nat, next: nat, compaction: nat)
    requires c.Lawful() && ss != [] && Shelved(c, d, ss, extra, t) && Rebuilt(c, d, d', ss, extra, t)
    requires next > ss[|ss| - 1].id
    ensures
      var m := MergeAll(c, AllPlaces(c, Found(c, ss, extra, t)));
      var top, kept := ss[|ss| - 1].id, extra[..WholeFrames(c, extra, t)];
      && Segment(top) in d'.dir
      && var db := Db(d', m.idx, m.highest + 1, top, |d'.dir[Segment(top)]|, true, false, next, compaction);
         || (d' == d && Ready(c, db, ss, kept))
         || exists ss' :: Idle(c, db, ss') && History(ss') == History(ss) + kept
  {
    hide EncodeAll, Indexes, AllPlaces, MergeFrom, WholeFrames, Shelved;
    FoundFacts(c, d, ss, extra, t);
    var found, kept := Found(c, ss, extra, t), extra[..WholeFrames(c, extra, t)];
    if d' == d && Shelved(c, d, ss, kept, |EncodeAll(c, kept)|) {
      assert forall i :: 0 <= i < |found| ==> HoldsShelf(c, d, found[i]) by {
        var top := ss[|ss| - 1];
        ShelvedFiles(c, d, ss, kept, |EncodeAll(c, kept)|);
        EncodeAllConcat(c, top.recs, kept);
        assert EncodeAll(c, kept)[..|EncodeAll(c, kept)|] == EncodeAll(c, kept);
        assert forall i :: 0 <= i < |ss| - 1 ==> found[i] == ss[i];
      }
      MergeIndexes(c, d, found);
      ShelvedFiles(c, d, ss, kept, |EncodeAll(c, kept)|);
    } else {
      ShelvedFiles(c, d', found, [], 0);
      MergeIndexes(c, d', found);
      assert History(found) + [] == History(found);
      EmptyLog(c);
      assert EncodeAll(c, found[|ss| - 1].recs) + [] == EncodeAll(c, found[|ss| - 1].recs);
      var m := MergeAll(c, AllPlaces(c, found));
      var db := Db(d', m.idx, m.highest + 1, found[|ss| - 1].id, |d'.dir[Segment(found[|ss| - 1].id)]|, true, false, next, compaction);
      assert Idle(c, db, found);
    }
  }
}
