/** Every disk state a group commit passes through, and its result, described by the history. */
module CommitSafety {
  import opened Wrappers
  import opened Bytes
  import opened Types
  import opened Frames
  import opened Index
  import opened LogMerge
  import opened Disk
  import opened GroupCommit
  import opened FlushIndex
  import opened Flusher
  import opened Recovery
  import opened Shelves
  import opened ShelfReplay
  import opened OpenAfterCrash

  /**
   * A running engine none of whose segments is pending serves everything acknowledged (`h`) and what it found
   * of the last write when it was opened (`inflight`, durable or not).
   */
  ghost predicate Serving(c: Codec, db: Db, h: seq<Record>, inflight: seq<Record>)
  {
    exists ss, extra :: Ready(c, db, ss, extra) && !Exposed(db) && h <= History(ss) && History(ss) + extra == h + inflight
  }

  lemma {:induction false} Weaken(c: Codec, d: Disk, h1: seq<Record>, i1: seq<Record>, h: seq<Record>, i: seq<Record>)
    requires Recoverable(c, d, h1, i1) && h <= h1 && h1 + i1 <= h + i
    ensures Recoverable(c, d, h, i)
  {
    hide Shelved;
  }

  // ---------- Crashes ----------

  lemma {:induction false} CrashCutsTop(c: Codec, d: Disk, d': Disk, s: Shelf, extra: seq<Record>, t: nat) returns (t': nat)
    requires CrashOf(d, d') && TopShelf(c, d, s, extra, t) && Segment(s.id) in d'.dir
    ensures TopShelf(c, d', s, extra, t')
  {
    hide EncodeAll;
    var p := Segment(s.id);
    t' := |d'.dir[p]| - |EncodeAll(c, s.recs)|;
    assert d'.dir[p] == d.dir[p][..|d'.dir[p]|];
    assert d'.dir[p] == EncodeAll(c, s.recs) + EncodeAll(c, extra)[..t'];
  }

  lemma {:induction false} CrashSegments(d: Disk, d': Disk, ss: seq<Shelf>, ss': seq<Shelf>)
    requires OnlySegments(d, ss) && CrashOf(d, d')
    requires ss' == ss || (ss != [] && ss' == ss[..|ss| - 1] && Segment(ss[|ss| - 1].id) !in d'.dir)
    requires forall i :: 0 <= i < |ss'| ==> Segment(ss'[i].id) in d'.dir
    ensures OnlySegments(d', ss')
  {
    forall id
      ensures Segment(id) in d'.dir <==> exists i :: 0 <= i < |ss'| && ss'[i].id == id
    {
      if Segment(id) in d'.dir {
        assert Segment(id) in d.dir;
        var i :| 0 <= i < |ss| && ss[i].id == id;
        assert i < |ss'| && ss'[i].id == id;
      }
    }
  }

  /** A power loss takes nothing durable: only bytes of the write in flight, or an empty new segment. */
  lemma {:induction false} CrashShelved(c: Codec, d: Disk, d': Disk, ss: seq<Shelf>, extra: seq<Record>, t: nat)
    requires Shelved(c, d, ss, extra, t) && CrashOf(d, d')
    ensures Quiet(d') && Recoverable(c, d', History(ss), extra)
  {
    hide EncodeAll, Sound, TopShelf;
    if ss == [] {
      CrashSegments(d, d', ss, ss);
      assert Shelved(c, d', ss, extra, t);
    } else {
      var init, top := ss[..|ss| - 1], ss[|ss| - 1];
      forall i | 0 <= i < |init|
        ensures FullShelf(c, d', ss[i])
      {
        var p := Segment(ss[i].id);
        assert d'.dir[p] == d.dir[p][..|d'.dir[p]|];
      }
      FullPresent(c, d', init);
      if Segment(top.id) in d'.dir {
        var t' := CrashCutsTop(c, d, d', top, extra, t);
        CrashSegments(d, d', ss, ss);
        assert Shelved(c, d', ss, extra, t');
      } else {
        CrashSegments(d, d', ss, init);
        PendingTopEmpty(c, d, d', top, extra, t);
        HistoryLast(ss);
        assert History(init) == History(ss);
        SoundPrefix(c, History(ss), extra);
        WholeHistory(c, d', init);
        assert History(init) + [] <= History(ss) + extra;
      }
    }
  }

  lemma {:induction false} FullPresent(c: Codec, d: Disk, ss: seq<Shelf>)
    requires forall i :: 0 <= i < |ss| ==> FullShelf(c, d, ss[i])
    ensures forall i :: 0 <= i < |ss| ==> Segment(ss[i].id) in d.dir
  {
  }

  lemma {:induction false} PendingTopEmpty(c: Codec, d: Disk, d': Disk, s: Shelf, extra: seq<Record>, t: nat)
    requires TopShelf(c, d, s, extra, t) && CrashOf(d, d') && Segment(s.id) !in d'.dir
    ensures s.recs == []
  {
  }

  lemma {:induction false} WholeHistory(c: Codec, d: Disk, ss: seq<Shelf>)
    requires WellFormed(d) && OnlySegments(d, ss) && Sound(c, History(ss))
    requires forall i :: 0 <= i < |ss| ==> FullShelf(c, d, ss[i])
    ensures Shelved(c, d, ss, [], 0)
  {
    hide AllWritable, OnlySegments, History, Consecutive;
    assert History(ss) + [] == History(ss);
  }

  /** Power losses and kills alike keep what is recoverable. */
  lemma {:induction false} OutageRecoverable(c: Codec, d: Disk, d': Disk, h: seq<Record>, inflight: seq<Record>)
    requires Recoverable(c, d, h, inflight) && Outage(d, d')
    ensures Recoverable(c, d', h, inflight)
  {
    hide Shelved, CrashOf;
    if d' != d {
      var ss, extra, t :| Shelved(c, d, ss, extra, t) && h <= History(ss) && History(ss) + extra <= h + inflight;
      CrashShelved(c, d, d', ss, extra, t);
      Weaken(c, d', History(ss), extra, h, inflight);
    }
  }

  // ---------- Rollover ----------

  /** Files only grow, so every pointer keeps reading its record. */
  lemma {:induction false} ReadsGrow(c: Codec, d: Disk, d': Disk, idx: Index, view: map<string, Record>)
    requires Reads(c, d, idx, view)
    requires forall id :: Segment(id) in d.dir ==> Segment(id) in d'.dir && d.dir[Segment(id)] <= d'.dir[Segment(id)]
    ensures Reads(c, d', idx, view)
  {
    hide ReadAt;
    forall k | k in view
      ensures ReadRecord(c, d', idx.primary[k]) == Some(view[k])
    {
      var p := Segment(idx.primary[k].segmentId);
      var file, file' := d.dir[p], d'.dir[p];
      AppendKeepsReads(c, file, file'[|file|..], idx.primary[k].fileOffset);
      assert file + file'[|file|..] == file';
    }
  }

  /** A fresh segment above all others is an empty newest shelf. */
  lemma {:induction false} NewShelf(c: Codec, d: Disk, ss: seq<Shelf>, id: nat)
    requires ss != [] && Shelved(c, d, ss, [], 0)
    requires ss[|ss| - 1].id < id < COMPACTION_ID_BASE
    requires Segment(ss[|ss| - 1].id) !in d.creates
    requires d.durable[Segment(ss[|ss| - 1].id)] == |d.dir[Segment(ss[|ss| - 1].id)]|
    ensures
      var ss' := ss + [Shelf(id, [])];
      && OpenAppend(d, Segment(id)) == Create(d, Segment(id))
      && Shelved(c, Create(d, Segment(id)), ss', [], 0)
      && Shelved(c, DirSync(Create(d, Segment(id))), ss', [], 0)
      && History(ss') == History(ss)
  {
    hide EncodeAll, Sound, TopShelf, OnlySegments;
    var ss', d' := ss + [Shelf(id, [])], Create(d, Segment(id));
    assert History(ss) + [] == History(ss);
    NewSegment(d, ss, id);
    OldTopFull(c, d, ss);
    forall i | 0 <= i < |ss|
      ensures FullShelf(c, d', ss'[i]) && FullShelf(c, DirSync(d'), ss'[i])
    {
      assert FullShelf(c, Create(d, Segment(id)), ss[i]) && FullShelf(c, DirSync(Create(d, Segment(id))), ss[i]);
    }
    EmptyTop(c, d, id);
  }

  lemma {:induction false} OldTopFull(c: Codec, d: Disk, ss: seq<Shelf>)
    requires ss != [] && Shelved(c, d, ss, [], 0)
    requires Segment(ss[|ss| - 1].id) !in d.creates
    requires d.durable[Segment(ss[|ss| - 1].id)] == |d.dir[Segment(ss[|ss| - 1].id)]|
    ensures forall i :: 0 <= i < |ss| ==> FullShelf(c, d, ss[i]) && ss[i].id <= ss[|ss| - 1].id
  {
    hide Sound;
    var s := ss[|ss| - 1];
    assert EncodeAll(c, s.recs) + EncodeAll(c, [])[..0] == EncodeAll(c, s.recs);
  }

  lemma {:induction false} NewSegment(d: Disk, ss: seq<Shelf>, id: nat)
    requires OnlySegments(d, ss) && ss != [] && ss[|ss| - 1].id < id < COMPACTION_ID_BASE
    ensures Segment(id) !in d.dir
    ensures OnlySegments(Create(d, Segment(id)), ss + [Shelf(id, [])])
    ensures OnlySegments(DirSync(Create(d, Segment(id))), ss + [Shelf(id, [])])
  {
    var ss', d' := ss + [Shelf(id, [])], Create(d, Segment(id));
    assert forall i :: 0 <= i < |ss| ==> ss'[i] == ss[i] && ss[i].id < id;
    assert ss'[|ss|].id == id;
    forall x
      ensures Segment(x) in d'.dir <==> exists i :: 0 <= i < |ss'| && ss'[i].id == x
    {
      if i :| 0 <= i < |ss| && ss[i].id == x {
        assert ss'[i].id == x;
      }
      if i :| 0 <= i < |ss'| && ss'[i].id == x {
        assert i < |ss| ==> ss[i].id == x;
      }
    }
  }

  ghost predicate AllRecoverable(c: Codec, trace: seq<Disk>, h: seq<Record>, inflight: seq<Record>)
  {
    forall i :: 0 <= i < |trace| ==> Recoverable(c, trace[i], h, inflight)
  }

  /** Rolling over keeps the history at every step, and ends in a new idle, empty segment. */
  lemma {:induction false} RollOverSafe(c: Codec, db: Db, fault: Fault, ss: seq<Shelf>, extra: seq<Record>, more: seq<Record>)
    requires Ready(c, db, ss, extra) && !Exposed(db)
    ensures Segment(db.activeId) in db.disk.dir
    ensures
      var o, h, all := RollOver(db, fault), History(ss), History(ss) + extra;
      && AllRecoverable(c, o.trace, h, extra + more)
      && Recoverable(c, o.db.disk, h, extra + more)
      && (!o.ok && !o.db.failed ==> Serving(c, o.db, h, extra))
      && (o.ok ==>
            var ss' := Appended(ss, extra) + [Shelf(db.segmentCounter, [])];
            Idle(c, o.db, ss') && History(ss') == all && o.db.nextSeq == db.nextSeq && o.db.idx == db.idx)
  {
    hide EncodeAll, Shelved, History, Appended;
    ActiveFile(c, db, ss, extra);
    var p, h := Segment(db.activeId), History(ss);
    var o := RollOver(db, fault);
    assert h + extra <= h + (extra + more);
    assert Recoverable(c, db.disk, h, extra + more);
    if !db.fileOpen {
      assert h + extra == h + extra;
    } else if !fault.OldSyncFails? {
      var d1, ss1 := Sync(db.disk, p), Appended(ss, extra);
      SealedOld(c, db, ss, extra);
      AppendedHistory(ss, extra);
      assert h + extra + [] == h + extra;
      assert Recoverable(c, d1, h, extra + more);
      var id := db.segmentCounter;
      var sealed := db.(disk := d1, fileOpen := false, segmentCounter := id + 1);
      if id < COMPACTION_ID_BASE {
        NewShelf(c, d1, ss1, id);
        var d2, d3 := Create(d1, Segment(id)), DirSync(Create(d1, Segment(id)));
        assert Recoverable(c, d2, h, extra + more);
        assert Recoverable(c, d3, h, extra + more);
        assert Indexes(c, d3, db.idx, (h + extra));
        EmptyLog(c);
      } else {
        assert Serving(c, sealed, History(ss), extra) by {
          SealedOld(c, db, ss, extra);
          AppendedHistory(ss, extra);
          EmptyLog(c);
          var h, ss1 := History(ss), Appended(ss, extra);
          assert h + extra + [] == h + extra;
          assert Ready(c, sealed, ss1, []);
          assert History(ss1) + [] == h + extra;
        }
      }
    }
  }

  /** The old segment, sealed. */
  lemma {:induction false} SealedOld(c: Codec, db: Db, ss: seq<Shelf>, extra: seq<Record>)
    requires Ready(c, db, ss, extra) && !Exposed(db)
    ensures
      var p, ss1 := Segment(db.activeId), Appended(ss, extra);
      && p in db.disk.dir && ss1 != [] && ss1[|ss1| - 1].id == db.activeId
      && var d1 := Sync(db.disk, p);
         && Shelved(c, d1, ss1, [], 0) && p in d1.dir && p in d1.durable
         && d1.durable[p] == |d1.dir[p]| == db.activeSize && p !in d1.creates
         && Indexes(c, d1, db.idx, History(ss) + extra)
         && |EncodeAll(c, ss1[|ss1| - 1].recs)| == db.activeSize
  {
    hide EncodeAll, Shelved, History;
    var p := Segment(db.activeId);
    ActiveFile(c, db, ss, extra);
    FullWrite(c, db.disk, ss, extra);
    assert Indexes(c, Sync(db.disk, p), db.idx, (History(ss) + extra));
    EncodeAllConcat(c, ss[|ss| - 1].recs, extra);
  }

  lemma {:induction false} ActiveFile(c: Codec, db: Db, ss: seq<Shelf>, extra: seq<Record>)
    requires Ready(c, db, ss, extra)
    ensures
      var p := Segment(db.activeId);
      && p in db.disk.dir && p in db.disk.durable
      && db.disk.dir[p] == EncodeAll(c, ss[|ss| - 1].recs) + EncodeAll(c, extra)
      && |db.disk.dir[p]| == db.activeSize
  {
    hide EncodeAll, Indexes;
    ShelvedFiles(c, db.disk, ss, extra, |EncodeAll(c, extra)|);
    assert EncodeAll(c, extra)[..|EncodeAll(c, extra)|] == EncodeAll(c, extra);
  }

  // ---------- Writing a batch ----------

  ghost function Appended(ss: seq<Shelf>, rs: seq<Record>): seq<Shelf>
    requires ss != []
  {
    var top := ss[|ss| - 1];
    ss[..|ss| - 1] + [Shelf(top.id, top.recs + rs)]
  }

  lemma {:induction false} AppendedHistory(ss: seq<Shelf>, rs: seq<Record>)
    requires ss != []
    ensures History(Appended(ss, rs)) == History(ss) + rs
    ensures
      var ss', top := Appended(ss, rs), ss[|ss| - 1];
      |ss'| == |ss| && ss'[|ss| - 1] == Shelf(top.id, top.recs + rs)
  {
    var init, top := ss[..|ss| - 1], ss[|ss| - 1];
    HistoryLast(ss);
    assert History(init) + (top.recs + rs) == History(ss) + rs;
  }

  /** A batch the flusher may write next: new ids, every frame within the format's limits. */
  ghost predicate Writes(c: Codec, db: Db, plan: Plan)
  {
    && AllWritable(c, plan.records)
    && Consecutive(plan.records, db.nextSeq)
    && plan.nextSeq == db.nextSeq + |plan.records|
  }

  lemma {:induction false} PlanWrites(cfg: Config, db: Db, clock: Clock, batch: seq<LogEntry>)
    requires AllWritable(cfg.codec, PlanBatch(cfg, db, clock, batch).records)
    ensures Writes(cfg.codec, db, PlanBatch(cfg, db, clock, batch))
  {
    hide Affordable, Answered, AllWritable, PlanAll;
    PlanOk(cfg.codec, db.idx.primary.Keys, db.idx.ram, cfg.budget, clock, db.nextSeq, batch);
  }

  lemma {:induction false} WritesSound(c: Codec, db: Db, ss: seq<Shelf>, extra: seq<Record>, plan: Plan)
    requires Ready(c, db, ss, extra) && Writes(c, db, plan)
    ensures Sound(c, History(ss) + (extra + plan.records))
  {
    hide FullShelf, TopShelf, Indexes, AllWritable, EncodeAll;
    assert History(ss) + (extra + plan.records) == (History(ss) + extra) + plan.records;
    WritableConcat(c, History(ss) + extra, plan.records);
    ConsecutiveConcat(History(ss) + extra, plan.records, 1);
  }

  /** Bytes of the batch behind the newest segment: durable history, torn write. */
  lemma {:induction false} PartialWrite(c: Codec, d: Disk, ss: seq<Shelf>, extra: seq<Record>, rs: seq<Record>, n: nat)
    requires ss != [] && Shelved(c, d, ss, extra, |EncodeAll(c, extra)|) && Sound(c, History(ss) + (extra + rs))
    requires n <= |EncodeAll(c, rs)|
    ensures
      var p := Segment(ss[|ss| - 1].id);
      p in d.dir && Shelved(c, Append(d, p, EncodeAll(c, rs)[..n]), ss, extra + rs, |EncodeAll(c, extra)| + n)
  {
    hide EncodeAll, Sound;
    var top := ss[|ss| - 1];
    var p := Segment(top.id);
    assert
      var p := Segment(top.id);
      p in d.dir && TopShelf(c, Append(d, p, EncodeAll(c, rs)[..n]), top, extra + rs, |EncodeAll(c, extra)| + n) by {
      EncodeAllConcat(c, extra, rs);
      var a, x, y := EncodeAll(c, top.recs), EncodeAll(c, extra), EncodeAll(c, rs);
      assert x[..|x|] == x;
      assert (x + y)[..|x| + n] == x + y[..n];
      Assoc(a, x, y[..n]);
    }
    var d' := Append(d, p, EncodeAll(c, rs)[..n]);
    hide History;
  }

  /** Once synced, the batch is part of the history. */
  lemma {:induction false} FullWrite(c: Codec, d: Disk, ss: seq<Shelf>, rs: seq<Record>)
    requires ss != [] && Shelved(c, d, ss, rs, |EncodeAll(c, rs)|)
    requires Segment(ss[|ss| - 1].id) !in d.creates
    ensures
      var p := Segment(ss[|ss| - 1].id);
      && p in d.dir
      && Shelved(c, Sync(d, p), ss, rs, |EncodeAll(c, rs)|)
      && Shelved(c, Sync(d, p), Appended(ss, rs), [], 0)
  {
    hide EncodeAll, Sound, History;
    var top := ss[|ss| - 1];
    var d', ss' := Sync(d, Segment(top.id)), Appended(ss, rs);
    assert
      var d' := Sync(d, Segment(top.id));
      TopShelf(c, d', top, rs, |EncodeAll(c, rs)|) && TopShelf(c, d', Shelf(top.id, top.recs + rs), [], 0) by {
      var eb := EncodeAll(c, rs);
      assert eb[..|eb|] == eb;
      EncodeAllConcat(c, top.recs, rs);
      EmptyLog(c);
      assert EncodeAll(c, top.recs + rs) + EncodeAll(c, [])[..0] == EncodeAll(c, top.recs + rs);
    }
    AppendedHistory(ss, rs);
    assert History(ss') + [] == History(ss');
    NoSegmentUnlinks(c, d, ss, rs, |EncodeAll(c, rs)|);
    FoundSegments(d, d', ss, ss);
    FoundSegments(d, d', ss, ss');
    assert forall i :: 0 <= i < |ss| - 1 ==> ss'[i] == ss[i];
  }

  // ---------- Applying the batch ----------

  /** A batch's pointers read its records, and earlier pointers keep reading theirs. */
  lemma {:induction false} ApplyAllReads(c: Codec, d: Disk, idx: Index, view: map<string, Record>, segment: nat, offset: nat, rs: seq<Record>)
    requires Reads(c, d, idx, view) && Segment(segment) in d.dir
    requires forall i :: 0 <= i < |rs| ==> ReadAt(c, d.dir[Segment(segment)], Layout(c, rs, offset)[i].offset) == Some(rs[i])
    requires forall i :: 0 <= i < |rs| ==> rs[i].IsTombstone() || rs[i].IsActive()
    ensures Reads(c, d, ApplyAll(c, idx, segment, offset, rs), Fold(view, rs))
    decreases |rs|
  {
    hide ReadAt, EncodeFrame, Apply;
    if rs != [] {
      var r, p := rs[0], PointerTo(segment, offset, rs[0]);
      assert Layout(c, rs, offset)[0].offset == offset;
      ApplyReads(c, d, idx, view, r, p);
      var offset' := offset + |EncodeFrame(c, r)|;
      forall i | 0 <= i < |rs[1..]|
        ensures ReadAt(c, d.dir[Segment(segment)], Layout(c, rs[1..], offset')[i].offset) == Some(rs[1..][i])
      {
        assert Layout(c, rs, offset)[i + 1] == Layout(c, rs[1..], offset')[i];
      }
      ApplyAllReads(c, d, Apply(c, idx, r, p), ApplyView(view, r), segment, offset', rs[1..]);
    }
  }

  lemma {:induction false} ApplyReads(c: Codec, d: Disk, idx: Index, view: map<string, Record>, r: Record, p: LogPointer)
    requires Reads(c, d, idx, view) && ReadRecord(c, d, p) == Some(r)
    ensures Reads(c, d, Apply(c, idx, r, p), ApplyView(view, r))
  {
    hide ReadRecord;
  }

  /** The indexes after a durable batch stand for the longer history. */
  lemma {:induction false} BatchIndexes(c: Codec, d: Disk, idx: Index, h: seq<Record>, segment: nat, before: seq<Record>, rs: seq<Record>)
    requires c.Lawful() && Indexes(c, d, idx, h) && Sound(c, h + rs)
    requires AllWritable(c, rs) && Consecutive(rs, |h| + 1)
    requires Segment(segment) in d.dir && d.dir[Segment(segment)] == EncodeAll(c, before) + EncodeAll(c, rs)
    ensures Indexes(c, d, ApplyAll(c, idx, segment, |EncodeAll(c, before)|, rs), h + rs)
  {
    hide Represents, Accounted, FreshFrom, Reads, EncodeAll, ReadAt, ApplyAll, Layout, Sound;
    var base := |EncodeAll(c, before)|;
    assert
      forall i :: 0 <= i < |rs| ==>
            && ReadAt(c, d.dir[Segment(segment)], Layout(c, rs, |EncodeAll(c, before)|)[i].offset) == Some(rs[i])
            && (rs[i].IsTombstone() || rs[i].IsActive()) by {
      var base := |EncodeAll(c, before)|;
      assert d.dir[Segment(segment)][base..] == EncodeAll(c, rs);
      forall i | 0 <= i < |rs|
        ensures ReadAt(c, d.dir[Segment(segment)], Layout(c, rs, base)[i].offset) == Some(rs[i])
        ensures rs[i].IsTombstone() || rs[i].IsActive()
      {
        LayoutReads(c, d.dir[Segment(segment)], base, rs, i);
        assert Writable(c, rs[i]);
      }
    }
    ApplyAllReads(c, d, idx, Fold(map[], h), segment, base, rs);
    ApplyAllRepresents(c, idx, Fold(map[], h), segment, base, rs, |h| + 1);
    FoldConcat(map[], h, rs);
  }

  /** The write stage on what an engine serves: the frames found at opening become durable with the batch. */
  lemma {:induction false} WriteSafe(c: Codec, db: Db, ss: seq<Shelf>, extra: seq<Record>, plan: Plan, fault: Fault)
    requires c.Lawful() && Ready(c, db, ss, extra) && !Exposed(db) && Writes(c, db, plan)
    ensures ss != [] && (db.fileOpen ==> Segment(db.activeId) in db.disk.dir)
    ensures
      var o, h, rs := WriteStage(c, db, EncodeAll(c, plan.records), plan, fault), History(ss), plan.records;
      && AllRecoverable(c, o.trace, h, extra + rs)
      && Recoverable(c, o.db.disk, h, extra + rs)
      && (!o.ok ==> o.db.failed)
      && (o.ok ==> Idle(c, o.db, Appended(ss, extra + rs)) && History(Appended(ss, extra + rs)) == h + (extra + rs))
  {
    hide EncodeAll, Shelved, History, ApplyAll, Sound, Appended;
    var rs, h, p := plan.records, History(ss), Segment(db.activeId);
    var eb := EncodeAll(c, rs);
    assert h + extra <= h + (extra + rs);
    assert Recoverable(c, db.disk, h, extra + rs);
    ActiveFile(c, db, ss, extra);
    WritesSound(c, db, ss, extra, plan);
    if db.fileOpen {
      var n: nat := if fault.WriteFails? && fault.written < |eb| then fault.written else |eb|;
      PartialWrite(c, db.disk, ss, extra, rs, n);
      assert eb[..|eb|] == eb;
      var d1 := Append(db.disk, p, eb[..n]);
      assert Recoverable(c, d1, h, extra + rs);
      if !fault.WriteFails? {
        EncodeAllConcat(c, extra, rs);
        FullWrite(c, d1, ss, extra + rs);
        var d2 := Sync(d1, p);
        assert Recoverable(c, d2, h, extra + rs);
        AppendedHistory(ss, extra + rs);
        var h, top := History(ss), ss[|ss| - 1];
        assert h + (extra + rs) == (h + extra) + rs;
        assert top.recs + (extra + rs) == (top.recs + extra) + rs;
        ActiveFile(c, db, ss, extra);
        EncodeAllConcat(c, top.recs, extra);
        EncodeAllConcat(c, top.recs + extra, rs);
        assert Indexes(c, d2, db.idx, (h + extra)) by {
          ReadsGrow(c, db.disk, d2, db.idx, Fold(map[], (h + extra)));
        }
        BatchIndexes(c, d2, db.idx, h + extra, db.activeId, top.recs + extra, rs);
        EmptyLog(c);
        assert h + (extra + rs) + [] == h + (extra + rs);
      }
    }
  }

  lemma {:induction false} WriteServing(c: Codec, db: Db, h: seq<Record>, inflight: seq<Record>, plan: Plan, fault: Fault)
    requires c.Lawful() && Serving(c, db, h, inflight) && Writes(c, db, plan)
    ensures db.fileOpen ==> Segment(db.activeId) in db.disk.dir
    ensures
      var o, rs := WriteStage(c, db, EncodeAll(c, plan.records), plan, fault), plan.records;
      && AllRecoverable(c, o.trace, h, inflight + rs)
      && Recoverable(c, o.db.disk, h, inflight + rs)
      && (!o.ok ==> o.db.failed)
      && (o.ok ==> Serving(c, o.db, h + (inflight + rs), []))
  {
    hide Ready, Exposed, Recoverable, WriteStage, History, Appended, EncodeAll;
    var rs := plan.records;
    var ss, extra :| Ready(c, db, ss, extra) && !Exposed(db) && h <= History(ss) && History(ss) + extra == h + inflight;
    WriteSafe(c, db, ss, extra, plan, fault);
    var o := WriteStage(c, db, EncodeAll(c, rs), plan, fault);
    assert History(ss) + (extra + rs) == (History(ss) + extra) + rs;
    assert h + (inflight + rs) == (h + inflight) + rs;
    assert AllRecoverable(c, o.trace, h, (inflight + rs)) by {
      forall k | 0 <= k < |o.trace|
        ensures Recoverable(c, o.trace[k], h, (inflight + rs))
      {
        Weaken(c, o.trace[k], History(ss), (extra + rs), h, (inflight + rs));
      }
    }
    Weaken(c, o.db.disk, History(ss), extra + rs, h, inflight + rs);
  }

  lemma {:induction false} RollOverServing(c: Codec, db: Db, h: seq<Record>, inflight: seq<Record>, more: seq<Record>, fault: Fault)
    requires Serving(c, db, h, inflight)
    ensures Segment(db.activeId) in db.disk.dir
    ensures
      var o := RollOver(db, fault);
      && AllRecoverable(c, o.trace, h, inflight + more)
      && Recoverable(c, o.db.disk, h, inflight + more)
      && (!o.ok && !o.db.failed ==> Serving(c, o.db, h, inflight))
      && (o.ok ==> Serving(c, o.db, h + inflight, []) && o.db.nextSeq == db.nextSeq)
  {
    hide Ready, Exposed, Recoverable, RollOver, History, Appended;
    var ss, extra :| Ready(c, db, ss, extra) && !Exposed(db) && h <= History(ss) && History(ss) + extra == h + inflight;
    RollOverSafe(c, db, fault, ss, extra, more);
    var o := RollOver(db, fault);
    assert History(ss) + (extra + more) == (History(ss) + extra) + more;
    assert h + (inflight + more) == (h + inflight) + more;
    assert AllRecoverable(c, o.trace, h, (inflight + more)) by {
      forall k | 0 <= k < |o.trace|
        ensures Recoverable(c, o.trace[k], h, (inflight + more))
      {
        Weaken(c, o.trace[k], History(ss), (extra + more), h, (inflight + more));
      }
    }
    Weaken(c, o.db.disk, History(ss), extra + more, h, inflight + more);
  }

  /**
   * One group commit of an engine none of whose segments is pending: at every point where the process may die,
   * and whatever fails, the disk holds everything acknowledged, what the engine had found of an earlier write,
   * and at most a torn copy of this batch; on success all of it is durable and acknowledged.
   */
  lemma {:induction false} CommitSafe(cfg: Config, db: Db, h: seq<Record>, inflight: seq<Record>, plan: Plan, fault: Fault)
    requires cfg.codec.Lawful() && Serving(cfg.codec, db, h, inflight) && Writes(cfg.codec, db, plan)
    ensures Segment(db.activeId) in db.disk.dir
    ensures
      var c, o := cfg.codec, Commit(cfg, db, plan, fault);
      && AllRecoverable(c, o.trace, h, inflight + plan.records)
      && Recoverable(c, o.db.disk, h, inflight + plan.records)
      && (!o.ok && !o.db.failed ==> Serving(c, o.db, h, inflight))
      && (o.ok ==> Serving(c, o.db, h + (inflight + plan.records), []))
  {
    hide Serving, Recoverable, RollOver, WriteStage, EncodeAll;
    var c, rs := cfg.codec, plan.records;
    RollOverServing(c, db, h, inflight, rs, fault);
    WriteServing(c, db, h, inflight, plan, fault);
    if db.activeSize + |EncodeAll(c, rs)| > cfg.maxSegmentSize {
      var rolled := RollOver(db, fault);
      if rolled.ok {
        WriteServing(c, rolled.db, h + inflight, [], plan, fault);
        var w := WriteStage(c, rolled.db, EncodeAll(c, rs), plan, fault);
        assert [] + rs == rs && (h + inflight) + rs == h + (inflight + rs);
        assert AllRecoverable(c, w.trace, h, (inflight + rs)) by {
          forall k | 0 <= k < |w.trace|
            ensures Recoverable(c, w.trace[k], h, (inflight + rs))
          {
            Weaken(c, w.trace[k], (h + inflight), rs, h, (inflight + rs));
          }
        }
        Weaken(c, w.db.disk, h + inflight, rs, h, inflight + rs);
      }
    }
  }
}
