/**
 * A payload damaged on disk: replay stops in front of it, reads refuse it, and no opening, in whatever mode,
 * indexes anything of its segment but the frames before it.
 */
module Damage {
  import opened Wrappers
  import opened Bytes
  import opened Types
  import opened Frames
  import opened Index
  import opened LogMerge
  import opened Disk
  import opened FlushIndex
  import opened Flusher
  import opened Resync
  import opened Recovery

  // ---------- Replay ----------

  /** Replay of a file that starts with the log of `rs` is that log and the replay of what follows. */
  lemma {:induction false} ScanPast(c: Codec, file: bytes, base: nat, rs: seq<Record>)
    requires c.Lawful() && AllWritable(c, rs)
    requires base <= |file| && EncodeAll(c, rs) <= file[base..]
    ensures base + |EncodeAll(c, rs)| <= |file|
    ensures
      var rest := Scan(c, file, base + |EncodeAll(c, rs)|);
      Scan(c, file, base) ==
        Replay(Layout(c, rs, base) + rest.frames, rest.stop, rest.tear, Max(MaxSeq(rs), rest.maxSeq), rs != [] || rest.hasFrame)
    decreases |rs|
  {
    hide FrameAt, EncodeFrame, Writable, Scan;
    if rs == [] {
      assert Layout(c, rs, base) + Scan(c, file, base).frames == Scan(c, file, base).frames;
    } else {
      var n := |EncodeFrame(c, rs[0])|;
      LogHead(c, file, base, rs);
      ScanPast(c, file, base + n, rs[1..]);
      ScanOne(c, file, base, rs[0]);
      var rest := Scan(c, file, base + |EncodeAll(c, rs)|);
      assert Layout(c, rs, base) == [Located(base, rs[0])] + Layout(c, rs[1..], base + n);
      assert MaxSeq(rs) == Max(rs[0].seqId, MaxSeq(rs[1..]));
      hide Layout, EncodeAll, MaxSeq;
      Joined([Located(base, rs[0])], Layout(c, rs[1..], base + n), rest.frames);
    }
  }

  lemma {:induction false} Joined<T>(a: seq<T>, b: seq<T>, c: seq<T>)
    ensures a + (b + c) == (a + b) + c
  {
  }

  lemma {:induction false} ScanOne(c: Codec, file: bytes, base: nat, r: Record)
    requires c.Lawful() && Writable(c, r)
    requires base + |EncodeFrame(c, r)| <= |file| && file[base..base + |EncodeFrame(c, r)|] == EncodeFrame(c, r)
    ensures
      var rest := Scan(c, file, base + |EncodeFrame(c, r)|);
      Scan(c, file, base) == Replay([Located(base, r)] + rest.frames, rest.stop, rest.tear, Max(r.seqId, rest.maxSeq), true)
  {
    hide FrameAt, Writable, EncodeFrame;
    FrameRoundTrip(c, r, file, base);
    FrameLength(c, r);
  }

  lemma {:induction false} FrameLength(c: Codec, r: Record)
    ensures |EncodeFrame(c, r)| >= HEADER_LEN
  {
  }

  /** The header of `r`, over a payload of the same length with another checksum. */
  ghost predicate DamagedAt(c: Codec, file: bytes, at: nat, r: Record, p: bytes)
  {
    && Writable(c, r) && |p| == |RecordPayload(c, r)| && c.crc(p) != c.crc(RecordPayload(c, r))
    && at <= |file| && Header(c, r) + p <= file[at..]
  }

  lemma {:induction false} DamageRefused(c: Codec, file: bytes, at: nat, r: Record, p: bytes)
    requires c.Lawful() && DamagedAt(c, file, at, r, p)
    ensures at + HEADER_LEN + |p| <= |file|
    ensures FrameAt(c, file, at) == Bad(CrcTear, r.seqId) && ReadAt(c, file, at).None?
  {
    var t := file[at..];
    assert t[..HEADER_LEN] == Header(c, r) && t[HEADER_LEN..HEADER_LEN + |p|] == p by {
      assert t[..|Header(c, r) + p|] == Header(c, r) + p;
    }
    assert file[at..at + HEADER_LEN] == t[..HEADER_LEN];
    assert file[at + HEADER_LEN..at + HEADER_LEN + |p|] == t[HEADER_LEN..HEADER_LEN + |p|];
    HeaderRoundTrip(c, r);
    hide Header, DecodeHeader, DecodePayload, Payload;
  }

  lemma {:induction false} ScanDamaged(c: Codec, file: bytes, at: nat, seqId: nat)
    requires at + HEADER_LEN <= |file| && FrameAt(c, file, at) == Bad(CrcTear, seqId)
    ensures Scan(c, file, at) == Replay([], at, Some(CrcTear), seqId, true)
  {
    hide FrameAt;
  }

  /** Replay yields the frames before the damage, and stops there for the checksum; the damaged frame cannot be read. */
  lemma {:induction false} DamageStopsReplay(c: Codec, file: bytes, rs: seq<Record>, r: Record, p: bytes)
    requires c.Lawful() && AllWritable(c, rs) && EncodeAll(c, rs) <= file
    requires DamagedAt(c, file, |EncodeAll(c, rs)|, r, p)
    ensures
      var at := |EncodeAll(c, rs)|;
      && Scan(c, file, 0) == Replay(Layout(c, rs, 0), at, Some(CrcTear), Max(MaxSeq(rs), r.seqId), true)
      && ReadAt(c, file, at).None?
  {
    var at := |EncodeAll(c, rs)|;
    assert file[0..] == file;
    ScanPast(c, file, 0, rs);
    DamageRefused(c, file, at, r, p);
    hide EncodeAll, FrameAt, ReadAt, DamagedAt, Scan;
    ScanDamaged(c, file, at, r.seqId);
    assert Layout(c, rs, 0) + [] == Layout(c, rs, 0);
  }

  // ---------- What is indexed ----------

  /** Every entry of the indexes points at a frame in `found`. */
  ghost predicate IndexesOnly(idx: Index, found: set<Placed>)
  {
    && (forall k :: k in idx.primary ==> exists p :: p in found && p.ptr == idx.primary[k] && p.rec.Compound() == k && p.rec.IsActive())
    && (forall s, e :: s in idx.times && e in idx.times[s] ==> exists p :: p in found && p.ptr == idx.times[s][e] && p.rec.stream == s && p.rec.IsActive())
  }

  lemma {:induction false} ApplyIndexes(c: Codec, idx: Index, p: Placed, found: set<Placed>)
    requires IndexesOnly(idx, found) && p in found
    ensures IndexesOnly(Apply(c, idx, p.rec, p.ptr), found)
  {
    hide PrimaryCharge;
  }

  lemma {:induction false} MergeIndexes(c: Codec, m: Merge, ps: seq<Placed>, found: set<Placed>)
    requires IndexesOnly(m.idx, found) && forall p :: p in ps ==> p in found
    ensures IndexesOnly(MergeFrom(c, m, ps).idx, found)
  {
    hide IndexesOnly, Apply, IsNewer;
    if ps != [] {
      var init, p := ps[..|ps| - 1], ps[|ps| - 1];
      MergeIndexes(c, m, init, found);
      ApplyIndexes(c, MergeFrom(c, m, init).idx, p, found);
    }
  }

  lemma {:induction false} IndexesMore(idx: Index, found: set<Placed>, more: set<Placed>)
    requires IndexesOnly(idx, found) && found <= more
    ensures IndexesOnly(idx, more)
  {
  }

  ghost function FoundIn(c: Codec, d: Disk, ids: seq<nat>): set<Placed>
    requires forall i :: 0 <= i < |ids| ==> Segment(ids[i]) in d.dir
  {
    set i, p | 0 <= i < |ids| && p in Places(ids[i], Scan(c, d.dir[Segment(ids[i])], 0).frames) :: p
  }

  lemma {:induction false} PassIndexes(c: Codec, d: Disk, ids: seq<nat>)
    requires forall i :: 0 <= i < |ids| ==> Segment(ids[i]) in d.dir
    ensures IndexesOnly(PassAll(c, d, ids).merge.idx, FoundIn(c, d, ids))
  {
    hide Scan, MergeFrom, Places, PrefixMax;
    if ids == [] {
      assert IndexesOnly(EMPTY_INDEX, FoundIn(c, d, ids));
    } else {
      var init, id := ids[..|ids| - 1], ids[|ids| - 1];
      PassIndexes(c, d, init);
      assert FoundIn(c, d, init) <= FoundIn(c, d, ids) by {
        assert forall i :: 0 <= i < |init| ==> init[i] == ids[i];
      }
      IndexesMore(PassAll(c, d, init).merge.idx, FoundIn(c, d, init), FoundIn(c, d, ids));
      MergeIndexes(c, PassAll(c, d, init).merge, Places(id, Scan(c, d.dir[Segment(id)], 0).frames), FoundIn(c, d, ids));
    }
  }

  // ---------- Settling adds nothing ----------

  ghost predicate NoMoreThan(idx: Index, idx': Index)
  {
    && idx'.times == idx.times
    && forall k :: k in idx'.primary ==> k in idx.primary && idx'.primary[k] == idx.primary[k]
  }

  lemma {:induction false} SumChargeWithout(c: Codec, ks: set<string>, gone: set<string>)
    requires gone <= ks
    ensures SumCharge(c, ks) == SumCharge(c, gone) + SumCharge(c, ks - gone)
    decreases gone
  {
    if gone == {} {
      assert ks - gone == ks;
    } else {
      var k :| k in gone;
      SumChargeRemove(c, ks, k);
      SumChargeRemove(c, gone, k);
      SumChargeWithout(c, ks - {k}, gone - {k});
      assert (ks - {k}) - (gone - {k}) == ks - gone;
    }
  }

  lemma {:induction false} DropIndexes(c: Codec, idx: Index, segment: nat)
    ensures NoMoreThan(idx, DropSegmentKeys(c, idx, segment))
    ensures Accounted(c, idx) ==> Accounted(c, DropSegmentKeys(c, idx, segment))
  {
    hide SumCharge, TimeEntries;
    var gone := set k | k in idx.primary && idx.primary[k].segmentId == segment;
    SumChargeWithout(c, idx.primary.Keys, gone);
    assert (idx.primary - gone).Keys == idx.primary.Keys - gone;
  }

  lemma {:induction false} SettleIndexes(c: Codec, mode: Mode, now: int, active: nat, w: Work, t: Tear)
    ensures NoMoreThan(w.idx, Settle(c, mode, now, active, w, t).work.idx)
    ensures Accounted(c, w.idx) ==> Accounted(c, Settle(c, mode, now, active, w, t).work.idx)
  {
    hide StrandedAfter, SalvageSteps, WriteDurably, TruncateSync, DropSegmentKeys, RunBytes, Accounted;
    DropIndexes(c, w.idx, t.segment);
  }

  lemma {:induction false} SettleAllIndexes(c: Codec, mode: Mode, now: int, active: nat, w: Work, tears: seq<Tear>)
    ensures NoMoreThan(w.idx, SettleAll(c, mode, now, active, w, tears).work.idx)
    ensures Accounted(c, w.idx) ==> Accounted(c, SettleAll(c, mode, now, active, w, tears).work.idx)
    decreases |tears|
  {
    hide Settle, Accounted;
    if tears != [] {
      SettleIndexes(c, mode, now, active, w, tears[0]);
      var s := Settle(c, mode, now, active, w, tears[0]);
      if s.error.None? {
        SettleAllIndexes(c, mode, now, active, s.work, tears[1..]);
      }
    }
  }

  /**
   * Whatever the mode, what an opened engine indexes are frames that replay of their segments yields, and settling
   * tears keeps the byte count of the replay exact.
   */
  lemma {:induction false} OpenIndexes(c: Codec, mode: Mode, now: int, d: Disk, ids: seq<nat>)
    requires forall i :: 0 <= i < |ids| ==> Segment(ids[i]) in d.dir
    ensures
      match Open(c, mode, now, d, ids)
      case Running(db) =>
        IndexesOnly(db.idx, FoundIn(c, d, ids)) && (Accounted(c, PassAll(c, d, ids).merge.idx) ==> Accounted(c, db.idx))
      case Refused(_, _) => true
  {
    var pass := PassAll(c, d, ids);
    PassIndexes(c, d, ids);
    SettleAllIndexes(c, mode, now, ChooseActive(pass.summaries), Work(d, pass.merge.idx, MaxNormalId(ids), MaxId(ids)), pass.tears);
    hide PassAll, SettleAll, FoundIn, ChooseActive, Accounted;
  }

  /**
   * No opening, in any mode, indexes a record of the damaged frame or anything behind it: every pointer into that
   * segment leads to a frame before the damage.
   */
  lemma {:induction false} DamageNotIndexed(c: Codec, mode: Mode, now: int, d: Disk, ids: seq<nat>, id: nat, rs: seq<Record>, r: Record, p: bytes)
    requires c.Lawful() && AllWritable(c, rs) && (forall i :: 0 <= i < |ids| ==> Segment(ids[i]) in d.dir) && id in ids
    requires EncodeAll(c, rs) <= d.dir[Segment(id)] && DamagedAt(c, d.dir[Segment(id)], |EncodeAll(c, rs)|, r, p)
    ensures
      match Open(c, mode, now, d, ids)
      case Running(db) =>
        && (forall k :: k in db.idx.primary && db.idx.primary[k].segmentId == id ==> Before(c, rs, id, db.idx.primary[k], k))
        && (forall s, e :: s in db.idx.times && e in db.idx.times[s] && db.idx.times[s][e].segmentId == id ==>
              exists k :: Before(c, rs, id, db.idx.times[s][e], k))
      case Refused(_, _) => true
  {
    var o := Open(c, mode, now, d, ids);
    if o.Running? {
      OpenIndexes(c, mode, now, d, ids);
      DamageStopsReplay(c, d.dir[Segment(id)], rs, r, p);
      hide Open, Scan, EncodeAll, DamagedAt, AllWritable, Accounted;
      forall q | q in FoundIn(c, d, ids) && q.ptr.segmentId == id && q.rec.IsActive()
        ensures Before(c, rs, id, q.ptr, q.rec.Compound())
      {
        PlacedBefore(c, d, ids, id, rs, q);
      }
      var idx := o.db.idx;
      forall s, e | s in idx.times && e in idx.times[s] && idx.times[s][e].segmentId == id
        ensures exists k :: Before(c, rs, id, idx.times[s][e], k)
      {
        var q :| q in FoundIn(c, d, ids) && q.ptr == idx.times[s][e] && q.rec.stream == s && q.rec.IsActive();
        assert Before(c, rs, id, q.ptr, q.rec.Compound());
      }
    }
  }

  /** The pointer to one of the frames of `rs`, at the start of the segment. */
  ghost predicate Before(c: Codec, rs: seq<Record>, id: nat, ptr: LogPointer, k: string)
  {
    exists i :: 0 <= i < |rs| && ptr == PointerTo(id, Layout(c, rs, 0)[i].offset, rs[i]) && rs[i].Compound() == k && rs[i].IsActive()
  }

  lemma {:induction false} PlacedBefore(c: Codec, d: Disk, ids: seq<nat>, id: nat, rs: seq<Record>, q: Placed)
    requires (forall i :: 0 <= i < |ids| ==> Segment(ids[i]) in d.dir) && id in ids
    requires Scan(c, d.dir[Segment(id)], 0).frames == Layout(c, rs, 0)
    requires q in FoundIn(c, d, ids) && q.ptr.segmentId == id && q.rec.IsActive()
    ensures Before(c, rs, id, q.ptr, q.rec.Compound())
  {
    hide Scan;
    var i :| 0 <= i < |ids| && q in Places(ids[i], Scan(c, d.dir[Segment(ids[i])], 0).frames);
    var frames := Scan(c, d.dir[Segment(ids[i])], 0).frames;
    var j :| 0 <= j < |frames| && Places(ids[i], frames)[j] == q;
    assert ids[i] == id;
    assert Layout(c, rs, 0)[j].rec == rs[j];
  }
}
