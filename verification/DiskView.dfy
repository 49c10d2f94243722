/**
 * The set of frames a directory holds, for any directory at all (several segments in any order,
 * compacted copies, torn tails), and what recovery makes of it.
 */
module DiskView {
  import opened Wrappers
  import opened Bytes
  import opened Types
  import opened Frames
  import opened Index
  import opened LogMerge
  import opened Disk
  import opened FlushIndex
  import opened Flusher
  import opened Recovery
  import opened ShelfReplay

  ghost function FramesIn(c: Codec, file: bytes): set<Record>
  {
    set l | l in Scan(c, file, 0).frames :: l.rec
  }

  /** The frames of all segments, those in `skip` left aside. */
  ghost function OnDiskExcept(c: Codec, d: Disk, skip: set<nat>): set<Record>
  {
    set id, r | id in SegmentIds(d) && id !in skip && Segment(id) in d.dir && r in FramesIn(c, d.dir[Segment(id)]) :: r
  }

  ghost function OnDisk(c: Codec, d: Disk): set<Record>
  {
    OnDiskExcept(c, d, {})
  }

  /** Replay reads the whole file. */
  ghost predicate Clean(c: Codec, file: bytes)
  {
    Scan(c, file, 0).tear.None?
  }

  // ---------- Appending and cutting ----------

  lemma {:induction false} FrameAtGrows(c: Codec, file: bytes, tail: bytes, off: nat)
    requires off + HEADER_LEN <= |file| && FrameAt(c, file, off).Good?
    ensures FrameAt(c, file + tail, off) == FrameAt(c, file, off)
  {
    var file' := file + tail;
    assert file'[off..off + HEADER_LEN] == file[off..off + HEADER_LEN];
    var h := DecodeHeader(file[off..off + HEADER_LEN]);
    assert file'[off + HEADER_LEN..off + HEADER_LEN + h.payloadLen] == file[off + HEADER_LEN..off + HEADER_LEN + h.payloadLen];
  }

  /** Replay of a clean file goes on into whatever is appended to it. */
  lemma {:induction false} ScanOn(c: Codec, file: bytes, tail: bytes, off: nat)
    requires off <= |file| && Scan(c, file, off).tear.None?
    ensures
      var a, b := Scan(c, file, off), Scan(c, file + tail, |file|);
      var s := Scan(c, file + tail, off);
      s.frames == a.frames + b.frames && s.stop == b.stop && s.tear == b.tear
    decreases |file| - off
  {
    hide FrameAt, Scan;
    if off == |file| {
      ScanEnd(c, file);
    } else {
      ScanGood(c, file, off);
      FrameAtGrows(c, file, tail, off);
      ScanGood(c, file + tail, off);
      ScanOn(c, file, tail, off + FrameAt(c, file, off).len);
    }
  }

  lemma {:induction false} ScanEnd(c: Codec, file: bytes)
    ensures Scan(c, file, |file|).frames == []
  {
  }

  /** One turn of the replay loop: a good frame is followed by the replay of the rest. */
  lemma {:induction false} ScanGood(c: Codec, file: bytes, off: nat)
    requires off < |file|
    requires Scan(c, file, off).tear.None? || (off + HEADER_LEN <= |file| && FrameAt(c, file, off).Good?)
    ensures off + HEADER_LEN <= |file| && FrameAt(c, file, off).Good?
    ensures
      var f, s := FrameAt(c, file, off), Scan(c, file, off);
      var rest := Scan(c, file, off + f.len);
      s.frames == [Located(off, f.rec)] + rest.frames && s.stop == rest.stop && s.tear == rest.tear
  {
    hide FrameAt;
  }

  /** Appending a batch to a clean file adds exactly its frames. */
  lemma {:induction false} AppendFrames(c: Codec, file: bytes, rs: seq<Record>)
    requires c.Lawful() && AllWritable(c, rs) && Clean(c, file)
    ensures Clean(c, file + EncodeAll(c, rs))
    ensures FramesIn(c, file + EncodeAll(c, rs)) == FramesIn(c, file) + SetOf(rs)
  {
    hide Scan, EncodeAll, Writable, FrameAt, WholeFrames;
    var tail := EncodeAll(c, rs);
    ScanOn(c, file, tail, 0);
    assert (file + tail)[|file|..] == tail == tail[..|tail|];
    ScanCut(c, file + tail, |file|, rs, |tail|);
    AllWhole(c, rs);
    assert rs[..|rs|] == rs;
    assert (set l | l in Layout(c, rs, (|file|)) :: l.rec) == SetOf(rs);
  }

  lemma {:induction false} AllWhole(c: Codec, rs: seq<Record>)
    ensures WholeFrames(c, rs, |EncodeAll(c, rs)|) == |rs|
    decreases |rs|
  {
    hide EncodeFrame;
    if rs != [] {
      AllWhole(c, rs[1..]);
    }
  }

  /** Cutting a file loses frames and invents none. */
  lemma {:induction false} CutFrames(c: Codec, file: bytes, tail: bytes, off: nat)
    requires off <= |file|
    ensures forall l :: l in Scan(c, file, off).frames ==> l in Scan(c, file + tail, off).frames
    decreases |file| - off
  {
    hide FrameAt;
    if off + HEADER_LEN <= |file| && FrameAt(c, file, off).Good? {
      FrameAtGrows(c, file, tail, off);
      CutFrames(c, file, tail, off + FrameAt(c, file, off).len);
    }
  }

  // ---------- Recovery on any directory ----------

  ghost function FilePlaces(c: Codec, d: Disk, id: nat): seq<Placed>
    requires Segment(id) in d.dir
  {
    Places(id, Scan(c, d.dir[Segment(id)], 0).frames)
  }

  ghost function DirPlaces(c: Codec, d: Disk, ids: seq<nat>): seq<Placed>
    requires forall i :: 0 <= i < |ids| ==> Segment(ids[i]) in d.dir
  {
    if ids == [] then [] else DirPlaces(c, d, ids[..|ids| - 1]) + FilePlaces(c, d, ids[|ids| - 1])
  }

  lemma {:induction false} PassMerges(c: Codec, d: Disk, ids: seq<nat>)
    requires forall i :: 0 <= i < |ids| ==> Segment(ids[i]) in d.dir
    ensures PassAll(c, d, ids).merge == MergeAll(c, DirPlaces(c, d, ids))
  {
    hide Scan;
    if ids != [] {
      var init, id := ids[..|ids| - 1], ids[|ids| - 1];
      PassMerges(c, d, init);
      MergeConcat(c, EMPTY_MERGE, DirPlaces(c, d, init), FilePlaces(c, d, id));
    }
  }

  lemma {:induction false} PlacesSet(id: nat, ls: seq<Located>)
    ensures RecordsOf(Places(id, ls)) == (set l | l in ls :: l.rec)
    ensures forall p :: p in Places(id, ls) ==> Placing(p)
    ensures forall p :: p in Places(id, ls) ==>
      exists i :: 0 <= i < |ls| && ls[i].rec == p.rec && ls[i].offset == p.ptr.fileOffset && p.ptr.segmentId == id
  {
    var ps := Places(id, ls);
    forall l | l in ls
      ensures l.rec in RecordsOf(ps)
    {
      var i :| 0 <= i < |ls| && ls[i] == l;
      assert ps[i] in ps;
    }
  }

  ghost function FramesOfIds(c: Codec, d: Disk, ids: seq<nat>): set<Record>
    requires forall i :: 0 <= i < |ids| ==> Segment(ids[i]) in d.dir
  {
    if ids == [] then {} else FramesOfIds(c, d, ids[..|ids| - 1]) + FramesIn(c, d.dir[Segment(ids[|ids| - 1])])
  }

  lemma {:induction false} DirPlacesRecords(c: Codec, d: Disk, ids: seq<nat>)
    requires forall i :: 0 <= i < |ids| ==> Segment(ids[i]) in d.dir
    ensures RecordsOf(DirPlaces(c, d, ids)) == FramesOfIds(c, d, ids)
    ensures forall p :: p in DirPlaces(c, d, ids) ==> Placing(p)
  {
    hide Scan;
    if ids != [] {
      var init, id := ids[..|ids| - 1], ids[|ids| - 1];
      DirPlacesRecords(c, d, init);
      PlacesSet(id, Scan(c, d.dir[Segment(id)], 0).frames);
      var a, b := DirPlaces(c, d, init), FilePlaces(c, d, id);
      assert RecordsOf(a + b) == RecordsOf(a) + RecordsOf(b);
    }
  }

  lemma {:induction false} FramesOfIdsMember(c: Codec, d: Disk, ids: seq<nat>, r: Record)
    requires forall i :: 0 <= i < |ids| ==> Segment(ids[i]) in d.dir
    ensures r in FramesOfIds(c, d, ids) <==> exists i :: 0 <= i < |ids| && r in FramesIn(c, d.dir[Segment(ids[i])])
  {
    hide FramesIn;
    if ids != [] {
      var init := ids[..|ids| - 1];
      FramesOfIdsMember(c, d, init, r);
      if i :| 0 <= i < |init| && r in FramesIn(c, d.dir[Segment(init[i])]) {
        assert ids[i] == init[i];
      }
      if i :| 0 <= i < |ids| && r in FramesIn(c, d.dir[Segment(ids[i])]) {
        assert i < |init| ==> init[i] == ids[i];
      }
    }
  }

  lemma {:induction false} ListedFrames(c: Codec, d: Disk, ids: seq<nat>)
    requires Listing(d, ids)
    ensures FramesOfIds(c, d, ids) == OnDisk(c, d)
  {
    hide FramesIn;
    forall r
      ensures r in FramesOfIds(c, d, ids) <==> r in OnDisk(c, d)
    {
      FramesOfIdsMember(c, d, ids, r);
      if i :| 0 <= i < |ids| && r in FramesIn(c, d.dir[Segment(ids[i])]) {
        SegmentIdsIff(d, ids[i]);
      }
      if r in OnDisk(c, d) {
        var id :| id in SegmentIds(d) && Segment(id) in d.dir && r in FramesIn(c, d.dir[Segment(id)]);
        assert id in ids;
        var i :| 0 <= i < |ids| && ids[i] == id;
      }
    }
  }

  /** Keys within the 32-byte limit, so that every frame found can also be read by pointer. */
  ghost predicate ShortKeys(c: Codec, s: set<Record>)
  {
    forall r :: r in s ==> |c.encText(r.key)| <= MAX_KEY_LEN
  }

  lemma {:induction false} DirPlacesRead(c: Codec, d: Disk, ids: seq<nat>)
    requires forall i :: 0 <= i < |ids| ==> Segment(ids[i]) in d.dir
    requires ShortKeys(c, FramesOfIds(c, d, ids))
    ensures forall p :: p in DirPlaces(c, d, ids) ==> ReadRecord(c, d, p.ptr) == Some(p.rec)
  {
    hide Scan, ReadAt;
    if ids != [] {
      var init, id := ids[..|ids| - 1], ids[|ids| - 1];
      DirPlacesRead(c, d, init);
      var file := d.dir[Segment(id)];
      var ls := Scan(c, file, 0).frames;
      forall p | p in FilePlaces(c, d, id)
        ensures ReadRecord(c, d, p.ptr) == Some(p.rec)
      {
        PlacesSet(id, ls);
        var i :| 0 <= i < |ls| && ls[i].rec == p.rec && ls[i].offset == p.ptr.fileOffset && p.ptr.segmentId == id;
        ScanReads(c, file, 0, i);
        assert ls[i] in ls;
        assert p.rec in FramesIn(c, file);
      }
    }
  }

  /**
   * The replay pass on any directory indexes exactly the newest-frame-wins view of all its frames,
   * whatever the segment ids, the copies, and the torn tails.
   */
  lemma {:induction false} PassIndexesDisk(c: Codec, d: Disk, ids: seq<nat>)
    requires Listing(d, ids) && Consistent(OnDisk(c, d)) && ShortKeys(c, OnDisk(c, d))
    ensures
      var m := PassAll(c, d, ids).merge;
      && Represents(m.idx, LiveView(OnDisk(c, d)))
      && Accounted(c, m.idx)
      && Reads(c, d, m.idx, LiveView(OnDisk(c, d)))
      && (forall r :: r in OnDisk(c, d) ==> r.seqId <= m.highest)
      && FreshFrom(m.idx, m.highest + 1)
  {
    hide Scan, ReadAt, Represents, Accounted, LiveView, FreshSeq, OnDisk, ReadRecord;
    PassMerges(c, d, ids);
    DirPlacesRecords(c, d, ids);
    ListedFrames(c, d, ids);
    DirPlacesRead(c, d, ids);
    var ps := DirPlaces(c, d, ids);
    MergeAllMerged(c, ps);
    var m := MergeAll(c, ps);
    RepresentsKeys(m.idx, LiveView(OnDisk(c, d)));
  }
}
