/**
 * Reasoning about the set of frames in a directory: which segment holds a frame, how the segments
 * are ordered, and which frames may be lost without changing the database they stand for.
 */
module FrameSets {
  import opened Wrappers
  import opened Bytes
  import opened Types
  import opened Frames
  import opened Index
  import opened LogMerge
  import opened Disk
  import opened GroupCommit
  import opened FlushIndex
  import opened Flusher
  import opened ShelfReplay
  import opened DiskView

  ghost predicate InFile(c: Codec, d: Disk, id: nat, r: Record)
  {
    Segment(id) in d.dir && r in FramesIn(c, d.dir[Segment(id)])
  }

  lemma {:induction false} OnDiskIff(c: Codec, d: Disk, skip: set<nat>, r: Record)
    ensures r in OnDiskExcept(c, d, skip) <==> exists id: nat :: id !in skip && InFile(c, d, id, r)
  {
    hide FramesIn;
    if id: nat :| id !in skip && InFile(c, d, id, r) {
      SegmentIdsIff(d, id);
    }
    if r in OnDiskExcept(c, d, skip) {
      var id :| id in SegmentIds(d) && id !in skip && Segment(id) in d.dir && r in FramesIn(c, d.dir[Segment(id)]);
      assert InFile(c, d, id, r);
    }
  }

  /** Only the segment files matter. */
  lemma {:induction false} SameSegmentsFrames(c: Codec, d: Disk, d': Disk)
    requires SameSegments(d, d')
    ensures OnDisk(c, d') == OnDisk(c, d)
  {
    hide FramesIn, OnDiskExcept;
    forall r
      ensures r in OnDisk(c, d') <==> r in OnDisk(c, d)
    {
      OnDiskIff(c, d, {}, r);
      OnDiskIff(c, d', {}, r);
      assert forall j: nat :: InFile(c, d, j, r) <==> InFile(c, d', j, r);
    }
  }

  // ---------- Which frames the database depends on ----------

  /** Every frame is outlived by the newest of its key. */
  lemma {:induction false} TopExists(s: set<Record>, r: Record) returns (t: Record)
    requires r in s
    ensures IsTop(s, t) && t.Compound() == r.Compound() && r.seqId <= t.seqId
    decreases set q | q in s && q.Compound() == r.Compound() && r.seqId < q.seqId
  {
    if q :| q in s && q.Compound() == r.Compound() && r.seqId < q.seqId {
      var above := set a | a in s && a.Compound() == r.Compound() && r.seqId < a.seqId;
      assert q in above;
      t := TopExists(s, q);
    } else {
      t := r;
    }
  }

  /**
   * Losing frames of `s` while `kept` stays, where `kept` alone gives the same database: the
   * database survives exactly when no lost tombstone leaves an older active frame of its key behind
   * as the newest one.
   */
  lemma {:induction false} LossExact(s: set<Record>, s': set<Record>, kept: set<Record>)
    requires Consistent(s) && kept <= s' <= s
    requires Consistent(kept) && LiveView(kept) == LiveView(s)
    ensures Consistent(s')
    ensures LiveView(s') == LiveView(s) <==>
      forall t, r :: t in s && t !in s' && t.IsTombstone() && r in s' && r.IsActive() && Older(r, t) ==> Shadowed(s', r)
  {
    hide LiveView;
    if LiveView(s') == LiveView(s) {
      assert forall t, r :: t in s && t.IsTombstone() && r in s' && r.IsActive() && Older(r, t) ==> Shadowed(s', r) by {
        LiveViewSound(s);
        LiveViewSound(s');
        forall t, r | t in s && t.IsTombstone() && r in s' && r.IsActive() && Older(r, t)
          ensures Shadowed(s', r)
        {
          assert Shadowed(s', r) || IsTop(s', r);
        }
      }
    }
    if forall t, r :: t in s && t !in s' && t.IsTombstone() && r in s' && r.IsActive() && Older(r, t) ==> Shadowed(s', r) {
      LossSufficient(s, s', kept);
    }
  }

  lemma {:induction false} LossSufficient(s: set<Record>, s': set<Record>, kept: set<Record>)
    requires Consistent(s) && kept <= s' <= s
    requires Consistent(s') && Consistent(kept) && LiveView(kept) == LiveView(s)
    requires forall t, r :: t in s && t !in s' && t.IsTombstone() && r in s' && r.IsActive() && Older(r, t) ==> Shadowed(s', r)
    ensures LiveView(s') == LiveView(s)
  {
    hide LiveView;
    LiveViewSound(s);
    LiveViewSound(s');
    LiveViewSound(kept);
    forall k | k in LiveView(s')
      ensures k in LiveView(s) && LiveView(s)[k] == LiveView(s')[k]
    {
      var r := LiveView(s')[k];
      var t := TopExists(s, r);
      StillTop(s, s', kept, r, t);
    }
    forall k | k in LiveView(s)
      ensures k in LiveView(s')
    {
      var r := LiveView(s)[k];
      assert k in LiveView(kept) && LiveView(kept)[k] == r;
      assert IsTop(s', r);
    }
  }

  lemma {:induction false} StillTop(s: set<Record>, s': set<Record>, kept: set<Record>, r: Record, t: Record)
    requires Consistent(s) && kept <= s' <= s
    requires Consistent(kept) && LiveView(kept) == LiveView(s)
    requires IsTop(s, t) && IsTop(s', r) && t.Compound() == r.Compound() && r.IsActive()
    requires t !in s' && t.IsTombstone() && Older(r, t) ==> Shadowed(s', r)
    ensures t == r
  {
    hide LiveView;
    LiveViewSound(s);
    LiveViewSound(kept);
    assert r in s && r.seqId <= t.seqId;
    assert t.IsTombstone() || t.IsActive();
  }

  ghost predicate Older(r: Record, t: Record)
  {
    r.Compound() == t.Compound() && r.seqId < t.seqId
  }

  ghost predicate Shadowed(s: set<Record>, r: Record)
  {
    exists q :: q in s && Older(r, q)
  }

  // ---------- Adding frames ----------

  /** `d'` holds the frames of `d` and those of `rs` in segment `id`. */
  ghost predicate Adds(c: Codec, d: Disk, d': Disk, id: nat, rs: seq<Record>)
  {
    && (forall j: nat :: Segment(j) in d'.dir <==> Segment(j) in d.dir || j == id)
    && (forall j: nat, r :: InFile(c, d', j, r) <==> InFile(c, d, j, r) || (j == id && r in rs))
  }

  ghost function FramesAt(c: Codec, d: Disk, id: nat): set<Record>
  {
    if Segment(id) in d.dir then FramesIn(c, d.dir[Segment(id)]) else {}
  }

  lemma {:induction false} UpdateAdds(c: Codec, d: Disk, d': Disk, id: nat, file: bytes, rs: seq<Record>)
    requires d'.dir == d.dir[Segment(id) := file]
    requires FramesIn(c, file) == FramesAt(c, d, id) + SetOf(rs)
    ensures Adds(c, d, d', id, rs)
  {
    hide FramesIn;
  }

  lemma {:induction false} EmptyFile(c: Codec)
    ensures Clean(c, []) && FramesIn(c, []) == {}
  {
  }

  lemma {:induction false} OnDiskAdds(c: Codec, d: Disk, d': Disk, id: nat, rs: seq<Record>, skip: set<nat>)
    requires Adds(c, d, d', id, rs)
    ensures OnDiskExcept(c, d', skip) == OnDiskExcept(c, d, skip) + if id in skip then {} else SetOf(rs)
  {
    hide InFile, OnDiskExcept;
    forall r
      ensures r in OnDiskExcept(c, d', skip) <==> r in OnDiskExcept(c, d, skip) + if id in skip then {} else SetOf(rs)
    {
      OnDiskIff(c, d, skip, r);
      OnDiskIff(c, d', skip, r);
    }
  }

  /** Applying new frames to the database is adding them to the set. */
  lemma {:induction false} LiveViewFold(c: Codec, s: set<Record>, rs: seq<Record>, first: nat)
    requires Consistent(s) && AllWritable(c, rs) && Consecutive(rs, first)
    requires forall r :: r in s ==> r.seqId < first
    ensures Consistent(s + SetOf(rs)) && LiveView(s + SetOf(rs)) == Fold(LiveView(s), rs)
    decreases |rs|
  {
    hide LiveView, Consistent;
    if rs == [] {
      assert s + SetOf(rs) == s;
    } else {
      var init, r := rs[..|rs| - 1], rs[|rs| - 1];
      assert rs == init + [r];
      LiveViewFold(c, s, init, first);
      assert Flagged(r);
      LiveViewFoldSnoc(s, init, r);
    }
  }

  lemma {:induction false} LiveViewFoldSnoc(s: set<Record>, init: seq<Record>, r: Record)
    requires Consistent(s) && Consistent(s + SetOf(init)) && LiveView(s + SetOf(init)) == Fold(LiveView(s), init)
    requires Flagged(r) && forall q :: q in s || q in init ==> q.seqId < r.seqId
    ensures Consistent(s + SetOf(init + [r])) && LiveView(s + SetOf(init + [r])) == Fold(LiveView(s), init + [r])
  {
    hide LiveView, Fold;
    assert s + SetOf(init + [r]) == s + SetOf(init) + {r};
    LiveViewNewer(s + SetOf(init), r);
    FoldSnoc(LiveView(s), init, r);
  }

  /** What a batch leaves of the database it started from. */
  lemma {:induction false} FoldOrigin(view: map<string, Record>, rs: seq<Record>)
    ensures
      var view' := Fold(view, rs);
      && (forall k :: k in view' ==> (k in view && view'[k] == view[k]) || view'[k] in rs)
      && (forall k :: k in view && k !in view' ==> exists r :: r in rs && r.Compound() == k)
    decreases |rs|
  {
    if rs != [] {
      FoldOrigin(ApplyView(view, rs[0]), rs[1..]);
    }
  }

  // ---------- How segments relate ----------

  /** Normal segments follow sequence order: every frame of a lower id is older. */
  ghost predicate Ordered(c: Codec, d: Disk)
  {
    forall a: nat, b: nat, r, q :: a < b < COMPACTION_ID_BASE && InFile(c, d, a, r) && InFile(c, d, b, q) ==> r.seqId < q.seqId
  }

  /** Compacted segments hold copies of active frames only: never a tombstone. */
  ghost predicate CopiesActive(c: Codec, d: Disk)
  {
    forall id: nat, r :: id >= COMPACTION_ID_BASE && InFile(c, d, id, r) ==> r.IsActive()
  }

  /** A copy newer than some frame of a normal segment outside `skip` still has its original there or further on. */
  ghost predicate Originals(c: Codec, d: Disk, skip: set<nat>)
  {
    forall x: nat, n: nat, g, r ::
      (x >= COMPACTION_ID_BASE && n < COMPACTION_ID_BASE && n !in skip && InFile(c, d, x, g) && InFile(c, d, n, r) && g.seqId > r.seqId)
      ==> HasOriginal(c, d, n, g)
  }

  ghost predicate HasOriginal(c: Codec, d: Disk, n: nat, g: Record)
  {
    exists m: nat :: n <= m < COMPACTION_ID_BASE && InFile(c, d, m, g)
  }

  ghost predicate FramesSound(c: Codec, d: Disk, next: nat)
  {
    && (forall i: nat, j: nat, r, q :: InFile(c, d, i, r) && InFile(c, d, j, q) && r.seqId == q.seqId ==> r == q)
    && (forall i: nat, r :: InFile(c, d, i, r) ==> r.seqId < next && Writable(c, r))
  }

  /** What a lost tail can look like, as opposed to damage. */
  predicate CutOff(tear: Option<TearKind>)
  {
    tear.None? || tear.value.TrailingTear? || tear.value.PayloadTear?
  }

  ghost predicate TailTorn(c: Codec, file: bytes)
  {
    CutOff(Scan(c, file, 0).tear)
  }

  /** Replay reads normal segments to their end; a compacted one may have lost its tail. */
  ghost predicate Tidy(c: Codec, d: Disk)
  {
    forall id: nat :: Segment(id) in d.dir ==>
      if id < COMPACTION_ID_BASE then Clean(c, d.dir[Segment(id)]) else TailTorn(c, d.dir[Segment(id)])
  }

  ghost predicate NewestIs(d: Disk, active: nat)
  {
    && Segment(active) in d.dir && active < COMPACTION_ID_BASE
    && forall id: nat :: Segment(id) in d.dir && id < COMPACTION_ID_BASE ==> id <= active
  }

  /** Frames in order. `skip` are the segments whose frames compaction may have copied, and remove. */
  ghost predicate DiskOk(c: Codec, d: Disk, next: nat, active: nat, skip: set<nat>)
  {
    && FramesSound(c, d, next)
    && Ordered(c, d)
    && CopiesActive(c, d)
    && Originals(c, d, skip)
    && Tidy(c, d)
    && NewestIs(d, active)
  }

  /** Normal segments that are not inputs come after all those that are. */
  ghost predicate NormalsNewer(d: Disk, inputs: set<nat>)
  {
    forall id: nat, i: nat ::
      Segment(id) in d.dir && id !in inputs && id < COMPACTION_ID_BASE && i in inputs && i < COMPACTION_ID_BASE ==> i < id
  }

  lemma {:induction false} SoundSets(c: Codec, d: Disk, next: nat, skip: set<nat>)
    requires FramesSound(c, d, next)
    ensures Consistent(OnDiskExcept(c, d, skip)) && ShortKeys(c, OnDiskExcept(c, d, skip))
    ensures forall r :: r in OnDiskExcept(c, d, skip) ==> r.seqId < next && Writable(c, r)
  {
    hide InFile, OnDiskExcept;
    forall r | r in OnDiskExcept(c, d, skip)
      ensures exists i: nat :: InFile(c, d, i, r)
    {
      OnDiskIff(c, d, skip, r);
    }
  }

  /** A copy of an active frame of some segment, put into a compacted segment, keeps the disk in order. */
  lemma {:induction false} CopyDiskOk(c: Codec, d: Disk, d': Disk, out: nat, r: Record, from: nat, next: nat, skip: set<nat>)
    requires Adds(c, d, d', out, [r]) && out >= COMPACTION_ID_BASE
    requires InFile(c, d, from, r) && r.IsActive()
    requires FramesSound(c, d, next) && Ordered(c, d) && CopiesActive(c, d) && Originals(c, d, skip)
    ensures FramesSound(c, d', next) && Ordered(c, d') && CopiesActive(c, d') && Originals(c, d', skip)
  {
    hide Writable, InFile;
    forall x: nat, n: nat, g, q |
      x >= COMPACTION_ID_BASE && n < COMPACTION_ID_BASE && n !in skip && InFile(c, d', x, g) && InFile(c, d', n, q) && g.seqId > q.seqId
      ensures HasOriginal(c, d', n, g)
    {
      assert InFile(c, d, n, q);
      var y := if InFile(c, d, x, g) then x else from;
      assert InFile(c, d, y, g);
      if y < COMPACTION_ID_BASE {
        assert n <= y;
        assert InFile(c, d', y, g);
      } else {
        var m: nat :| n <= m < COMPACTION_ID_BASE && InFile(c, d, m, g);
        assert InFile(c, d', m, g);
      }
    }
  }

  /** `d'` has lost frames of compacted segments, and of normal ones only whole segments of `lost`. */
  ghost predicate Loses(c: Codec, d: Disk, d': Disk, lost: set<nat>)
  {
    && (forall j: nat :: Segment(j) in d'.dir ==> Segment(j) in d.dir)
    && (forall j: nat, r :: InFile(c, d', j, r) ==> InFile(c, d, j, r))
    && (forall j: nat :: j < COMPACTION_ID_BASE && Segment(j) in d'.dir ==> d'.dir[Segment(j)] == d.dir[Segment(j)])
    && (forall j: nat :: j < COMPACTION_ID_BASE && j !in lost && Segment(j) in d.dir ==> Segment(j) in d'.dir)
  }

  lemma {:induction false} LosesDiskOk(c: Codec, d: Disk, d': Disk, next: nat, lost: set<nat>, skip: set<nat>)
    requires Loses(c, d, d', lost) && lost <= skip && NormalsNewer(d, skip)
    requires FramesSound(c, d, next) && Ordered(c, d) && CopiesActive(c, d) && Originals(c, d, skip)
    ensures FramesSound(c, d', next) && Ordered(c, d') && CopiesActive(c, d') && Originals(c, d', skip)
  {
    hide Writable, FramesIn;
    forall x: nat, n: nat, g, q |
      x >= COMPACTION_ID_BASE && n < COMPACTION_ID_BASE && n !in skip && InFile(c, d', x, g) && InFile(c, d', n, q) && g.seqId > q.seqId
      ensures HasOriginal(c, d', n, g)
    {
      var m: nat :| n <= m < COMPACTION_ID_BASE && InFile(c, d, m, g);
      assert InFile(c, d', m, g);
    }
  }

  // ---------- Cutting ----------

  lemma {:induction false} PrefixFrames(c: Codec, file: bytes, file': bytes)
    requires file' <= file
    ensures FramesIn(c, file') <= FramesIn(c, file)
  {
    hide Scan;
    CutFrames(c, file', file[|file'|..], 0);
    assert file' + file[|file'|..] == file;
  }

  /** A file that was only ever cut can be cut again. */
  lemma {:induction false} CutAgain(c: Codec, file: bytes, tail: bytes, off: nat)
    requires off <= |file| && CutOff(Scan(c, file + tail, off).tear)
    ensures CutOff(Scan(c, file, off).tear)
    decreases |file| - off
  {
    hide FrameAt;
    if off + HEADER_LEN <= |file| {
      FrameCut(c, file, tail, off);
      if FrameAt(c, file, off).Good? {
        ScanGood(c, file, off);
        ScanGood(c, file + tail, off);
        CutAgain(c, file, tail, off + FrameAt(c, file, off).len);
      } else {
        assert Scan(c, file, off).tear == Some(FrameAt(c, file, off).kind);
        if FrameAt(c, file + tail, off).Bad? {
          assert Scan(c, (file + tail), off).tear == Some(FrameAt(c, (file + tail), off).kind);
        }
      }
    } else {
      assert CutOff(Scan(c, file, off).tear);
    }
  }

  lemma {:induction false} FrameCut(c: Codec, file: bytes, tail: bytes, off: nat)
    requires off + HEADER_LEN <= |file|
    ensures FrameAt(c, file, off) == FrameAt(c, file + tail, off) || (FrameAt(c, file, off).Bad? && FrameAt(c, file, off).kind.PayloadTear?)
  {
    var file' := file + tail;
    assert file'[off..off + HEADER_LEN] == file[off..off + HEADER_LEN];
    var h := DecodeHeader(file[off..off + HEADER_LEN]);
    if off + HEADER_LEN + h.payloadLen <= |file| {
      assert file'[off + HEADER_LEN..off + HEADER_LEN + h.payloadLen] == file[off + HEADER_LEN..off + HEADER_LEN + h.payloadLen];
    }
  }
}
