/**
 * What compaction and group commits do to the set of frames on disk: ids stay disjoint and ordered, the active
 * segment is the newest, and every live record is the newest frame of its key. Removals not yet durable count as on
 * disk as far as order goes, as a power loss may bring them back.
 */
module CompactionFrames {
  import opened Wrappers
  import opened Bytes
  import opened Types
  import opened Frames
  import opened Index
  import opened LogMerge
  import opened Disk
  import opened GroupCommit
  import opened FlushIndex
  import opened Flusher
  import opened ShelfReplay
  import opened CommitSafety
  import opened DiskView
  import opened FrameSets
  import opened Compaction

  /** The files of a directory with every pending removal undone. */
  ghost function Full(d: Disk): Disk
  {
    Disk(d.unlinks + d.dir, map[], {}, map[])
  }

  lemma {:induction false} FullPlain(d: Disk)
    requires d.unlinks == map[]
    ensures Full(d) == Disk(d.dir, map[], {}, map[])
  {
    assert d.unlinks + d.dir == d.dir;
  }

  /** The segments whose removal is pending. */
  ghost function Gone(d: Disk): set<nat>
  {
    set p | p in d.unlinks && p.Segment? :: p.id
  }

  lemma {:induction false} GoneIff(d: Disk, id: nat)
    ensures id in Gone(d) <==> Segment(id) in d.unlinks
  {
    if Segment(id) in d.unlinks {
      assert Segment(id).id == id;
    }
  }

  lemma {:induction false} NoneGone(d: Disk)
    ensures d.unlinks == map[] ==> Gone(d) == {}
  {
  }

  // ---------- The invariant ----------

  /** Every live record is a frame of the segment its pointer names. */
  ghost predicate PointsToFrames(c: Codec, d: Disk, idx: Index, view: map<string, Record>)
  {
    forall k :: k in view && k in idx.primary ==> InFile(c, d, idx.primary[k].segmentId, view[k])
  }

  /** Every live record is on disk, and the newest frame of its key there. */
  ghost predicate Uppermost(c: Codec, d: Disk, view: map<string, Record>)
  {
    Consistent(OnDisk(c, d)) && forall k :: k in view ==> k in LiveView(OnDisk(c, d)) && LiveView(OnDisk(c, d))[k] == view[k]
  }

  /** Nothing of the inputs is newer than `r`. */
  ghost predicate NotShadowed(c: Codec, d: Disk, inputs: set<nat>, r: Record)
  {
    forall id: nat, g :: id in inputs && InFile(c, d, id, g) && g.Compound() == r.Compound() ==> g.seqId <= r.seqId
  }

  /** A picked pointer leads to an active frame of its segment that nothing in the inputs shadows. */
  ghost predicate PickOk(c: Codec, d: Disk, inputs: set<nat>, p: LogPointer)
  {
    var r := ReadRecord(c, d, p);
    r.Some? && InFile(c, d, p.segmentId, r.value) && r.value.IsActive() && NotShadowed(c, d, inputs, r.value)
  }

  ghost predicate OnlyCompacted(d: Disk, inputs: set<nat>, allowed: set<nat>)
  {
    forall id: nat :: Segment(id) in d.dir && id !in inputs && id >= COMPACTION_ID_BASE ==> id in allowed
  }

  ghost predicate OutFrames(c: Codec, d: Disk, inputs: set<nat>, out: nat)
  {
    && Segment(out) in d.dir && Clean(c, d.dir[Segment(out)])
    && (forall i :: i in inputs ==> i < out)
    && forall r :: InFile(c, d, out, r) ==> NotShadowed(c, d, inputs, r)
  }

  ghost predicate LiveNotShadowed(c: Codec, d: Disk, inputs: set<nat>, view: map<string, Record>)
  {
    forall k :: k in view ==> NotShadowed(c, d, inputs, view[k])
  }

  /** A compacted segment above these, not one of them, is there. */
  ghost predicate OutAbove(d: Disk, below: set<nat>)
  {
    exists j: nat :: j >= COMPACTION_ID_BASE && Segment(j) in d.dir && j !in below && forall i :: i in below ==> i < j
  }

  /** `d` are the files there are, `f` those with pending removals undone. */
  ghost predicate PhaseFrames(c: Codec, d: Disk, f: Disk, phase: Phase, view: map<string, Record>)
  {
    match phase
    case NoCompaction => true
    case Walking(active, inputs, _, picked) =>
      && OnlyCompacted(d, inputs, {})
      && (forall k :: k in picked ==> PickOk(c, d, inputs, picked[k]))
    case Copying(inputs, out, todo, moved) =>
      && OnlyCompacted(d, inputs, {out})
      && OutFrames(c, d, inputs, out)
      && (forall k :: k in todo ==> PickOk(c, d, inputs, todo[k]))
      && (forall k :: k in moved ==> PickOk(c, d, inputs, moved[k].to))
    case Sealed(inputs, out, moved) =>
      && OnlyCompacted(d, inputs, {out})
      && OutFrames(c, d, inputs, out)
      && (forall k :: k in moved ==> PickOk(c, d, inputs, moved[k].to))
    case Unlinking(inputs, left) =>
      && OutAbove(d, inputs)
      && LiveNotShadowed(c, f, inputs, view)
  }

  /** While inputs are being removed, the database is what the other segments hold. */
  ghost function Hidden(phase: Phase): set<nat>
  {
    if phase.Unlinking? then phase.inputs else {}
  }

  ghost predicate ViewOnDisk(c: Codec, d: Disk, skip: set<nat>, view: map<string, Record>)
  {
    Consistent(OnDiskExcept(c, d, skip)) && LiveView(OnDiskExcept(c, d, skip)) == view
  }

  /** Only segments are pending removal: none once the output is sealed, then inputs; the compacted ones below one there is. */
  ghost predicate PendingOk(d: Disk, phase: Phase)
  {
    && (forall p :: p in d.unlinks ==> p.Segment? && p !in d.dir)
    && (phase.Sealed? ==> d.unlinks == map[])
    && (phase.Unlinking? ==> Gone(d) <= phase.inputs)
    && (forall i :: i in Gone(d) && i >= COMPACTION_ID_BASE ==> exists j: nat :: i < j && Segment(j) in d.dir)
  }

  /** The segments whose frames a compaction may have copied, or may yet copy, and remove. */
  ghost function Skipped(phase: Phase, f: Disk, gone: set<nat>, active: nat): set<nat>
  {
    if phase.NoCompaction? then SegmentIds(f) - {active} else phase.inputs + gone
  }

  /** The whole invariant of the frames; a failed flusher may have left frames nobody was told about. */
  ghost predicate FramesOk(c: Codec, s: Sys)
  {
    !s.db.failed ==>
      var d, f := s.db.disk, Full(s.db.disk);
      var skip := Skipped(s.phase, f, Gone(d), s.db.activeId);
      && DiskOk(c, f, s.db.nextSeq, s.db.activeId, skip) && NormalsNewer(f, skip)
      && PointsToFrames(c, d, s.db.idx, s.view)
      && Uppermost(c, d, s.view)
      && PhaseFrames(c, d, f, s.phase, s.view)
      && PendingOk(d, s.phase)
  }

  /** The database is all there is on disk: no frame of a deleted key is left as the newest one. */
  ghost predicate ViewOk(c: Codec, s: Sys)
  {
    !s.db.failed ==> ViewOnDisk(c, s.db.disk, Hidden(s.phase), s.view)
  }

  // ---------- Group commits ----------

  /** Frames of new records in a segment that is no input, newer than all inputs. */
  ghost predicate Extends(c: Codec, d: Disk, d': Disk, id: nat, rs: seq<Record>, next: nat)
  {
    && Adds(c, d, d', id, rs) && Grows(d, d')
    && id < COMPACTION_ID_BASE
    && (forall j: nat :: j != id && Segment(j) in d.dir ==> d'.dir[Segment(j)] == d.dir[Segment(j)])
    && (forall j: nat :: Segment(j) in d.dir && j < COMPACTION_ID_BASE ==> j <= id)
    && AllWritable(c, rs) && Consecutive(rs, next)
  }

  /** What the next compaction must answer for is where it was, or in a new and empty segment. */
  lemma {:induction false} ExtendsOriginals(c: Codec, d: Disk, d': Disk, id: nat, rs: seq<Record>, next: nat, phase: Phase, gone: set<nat>, active: nat)
    requires Extends(c, d, d', id, rs, next) && FramesSound(c, d, next) && Originals(c, d, Skipped(phase, d, gone, active))
    requires id == active || (rs == [] && Segment(id) !in d.dir)
    ensures Originals(c, d', Skipped(phase, d', gone, id))
  {
    if phase.NoCompaction? {
      if id == active {
        assert Originals(c, d', Skipped(phase, d', gone, id));
      } else {
        assert Originals(c, d', SegmentIds(d') - {id}) by {
          forall n: nat, r | InFile(c, d', n, r)
            ensures n in SegmentIds(d') - {id}
          {
            SegmentIdsIff(d', n);
            assert InFile(c, d, n, r);
          }
        }
      }
    }
  }

  /** The newest normal segment is above all others. */
  lemma {:induction false} NewestNewer(d: Disk, active: nat)
    requires NewestIs(d, active)
    ensures NormalsNewer(d, SegmentIds(d) - {active})
  {
    hide SegmentIds;
    forall id: nat, i: nat |
      Segment(id) in d.dir && id !in SegmentIds(d) - {active} && id < COMPACTION_ID_BASE && i in SegmentIds(d) - {active} && i < COMPACTION_ID_BASE
      ensures i < id
    {
      SegmentIdsIff(d, id);
      SegmentIdsIff(d, i);
    }
  }

  lemma {:induction false} PhaseExtends(c: Codec, d: Disk, d': Disk, f: Disk, f': Disk, id: nat, rs: seq<Record>, next: nat, phase: Phase, view: map<string, Record>)
    requires Extends(c, d, d', id, rs, next) && Extends(c, f, f', id, rs, next) && FramesSound(c, f, next)
    requires !phase.NoCompaction? ==> id !in phase.inputs
    requires phase.Copying? || phase.Sealed? ==> phase.out >= COMPACTION_ID_BASE
    requires PhaseFrames(c, d, f, phase, view)
    ensures PhaseFrames(c, d', f', phase, Fold(view, rs))
  {
    hide InFile, Fold;
    if phase.Unlinking? {
      assert LiveNotShadowed(c, f', phase.inputs, Fold(view, rs)) by {
        assert forall r :: r in rs ==> next <= r.seqId;
        FoldOrigin(view, rs);
        forall k, j: nat, g | k in Fold(view, rs) && j in phase.inputs && InFile(c, f', j, g) && g.Compound() == Fold(view, rs)[k].Compound()
          ensures g.seqId <= Fold(view, rs)[k].seqId
        {
          assert InFile(c, f, j, g);
        }
      }
    } else if !phase.NoCompaction? {
      forall p | PickOk(c, d, phase.inputs, p)
        ensures PickOk(c, d', phase.inputs, p)
      {
        ReadGrows(c, d, d', p);
      }
    }
  }

  /** After a batch each live pointer is an old one to an old record, or leads into the active segment. */
  lemma {:induction false} ApplyAllTargets(c: Codec, idx: Index, view: map<string, Record>, id: nat, offset: nat, rs: seq<Record>)
    requires idx.primary.Keys == view.Keys
    ensures
      var idx', view' := ApplyAll(c, idx, id, offset, rs), Fold(view, rs);
      && idx'.primary.Keys == view'.Keys
      && forall k :: k in view' ==>
           || (k in view && view'[k] == view[k] && idx'.primary[k] == idx.primary[k])
           || (view'[k] in rs && idx'.primary[k].segmentId == id)
    decreases |rs|
  {
    hide EncodeFrame;
    if rs != [] {
      var p := PointerTo(id, offset, rs[0]);
      ApplyTarget(c, idx, view, rs[0], p);
      hide Apply, ApplyView;
      ApplyAllTargets(c, Apply(c, idx, rs[0], p), ApplyView(view, rs[0]), id, offset + |EncodeFrame(c, rs[0])|, rs[1..]);
    }
  }

  lemma {:induction false} ApplyTarget(c: Codec, idx: Index, view: map<string, Record>, r: Record, p: LogPointer)
    requires idx.primary.Keys == view.Keys
    ensures
      var idx', view' := Apply(c, idx, r, p), ApplyView(view, r);
      && idx'.primary.Keys == view'.Keys
      && forall k :: k in view' ==>
           || (k in view && view'[k] == view[k] && idx'.primary[k] == idx.primary[k])
           || (view'[k] == r && idx'.primary[k] == p)
  {
  }

  lemma {:induction false} PointersExtend(c: Codec, d: Disk, d': Disk, id: nat, offset: nat, rs: seq<Record>, idx: Index, view: map<string, Record>)
    requires Adds(c, d, d', id, rs) && PointsToFrames(c, d, idx, view) && idx.primary.Keys == view.Keys
    ensures PointsToFrames(c, d', ApplyAll(c, idx, id, offset, rs), Fold(view, rs))
  {
    hide InFile, ApplyAll, Fold;
    ApplyAllTargets(c, idx, view, id, offset, rs);
  }

  lemma {:induction false} ViewExtends(c: Codec, d: Disk, d': Disk, id: nat, rs: seq<Record>, next: nat, skip: set<nat>, view: map<string, Record>)
    requires Extends(c, d, d', id, rs, next) && FramesSound(c, d, next) && id !in skip
    requires ViewOnDisk(c, d, skip, view)
    ensures ViewOnDisk(c, d', skip, Fold(view, rs))
  {
    hide InFile, AllWritable, Consecutive, Grows, OnDiskExcept, LiveView, FramesSound, Consistent;
    SoundSets(c, d, next, skip);
    OnDiskAdds(c, d, d', id, rs, skip);
    LiveViewFold(c, OnDiskExcept(c, d, skip), rs, next);
  }

  /** A batch does to a part of a map what it does to the map. */
  lemma {:induction false} FoldPart(view: map<string, Record>, all: map<string, Record>, rs: seq<Record>)
    requires forall k :: k in view ==> k in all && all[k] == view[k]
    ensures forall k :: k in Fold(view, rs) ==> k in Fold(all, rs) && Fold(all, rs)[k] == Fold(view, rs)[k]
    decreases |rs|
  {
    if rs != [] {
      FoldPart(ApplyView(view, rs[0]), ApplyView(all, rs[0]), rs[1..]);
    }
  }

  lemma {:induction false} UpperExtends(c: Codec, d: Disk, d': Disk, id: nat, rs: seq<Record>, next: nat, view: map<string, Record>)
    requires Extends(c, d, d', id, rs, next) && FramesSound(c, d, next) && Uppermost(c, d, view)
    ensures Uppermost(c, d', Fold(view, rs))
  {
    var all := LiveView(OnDisk(c, d));
    UpperIs(c, d, view, all);
    hide Extends, FramesSound, Fold, LiveView, Uppermost, ViewOnDisk;
    ViewExtends(c, d, d', id, rs, next, {}, all);
    FoldPart(view, all, rs);
    UpperIs(c, d', Fold(view, rs), Fold(all, rs));
  }

  lemma {:induction false} UpperIs(c: Codec, d: Disk, view: map<string, Record>, all: map<string, Record>)
    ensures ViewOnDisk(c, d, {}, all) ==>
      (Uppermost(c, d, view) <==> forall k :: k in view ==> k in all && all[k] == view[k])
    ensures Uppermost(c, d, view) ==> ViewOnDisk(c, d, {}, LiveView(OnDisk(c, d)))
  {
    hide LiveView, Consistent, OnDiskExcept;
  }

  /** A batch of new frames at the end of the newest normal segment keeps everything. */
  lemma {:induction false} BatchFrames(c: Codec, s: Sys, s': Sys, id: nat, offset: nat, rs: seq<Record>)
    requires FramesOk(c, s) && !s.db.failed && s'.phase == s.phase
    requires Extends(c, s.db.disk, s'.db.disk, id, rs, s.db.nextSeq) && Extends(c, Full(s.db.disk), Full(s'.db.disk), id, rs, s.db.nextSeq)
    requires id == s.db.activeId || (rs == [] && Segment(id) !in Full(s.db.disk).dir)
    requires s'.db.disk.unlinks == s.db.disk.unlinks && s'.db.activeId == id && s'.db.nextSeq == s.db.nextSeq + |rs|
    requires s'.db.idx == ApplyAll(c, s.db.idx, id, offset, rs) && s'.view == Fold(s.view, rs)
    requires s.db.idx.primary.Keys == s.view.Keys
    requires Tidy(c, Full(s'.db.disk)) && Segment(id) !in s.db.disk.unlinks
    requires !s.phase.NoCompaction? ==> id !in s.phase.inputs && forall i :: i in s.phase.inputs + Gone(s.db.disk) && i < COMPACTION_ID_BASE ==> i < id
    requires s.phase.Copying? || s.phase.Sealed? ==> s.phase.out >= COMPACTION_ID_BASE
    ensures FramesOk(c, s')
    ensures ViewOk(c, s) ==> ViewOk(c, s')
  {
    hide PhaseFrames, ViewOnDisk, PointsToFrames, Uppermost, Originals, Tidy, Grows, ApplyAll, Fold, Full;
    var d, d', f, f', gone := s.db.disk, s'.db.disk, Full(s.db.disk), Full(s'.db.disk), Gone(s.db.disk);
    assert FramesSound(c, f', s.db.nextSeq + |rs|) && Ordered(c, f') && CopiesActive(c, f');
    ExtendsOriginals(c, f, f', id, rs, s.db.nextSeq, s.phase, gone, s.db.activeId);
    assert NormalsNewer(f', Skipped(s.phase, f', gone, id));
    PhaseExtends(c, d, d', f, f', id, rs, s.db.nextSeq, s.phase, s.view);
    PartSound(c, d, s.db.nextSeq);
    UpperExtends(c, d, d', id, rs, s.db.nextSeq, s.view);
    PointersExtend(c, d, d', id, offset, rs, s.db.idx, s.view);
    if ViewOk(c, s) {
      ViewExtends(c, d, d', id, rs, s.db.nextSeq, Hidden(s.phase), s.view);
    }
    assert PendingOk(d', s.phase) by {
      assert Gone(d') == Gone(d);
      assert forall p :: p in d.unlinks ==> p == Segment(p.id) && p.id != id;
    }
  }

  /** The files there are form part of those with pending removals undone. */
  lemma {:induction false} PartSound(c: Codec, d: Disk, next: nat)
    requires FramesSound(c, Full(d), next)
    ensures FramesSound(c, d, next)
  {
    hide Writable, FramesIn;
    forall id: nat, r | InFile(c, d, id, r)
      ensures InFile(c, Full(d), id, r)
    {
    }
  }

  /** Without the removed ones, the files are those there are. */
  lemma {:induction false} ExceptGone(c: Codec, d: Disk, skip: set<nat>)
    requires forall p :: p in d.unlinks ==> p.Segment? && p !in d.dir
    ensures OnDiskExcept(c, Full(d), skip + Gone(d)) == OnDiskExcept(c, d, skip)
  {
    hide OnDiskExcept, FramesIn;
    forall r
      ensures r in OnDiskExcept(c, Full(d), skip + Gone(d)) <==> r in OnDiskExcept(c, d, skip)
    {
      OnDiskIff(c, Full(d), skip + Gone(d), r);
      OnDiskIff(c, d, skip, r);
      forall id: nat
        ensures id !in skip + Gone(d) && InFile(c, Full(d), id, r) <==> id !in skip && InFile(c, d, id, r)
      {
        GoneIff(d, id);
      }
    }
  }

  // ---------- Making removals durable ----------

  ghost predicate FilesOf(d: Disk, d': Disk)
  {
    forall j: nat :: Segment(j) in d'.dir ==> Segment(j) in d.dir && d'.dir[Segment(j)] == d.dir[Segment(j)]
  }

  lemma {:induction false} SubsetDiskOk(c: Codec, d: Disk, d': Disk, next: nat, active: nat, lost: set<nat>, skip: set<nat>)
    requires DiskOk(c, d, next, active, skip) && Loses(c, d, d', lost) && lost <= skip && NormalsNewer(d, skip)
    requires FilesOf(d, d') && Segment(active) in d'.dir
    ensures DiskOk(c, d', next, active, skip) && NormalsNewer(d', skip)
  {
    hide FramesSound, Ordered, CopiesActive, Originals, Loses;
    LosesDiskOk(c, d, d', next, lost, skip);
  }

  /** What is left when the removals so far have become durable. */
  lemma {:induction false} SettledRemovals(c: Codec, d: Disk)
    requires forall p :: p in d.unlinks ==> p.Segment? && p !in d.dir
    ensures Loses(c, Full(d), d, Gone(d)) && FilesOf(Full(d), d)
  {
    hide FramesIn;
    forall j: nat
      ensures j in Gone(d) <==> Segment(j) in d.unlinks
    {
      GoneIff(d, j);
    }
    hide Gone;
  }

  /** Frames in order, and fewer segments to answer for. */
  lemma {:induction false} FewerSkipped(c: Codec, d: Disk, next: nat, active: nat, skip: set<nat>, skip': set<nat>)
    requires DiskOk(c, d, next, active, skip) && NormalsNewer(d, skip)
    requires forall n: nat :: Segment(n) in d.dir ==> (n in skip <==> n in skip')
    requires forall n: nat :: n in skip' && n < COMPACTION_ID_BASE ==> n in skip
    ensures DiskOk(c, d, next, active, skip') && NormalsNewer(d, skip')
  {
    hide FramesSound, Ordered, CopiesActive, Tidy, NewestIs, FramesIn;
  }

  /** A directory sync keeps everything, whatever was pending. */
  lemma {:induction false} DirSyncFrames(c: Codec, s: Sys, s': Sys)
    requires SysOk(c, s) && FramesOk(c, s) && !s.db.failed
    requires s'.db.disk.dir == s.db.disk.dir && s'.db.disk.unlinks == map[]
    requires s'.db.idx == s.db.idx && s'.db.nextSeq == s.db.nextSeq && s'.db.activeId == s.db.activeId
    requires s'.view == s.view && s'.phase == s.phase && s'.db.failed == s.db.failed
    ensures FramesOk(c, s')
    ensures ViewOk(c, s) ==> ViewOk(c, s')
  {
    ActiveThere(c, s);
    assert
      var f', active := Full(s'.db.disk), s.db.activeId;
      var skip' := Skipped(s.phase, f', Gone(s'.db.disk), active);
      DiskOk(c, f', s.db.nextSeq, active, skip') && NormalsNewer(f', skip') by {
      var d, f, f', active := s.db.disk, Full(s.db.disk), Full(s'.db.disk), s.db.activeId;
      var skip, skip' := Skipped(s.phase, f, Gone(d), active), Skipped(s.phase, f', Gone(s'.db.disk), active);
      NoneGone(s'.db.disk);
      FullPlain(s'.db.disk);
      SettledRemovals(c, d);
      GoneSkipped(d, s.phase, active);
      SameLoses(c, f, d, f', Gone(d));
      SubsetDiskOk(c, f, f', s.db.nextSeq, active, Gone(d), skip);
      FewerSkipped(c, f', s.db.nextSeq, active, skip, skip');
    }
    SameDirectory(c, s, s'.db.disk);
    assert PendingOk(s'.db.disk, s'.phase) by {
      NoneGone(s'.db.disk);
    }
  }

  lemma {:induction false} ActiveThere(c: Codec, s: Sys)
    requires SysOk(c, s) && !s.db.failed
    ensures Segment(s.db.activeId) in s.db.disk.dir
  {
    hide Serves, FreshFrom, IdsOk, PhaseOk;
  }

  lemma {:induction false} SameLoses(c: Codec, f: Disk, d: Disk, d': Disk, lost: set<nat>)
    requires Loses(c, f, d, lost) && FilesOf(f, d) && d'.dir == d.dir
    ensures Loses(c, f, d', lost) && FilesOf(f, d')
  {
    hide FramesIn;
  }

  lemma {:induction false} GoneSkipped(d: Disk, phase: Phase, active: nat)
    requires Segment(active) in d.dir && forall p :: p in d.unlinks ==> p.Segment? && p !in d.dir
    ensures Gone(d) <= Skipped(phase, Full(d), Gone(d), active)
  {
    forall i | i in Gone(d)
      ensures i in Skipped(phase, Full(d), Gone(d), active)
    {
      GoneIff(d, i);
      SegmentIdsIff(Full(d), i);
    }
  }

  lemma {:induction false} SamePhase(c: Codec, s: Sys, d': Disk)
    requires FramesOk(c, s) && !s.db.failed && d'.dir == s.db.disk.dir && d'.unlinks == map[]
    ensures PhaseFrames(c, d', Full(d'), s.phase, s.view)
  {
    hide DiskOk, NormalsNewer, Skipped, PointsToFrames, Uppermost, PendingOk, PhaseFrames, FramesIn, Gone;
    FullPlain(d');
    assert forall j: nat, r :: InFile(c, Full(d'), j, r) ==> InFile(c, Full(s.db.disk), j, r);
    hide Full;
    PhaseThere(c, s.db.disk, d', Full(s.db.disk), Full(d'), s.phase, s.view);
  }

  /** The files there are say what they said. */
  lemma {:induction false} SameDirectory(c: Codec, s: Sys, d': Disk)
    requires FramesOk(c, s) && !s.db.failed && d'.dir == s.db.disk.dir && d'.unlinks == map[]
    ensures PointsToFrames(c, d', s.db.idx, s.view) && Uppermost(c, d', s.view)
    ensures PhaseFrames(c, d', Full(d'), s.phase, s.view)
    ensures ViewOnDisk(c, s.db.disk, Hidden(s.phase), s.view) ==> ViewOnDisk(c, d', Hidden(s.phase), s.view)
  {
    var d := s.db.disk;
    SameOnDisk(c, d, d', {});
    SameOnDisk(c, d, d', Hidden(s.phase));
    FullPlain(d');
    SamePhase(c, s, d');
    hide DiskOk, PhaseFrames, NormalsNewer, Skipped, Full, Gone, OnDiskExcept, LiveView, Consistent, FramesIn, PendingOk;
  }

  lemma {:induction false} SameOnDisk(c: Codec, d: Disk, d': Disk, skip: set<nat>)
    requires d'.dir == d.dir
    ensures OnDiskExcept(c, d', skip) == OnDiskExcept(c, d, skip)
  {
    hide FramesIn;
    assert SegmentIds(d') == SegmentIds(d);
  }

  /** Only the files there are matter, and that no frame is added to the removed ones. */
  lemma {:induction false} PhaseThere(c: Codec, d: Disk, d': Disk, f: Disk, f': Disk, phase: Phase, view: map<string, Record>)
    requires PhaseFrames(c, d, f, phase, view) && d'.dir == d.dir
    requires forall j: nat, r :: InFile(c, f', j, r) ==> InFile(c, f, j, r)
    ensures PhaseFrames(c, d', f', phase, view)
  {
    hide InFile, PickOk, OutFrames;
    SamePicks(c, d, d');
  }

  lemma {:induction false} SamePicks(c: Codec, d: Disk, d': Disk)
    requires d'.dir == d.dir
    ensures forall inputs, p :: PickOk(c, d, inputs, p) ==> PickOk(c, d', inputs, p)
    ensures forall inputs, out :: OutFrames(c, d, inputs, out) ==> OutFrames(c, d', inputs, out)
  {
    hide FramesIn, ReadAt;
    assert forall j: nat, r :: InFile(c, d', j, r) <==> InFile(c, d, j, r);
    assert forall p :: ReadRecord(c, d', p) == ReadRecord(c, d, p);
    hide InFile, ReadRecord, Clean;
  }
}
