/**
 * The death of the process without a power loss: nothing on disk is lost, and what was pending still is. The next
 * opening then runs on a directory with a torn tail, a pending segment, an unfinished compaction output or removals
 * that a later power loss may undo.
 */
module Restart {
  import opened Wrappers
  import opened Bytes
  import opened Types
  import opened Frames
  import opened Index
  import opened LogMerge
  import opened Disk
  import opened GroupCommit
  import opened FlushIndex
  import opened Flusher
  import opened Recovery
  import opened Shelves
  import opened ShelfReplay
  import opened OpenAfterCrash
  import opened DiskView
  import opened FrameSets
  import opened Compaction
  import opened CompactionFrames
  import opened Survival
  import opened CompactionSteps
  import opened CompactionCrash
  import opened Reopen
  import opened TornTail
  import opened MidCommit
  import opened CommitCrash

  /** The database that replay of a directory finds. */
  ghost function Holding(c: Codec, d: Disk): map<string, Record>
  {
    if Consistent(OnDisk(c, d)) then LiveView(OnDisk(c, d)) else map[]
  }

  // ---------- What a dead process leaves ----------

  /** `d` has the segments of `d1`, a disk at which the process may die, with no more of them pending. */
  ghost predicate Remains(c: Codec, d1: Disk, d: Disk, phase: Phase, view: map<string, Record>, rs: seq<Record>, k: nat, complete: bool)
  {
    && Shadow(c, d1, phase, view, rs, complete) && SameShelves(d1, d)
    && (complete ==> FirstOnDisk(c, d1, rs, k) && Holding(c, d1) == Fold(view, rs[..k]))
  }

  /** What a dead process has left; if asked, no database was lost with it. */
  ghost predicate Relic(c: Codec, d: Disk, complete: bool)
  {
    exists d1, phase, view, rs, k :: Remains(c, d1, d, phase, view, rs, k, complete)
  }

  /** A directory in order, `d0`, with a torn tail behind its active segment; no segment is pending. */
  ghost predicate WreckOf(c: Codec, d0: Disk, d: Disk, next: nat, active: nat)
  {
    && Still(d) && TornOf(c, d0, d, active) && 1 <= active
    && DiskOk(c, d0, next, active, SegmentIds(d0) - {active})
    && Consistent(OnDisk(c, d0)) && OnDisk(c, d) == OnDisk(c, d0)
  }

  ghost predicate Wreck(c: Codec, d: Disk)
  {
    exists d0, next, active :: WreckOf(c, d0, d, next, active)
  }

  // ---------- Losing power ----------

  lemma {:induction false} LossWreck(c: Codec, s0: Sys, d0: Disk, d: Disk)
    requires LossOf(c, s0, d0, d) && Still(d)
    ensures Wreck(c, d)
  {
    LossDirectory(c, s0, d0, d);
    assert TornOf(c, d0, d, s0.db.activeId);
    hide LossOf, Still, OnDiskExcept, Consistent, DiskOk, TornOf, SegmentIds;
    assert WreckOf(c, d0, d, s0.db.nextSeq, s0.db.activeId);
  }

  lemma {:induction false} ShadowWreck(c: Codec, d: Disk, d': Disk, phase: Phase, view: map<string, Record>, rs: seq<Record>, complete: bool)
    requires c.Lawful() && Shadow(c, d, phase, view, rs, complete) && CrashOf(d, d')
    ensures Wreck(c, d')
  {
    hide Shadow, CrashOf, LossOf, Wreck, Intact, Fold, OnDiskExcept, Quiet, Still;
    var s0, d0, k := ShadowCrash(c, d, d', phase, view, rs, complete);
    CrashQuiet(d, d');
    QuietStill(d');
    LossWreck(c, s0, d0, d');
  }

  lemma {:induction false} WreckSame(c: Codec, d: Disk, d': Disk)
    requires Wreck(c, d) && SameSegments(d, d') && Still(d')
    ensures Wreck(c, d')
  {
    hide Still, OnDiskExcept, Consistent, DiskOk, SegmentIds;
    var d0, next, active :| WreckOf(c, d0, d, next, active);
    SameSegmentsFrames(c, d, d');
    assert WreckOf(c, d0, d', next, active);
  }

  /** The segments of `d'` among the other files of `d1`. */
  function Mirror(d1: Disk, d': Disk): Disk
  {
    var dir := map p | p in d'.dir.Keys + d1.dir.Keys && (p.Segment? ==> p in d'.dir) && (!p.Segment? ==> p in d1.dir) ::
      if p.Segment? && p in d'.dir then d'.dir[p] else if p in d1.dir then d1.dir[p] else [];
    Disk(dir, map p | p in dir :: |dir[p]|, {}, map[])
  }

  lemma {:induction false} MirrorFiles(d1: Disk, d': Disk, p: Path)
    ensures p in Mirror(d1, d').dir <==> if p.Segment? then p in d'.dir else p in d1.dir
    ensures p in Mirror(d1, d').dir ==> Mirror(d1, d').dir[p] == if p.Segment? then d'.dir[p] else d1.dir[p]
  {
  }

  /** What the power loss may do to a file of the mirrored directory. */
  lemma {:induction false} MirrorFile(d1: Disk, d: Disk, d': Disk, p: Path)
    requires WellFormed(d1) && SameShelves(d1, d) && CrashOf(d, d')
    ensures
      var m := Mirror(d1, d');
      && (p in m.dir ==>
            if p in d1.dir then p in d1.durable && d1.durable[p] <= |m.dir[p]| && m.dir[p] <= d1.dir[p]
            else p in d1.unlinks && m.dir[p] == d1.unlinks[p])
      && (p in d1.dir && p !in m.dir ==> p in d1.creates)
  {
    MirrorFiles(d1, d', p);
    hide Mirror;
    if p.Segment? {
      assert p == Segment(p.id);
    }
  }

  lemma {:induction false} MirrorWhole(d1: Disk, d': Disk)
    ensures
      var m := Mirror(d1, d');
      && m.durable.Keys == m.dir.Keys && m.creates == {} && m.unlinks == map[]
      && forall p :: p in m.dir ==> m.durable[p] == |m.dir[p]|
  {
  }

  /** After a power loss over what a dead process has left, no segment is pending and the frames are in order. */
  lemma {:induction false} RelicCrash(c: Codec, d: Disk, d': Disk, complete: bool)
    requires c.Lawful() && Relic(c, d, complete) && CrashOf(d, d')
    ensures Wreck(c, d')
  {
    var d1, phase, view, rs, k :| Remains(c, d1, d, phase, view, rs, k, complete);
    ShadowFormed(c, d1, phase, view, rs, complete);
    assert CrashOf(d1, Mirror(d1, d')) && SameSegments(Mirror(d1, d'), d') by {
      var m := Mirror(d1, d');
      MirrorWhole(d1, d');
      forall p
        ensures p in m.dir ==>
          if p in d1.dir then p in d1.durable && d1.durable[p] <= |m.dir[p]| && m.dir[p] <= d1.dir[p]
          else p in d1.unlinks && m.dir[p] == d1.unlinks[p]
        ensures p in d1.dir && p !in m.dir ==> p in d1.creates
      {
        MirrorFile(d1, d, d', p);
      }
      forall id: nat
        ensures Segment(id) in m.dir <==> Segment(id) in d'.dir
        ensures Segment(id) in m.dir ==> m.dir[Segment(id)] == d'.dir[Segment(id)]
      {
        MirrorFiles(d1, d', Segment(id));
      }
    }
    ShadowWreck(c, d1, Mirror(d1, d'), phase, view, rs, complete);
    CrashQuiet(d, d');
    QuietStill(d');
    WreckSame(c, Mirror(d1, d'), d');
  }

  // ---------- The intact state behind it ----------

  /** But for bytes at the end of the active segment, `d` is `d0` with no more segments pending. */
  ghost predicate Afoot(d0: Disk, d: Disk, active: nat)
  {
    && WellFormed(d0) && WellFormed(d)
    && (forall id: nat :: Segment(id) in d.dir <==> Segment(id) in d0.dir)
    && (forall id: nat :: Segment(id) in d.dir && id != active ==>
          && d.dir[Segment(id)] == d0.dir[Segment(id)] && d.durable[Segment(id)] == d0.durable[Segment(id)]
          && (Segment(id) in d.creates ==> Segment(id) in d0.creates))
    && Segment(active) in d0.dir && Synced(d0, active) && d0.dir[Segment(active)] <= d.dir[Segment(active)]
    && (forall p :: p in d.unlinks ==> p in d0.unlinks && d.unlinks[p] == d0.unlinks[p])
  }

  /** With the tail gone and the active segment durable, it is that state's directory. */
  lemma {:induction false} AfootCut(c: Codec, d0: Disk, d: Disk, active: nat)
    requires Afoot(d0, d, active) && TornOf(c, d0, d, active)
    ensures Segment(active) in d0.dir && Segment(active) in d.dir && |d0.dir[Segment(active)]| <= |d.dir[Segment(active)]|
    ensures Synced(CutBack(d0, d, active), active) ==> SameShelves(d0, CutBack(d0, d, active))
  {
    CutBackIs(c, d0, d, active);
    hide TornOf, CutBack;
  }

  /** The tail consists of whole records of the batch and the beginning of one more. */
  lemma {:induction false} TailRests(c: Codec, s: Sys, d: Disk, rest: seq<Record>, t: nat, complete: bool) returns (n: nat)
    requires c.Lawful() && Intact(c, s, complete) && AllWritable(c, rest) && Consecutive(rest, s.db.nextSeq)
    requires Segment(s.db.activeId) in s.db.disk.dir && t <= |EncodeAll(c, rest)|
    requires d == Append(s.db.disk, Segment(s.db.activeId), EncodeAll(c, rest)[..t])
    ensures n <= |rest|
    ensures
      var s1 := AfterCommit(c, s, rest[..n]);
      && Intact(c, s1, complete) && s1.db.activeId == s.db.activeId
      && Afoot(s1.db.disk, d, s.db.activeId) && TornOf(c, s1.db.disk, d, s.db.activeId)
  {
    hide Sane, Complete, EncodeAll, TailOnly, AllWritable, Consecutive, WholeFrames, AfterCommit, Clean, InFile;
    SyncedFile(c, s);
    n := WholeFrames(c, rest, t);
    assert rest == rest[..n] + rest[n..];
    WritableConcat(c, rest[..n], rest[n..]);
    ConsecutiveConcat(rest[..n], rest[n..], s.db.nextSeq);
    CommittedSane(c, s, rest[..n], complete);
    var p, file, w := Segment(s.db.activeId), s.db.disk.dir[Segment(s.db.activeId)], EncodeAll(c, rest[..n]);
    CutBatch(c, file, rest, t);
    CleanWritten(c, s, rest[..n]);
  }

  lemma {:induction false} RolledRests(c: Codec, s: Sys, complete: bool)
    requires Intact(c, s, complete) && s.db.segmentCounter < COMPACTION_ID_BASE
    ensures Intact(c, Rolled(s), complete)
    ensures
      var d, active := Create(s.db.disk, Segment(s.db.segmentCounter)), s.db.segmentCounter;
      Afoot(Rolled(s).db.disk, d, active) && TornOf(c, Rolled(s).db.disk, d, active)
  {
    hide Complete, SysOk, FramesOk, Clean;
    RolledSane(c, s, complete);
    EmptyFile(c);
  }

  /** Nothing happens to an intact state. */
  lemma {:induction false} StandLoss(c: Codec, s: Sys, d: Disk, active: nat)
    requires Sane(c, s) && active == s.db.activeId && TornOf(c, s.db.disk, d, active)
    ensures LossOf(c, s, Quieted(s.db.disk), Quieted(d))
  {
    assert WellFormed(s.db.disk) by { hide SysOk, FramesOk; }
    hide Sane, Clean, TailOnly;
    QuietedCrash(s.db.disk);
    hide CrashOf;
  }

  /** Behind what a dead process has left stands an intact state that has the records found. */
  lemma {:induction false} ShadowRests(c: Codec, d: Disk, phase: Phase, view: map<string, Record>, rs: seq<Record>, complete: bool)
      returns (s1: Sys, k: nat)
    requires c.Lawful() && Shadow(c, d, phase, view, rs, complete)
    ensures Intact(c, s1, complete) && Afoot(s1.db.disk, d, s1.db.activeId) && TornOf(c, s1.db.disk, d, s1.db.activeId)
    ensures s1.phase == phase && FirstOnDisk(c, d, rs, k) && s1.view == Fold(view, rs[..k])
  {
    hide Intact, FirstOnDisk, AllWritable, Consecutive, EncodeAll, Fold, Rolled, InFile, AfterCommit, LossOf, TornOf, Afoot, SameSegments;
    var s, j: nat :| Beside(c, s, d, phase, view, rs, j, complete);
    var rest := rs[j..];
    WritableConcat(c, rs[..j], rest);
    assert rs[..j] + rest == rs;
    SyncedActive(c, s, complete);
    ShadowFormed(c, d, phase, view, rs, complete);
    QuietedCrash(d);
    if Segment(s.db.activeId) in s.db.disk.dir && exists t: nat ::
        t <= |EncodeAll(c, rest)| && d == Append(s.db.disk, Segment(s.db.activeId), EncodeAll(c, rest)[..t]) {
      var t: nat :| t <= |EncodeAll(c, rest)| && d == Append(s.db.disk, Segment(s.db.activeId), EncodeAll(c, rest)[..t]);
      var n := TailRests(c, s, d, rest, t, complete);
      s1, k := AfterCommit(c, s, rest[..n]), j + n;
      TailFirst(c, s, s1, d, view, rs, j, n, complete);
    } else {
      RolledRests(c, s, complete);
      s1, k := Rolled(s), j;
      RolledFirst(c, s, d, rs, j, complete);
    }
  }

  lemma {:induction false} TailFirst(c: Codec, s: Sys, s1: Sys, d: Disk, view: map<string, Record>, rs: seq<Record>, j: nat, n: nat, complete: bool)
    requires c.Lawful() && Intact(c, s, complete) && j <= |rs| && n <= |rs| - j && AllWritable(c, rs) && Consecutive(rs[j..], s.db.nextSeq)
    requires Segment(s.db.activeId) in s.db.disk.dir && Synced(s.db.disk, s.db.activeId) && WellFormed(d)
    requires forall i :: 0 <= i < j ==> InFile(c, s.db.disk, s.db.activeId, rs[i])
    requires s.view == Fold(view, rs[..j])
    requires s1 == AfterCommit(c, s, rs[j..][..n]) && Intact(c, s1, complete) && s1.db.activeId == s.db.activeId && TornOf(c, s1.db.disk, d, s.db.activeId)
    ensures s1.phase == s.phase && s1.view == Fold(view, rs[..j + n]) && FirstOnDisk(c, d, rs, j + n)
  {
    hide Sane, Complete, FirstOnDisk, AllWritable, Consecutive, EncodeAll, Fold, InFile, AfterCommit, LossOf, TornOf, SameSegments;
    StandLoss(c, s1, d, s.db.activeId);
    PartCommitted(c, s, Quieted(s1.db.disk), Quieted(d), view, rs, j, n, complete);
    QuietedCrash(d);
    SameFound(c, Quieted(d), d, rs, j + n, {}, s1.view);
  }

  lemma {:induction false} RolledFirst(c: Codec, s: Sys, d: Disk, rs: seq<Record>, j: nat, complete: bool)
    requires c.Lawful() && Intact(c, s, complete) && j <= |rs| && Consecutive(rs[j..], s.db.nextSeq) && s.db.segmentCounter < COMPACTION_ID_BASE
    requires forall i :: 0 <= i < j ==> InFile(c, s.db.disk, s.db.activeId, rs[i])
    requires d == Create(s.db.disk, Segment(s.db.segmentCounter)) && WellFormed(d)
    ensures Rolled(s).phase == s.phase && Rolled(s).view == s.view && Rolled(s).db.activeId == s.db.segmentCounter && FirstOnDisk(c, d, rs, j)
  {
    RolledRests(c, s, complete);
    RolledKeeps(c, s, complete);
    SyncedActive(c, s, complete);
    var s1 := Rolled(s);
    assert Sane(c, s1) && s1.db.activeId == s.db.segmentCounter;
    hide Intact, Sane, FirstOnDisk, Consecutive, InFile, LossOf, TornOf, SameSegments, Rolled, Afoot;
    StandLoss(c, s1, d, s.db.segmentCounter);
    PrefixFound(c, s1, Quieted(s1.db.disk), Quieted(d), s.db.activeId, rs, j);
    QuietedCrash(d);
    SameFound(c, Quieted(d), d, rs, j, {}, s1.view);
  }

  /** Behind what a dead process has left stands an intact state; its database is the one found if none was lost. */
  lemma {:induction false} RelicRests(c: Codec, d: Disk, complete: bool) returns (s1: Sys)
    requires c.Lawful() && Relic(c, d, complete)
    ensures Intact(c, s1, complete) && Afoot(s1.db.disk, d, s1.db.activeId) && TornOf(c, s1.db.disk, d, s1.db.activeId)
    ensures complete ==> s1.view == Holding(c, d)
  {
    hide Intact, Shadow, OnDiskExcept, Consistent, LiveView, Fold, FirstOnDisk;
    var d1, phase, view, rs, k :| Remains(c, d1, d, phase, view, rs, k, complete);
    var j;
    s1, j := ShadowRests(c, d1, phase, view, rs, complete);
    ShadowFormed(c, d1, phase, view, rs, complete);
    SameSegmentsFrames(c, d1, d);
    if complete {
      OnePrefix(c, d1, rs, k, j);
    }
  }

  // ---------- The next engine ----------

  /** The active segment is durable to its end, and even removed segments that may come back are older than `next`. */
  ghost predicate SafeToRun(c: Codec, db: Db)
  {
    Synced(db.disk, db.activeId) && forall id: nat, r :: InFile(c, Full(db.disk), id, r) ==> r.seqId < db.nextSeq
  }

  lemma {:induction false} ShelvesFull(c: Codec, d0: Disk, d: Disk)
    requires WellFormed(d0) && SameShelves(d0, d) && forall p :: p in d0.unlinks ==> p.Segment? && p !in d0.dir
    ensures Loses(c, Full(d0), Full(d), Gone(d0)) && FilesOf(Full(d0), Full(d))
  {
    hide FramesIn;
    forall j: nat
      ensures j in Gone(d0) <==> Segment(j) in d0.unlinks
    {
      GoneIff(d0, j);
    }
    hide Gone;
  }

  lemma {:induction false} ShelvesPending(d0: Disk, d: Disk, phase: Phase)
    requires WellFormed(d0) && SameShelves(d0, d) && PendingOk(d0, phase)
    ensures PendingOk(d, NoCompaction)
  {
    forall p | p in d.unlinks
      ensures p.Segment? && p !in d.dir
    {
      assert p == Segment(p.id);
    }
    forall i | i in Gone(d) && i >= COMPACTION_ID_BASE
      ensures exists j: nat :: i < j && Segment(j) in d.dir
    {
      GoneIff(d, i);
      GoneIff(d0, i);
      var j: nat :| i < j && Segment(j) in d0.dir;
      assert Segment(j) in d.dir;
    }
  }

  lemma {:induction false} ShelvesDisk(c: Codec, s1: Sys, d: Disk)
    requires Sane(c, s1) && SameShelves(s1.db.disk, d)
    ensures DiskOk(c, Full(d), s1.db.nextSeq, s1.db.activeId, SegmentIds(Full(d)) - {s1.db.activeId}) && PendingOk(d, NoCompaction)
  {
    var d0, active := s1.db.disk, s1.db.activeId;
    var skip := Skipped(s1.phase, Full(d0), Gone(d0), active);
    ActiveThere(c, s1);
    assert WellFormed(d0) by { hide SysOk, FramesOk; }
    assert PendingOk(d0, s1.phase) && DiskOk(c, Full(d0), s1.db.nextSeq, active, skip) by { hide SysOk, Durable, DiskOk, PhaseFrames, PointsToFrames, Uppermost, PendingOk, Full, Gone, NormalsNewer; }
    LostIsSkipped(c, s1);
    ShelvesFull(c, d0, d);
    ShelvesPending(d0, d, s1.phase);
    assert Segment(active) in Full(d).dir;
    hide Sane, SameShelves, PendingOk, Full, Gone, Skipped, DiskOk, Loses, FilesOf, NormalsNewer, SegmentIds;
    SubsetDiskOk(c, Full(d0), Full(d), s1.db.nextSeq, active, Gone(d0), skip);
    IdleDisk(c, Full(d), s1.db.nextSeq, active, skip);
  }

  /** On the directory of an intact state a new engine can run, from any id above all frames. */
  lemma {:induction false} ShelvesRunnable(c: Codec, s1: Sys, d: Disk, next: nat)
    requires Sane(c, s1) && SameShelves(s1.db.disk, d) && forall id: nat, r :: InFile(c, Full(d), id, r) ==> r.seqId < next
    ensures Runnable(c, d, next, s1.db.activeId)
  {
    ShelvesDisk(c, s1, d);
    ActiveThere(c, s1);
    assert forall id: nat :: Segment(id) in d.dir && id < COMPACTION_ID_BASE ==> Synced(d, id) by { hide SysOk, FramesOk; }
    hide Sane, Ordered, CopiesActive, Originals, Tidy, NewestIs, PendingOk, InFile, SegmentIds, Full, Synced, Writable;
    assert FramesSound(c, Full(d), next);
  }

  lemma {:induction false} ShelvesComplete(c: Codec, s1: Sys, s: Sys)
    requires Sane(c, s1) && Complete(c, s1) && SameShelves(s1.db.disk, s.db.disk)
    requires s.phase.NoCompaction? && s.view == s1.view
    requires Consistent(OnDisk(c, s.db.disk)) && LiveView(OnDisk(c, s.db.disk)) == s.view
    ensures Complete(c, s)
  {
    assert WellFormed(s1.db.disk) by { hide SysOk, FramesOk, Complete; }
    hide Sane, FramesIn, OnDiskExcept, LiveView, Consistent, ViewOnDisk, Volatile;
    var d0, d := s1.db.disk, s.db.disk;
    forall k | k in s.view
      ensures Stands(c, d, {}, s.view[k])
    {
      var id: nat :| id !in Volatile(s1.phase) && Synced(d0, id) && InFile(c, d0, id, s1.view[k]);
      assert id !in {} && Synced(d, id) && InFile(c, d, id, s.view[k]);
    }
    assert ViewOk(c, s) by { hide LiveDurable, Stands; ViewFound(c, s); }
    assert Volatile(s.phase) == {} by { NothingVolatile(s); }
  }

  lemma {:induction false} NothingVolatile(s: Sys)
    requires s.phase.NoCompaction?
    ensures Volatile(s.phase) == {}
  {
  }

  lemma {:induction false} ViewFound(c: Codec, s: Sys)
    requires s.phase.NoCompaction? && Consistent(OnDisk(c, s.db.disk)) && LiveView(OnDisk(c, s.db.disk)) == s.view
    ensures ViewOk(c, s)
  {
    hide OnDiskExcept, LiveView, Consistent;
  }
}
