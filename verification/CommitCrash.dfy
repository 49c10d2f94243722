/**
 * Power loss at any point of a group commit or after one has failed, compaction in any phase: a prefix of the
 * batch is found, and the exact condition under which what is found is the database with that prefix.
 */
module CommitCrash {
  import opened Wrappers
  import opened Bytes
  import opened Types
  import opened Frames
  import opened Index
  import opened LogMerge
  import opened Disk
  import opened GroupCommit
  import opened FlushIndex
  import opened Flusher
  import opened Recovery
  import opened Shelves
  import opened ShelfReplay
  import opened OpenAfterCrash
  import opened DiskView
  import opened FrameSets
  import opened Compaction
  import opened CompactionFrames
  import opened Survival
  import opened CompactionSteps
  import opened CompactionCrash
  import opened Reopen
  import opened TornTail
  import opened MidCommit

  /** Of the batch exactly the first `k` records are found on disk. */
  ghost predicate FirstOnDisk(c: Codec, d: Disk, rs: seq<Record>, k: nat)
  {
    k <= |rs| && forall j :: 0 <= j < |rs| ==> (rs[j] in OnDisk(c, d) <==> j < k)
  }

  lemma {:induction false} OnePrefix(c: Codec, d: Disk, rs: seq<Record>, k: nat, k': nat)
    requires FirstOnDisk(c, d, rs, k) && FirstOnDisk(c, d, rs, k')
    ensures k == k'
  {
    hide OnDiskExcept;
    assert k < |rs| ==> rs[k] !in OnDisk(c, d);
    assert k' < |rs| ==> rs[k'] !in OnDisk(c, d);
  }

  /** `d` is what a power loss leaves of the intact state `s0`, with a torn tail behind its active segment. */
  ghost predicate LossOf(c: Codec, s0: Sys, d0: Disk, d: Disk)
  {
    Sane(c, s0) && CrashOf(s0.db.disk, d0) && TornOf(c, d0, d, s0.db.activeId)
  }

  // ---------- The torn tail ----------

  /** Behind its whole frames, a cut batch is the beginning of a frame at most. */
  lemma {:induction false} CutBatch(c: Codec, file: bytes, rest: seq<Record>, t: nat)
    requires c.Lawful() && AllWritable(c, rest) && t <= |EncodeAll(c, rest)|
    ensures
      var n := WholeFrames(c, rest, t);
      var w := EncodeAll(c, rest[..n]);
      && |w| <= t && (file + EncodeAll(c, rest)[..t])[..|file| + |w|] == file + w
      && TailOnly(c, file + w, (file + EncodeAll(c, rest)[..t])[|file| + |w|..])
  {
    hide EncodeAll, Scan, AllWritable, WholeFrames;
    var n := WholeFrames(c, rest, t);
    var whole, more := rest[..n], rest[n..];
    assert whole + more == rest;
    var w, e := EncodeAll(c, whole), EncodeAll(c, rest);
    CutHoldsWhole(c, rest, t);
    EncodeAllConcat(c, whole, more);
    WritableConcat(c, whole, more);
    var f, u := file + e[..t], t - |w|;
    assert f[..|file| + |w|] == file + e[..t][..|w|];
    assert f[|file| + |w|..] == EncodeAll(c, more)[..u];
    assert (file + w) + f[|file| + |w|..] == f;
    WholeFramesConcat(c, whole, more, u);
    ScanCut(c, f, |file + w|, more, u);
    NoWholeFrame(c, more, u, |file + w|);
  }

  lemma {:induction false} NoWholeFrame(c: Codec, rs: seq<Record>, cut: nat, base: nat)
    requires WholeFrames(c, rs, cut) == 0
    ensures |EncodeAll(c, rs[..WholeFrames(c, rs, cut)])| <= cut
    ensures
      var s := CutReplay(c, rs, cut, base);
      s.frames == [] && s.stop == base && s.maxSeq == 0 && !s.hasFrame && CutOff(s.tear)
  {
    hide EncodeFrame;
  }

  /** What is left of the active segment. */
  lemma {:induction false} CutFile(d: Disk, p: Path, e: bytes, t: nat, d': Disk) returns (t': nat)
    requires p in d.dir && p in d.durable && d.durable[p] == |d.dir[p]| && p !in d.creates && t <= |e|
    requires CrashOf(Append(d, p, e[..t]), d')
    ensures t' <= |e| && p in d'.dir && d'.dir[p] == d.dir[p] + e[..t']
  {
    var file, file' := d.dir[p], d'.dir[p];
    t' := |file'| - |file|;
  }

  /** The directory with the active segment cut to `file`. */
  function WithFile(d: Disk, p: Path, file: bytes): Disk
  {
    Disk(d.dir[p := file], d.durable[p := |file|], {}, map[])
  }

  lemma {:induction false} CrashWithFile(d: Disk, p: Path, tail: bytes, w: bytes, d': Disk)
    requires p in d.dir && p in d.durable && WellFormed(d) && p in d'.dir && p !in d.creates
    requires CrashOf(Append(d, p, tail), d')
    ensures CrashOf(Sync(Append(d, p, w), p), WithFile(d', p, d.dir[p] + w))
  {
  }

  /** Bytes of the batch may be at the end of the active segment: its whole frames are as if committed. */
  lemma {:induction false} TailLost(c: Codec, s: Sys, d': Disk, rest: seq<Record>, t: nat, complete: bool) returns (n: nat, d0: Disk)
    requires c.Lawful() && Intact(c, s, complete) && AllWritable(c, rest) && Consecutive(rest, s.db.nextSeq)
    requires Segment(s.db.activeId) in s.db.disk.dir && t <= |EncodeAll(c, rest)|
    requires CrashOf(Append(s.db.disk, Segment(s.db.activeId), EncodeAll(c, rest)[..t]), d')
    ensures n <= |rest| && LossOf(c, AfterCommit(c, s, rest[..n]), d0, d') && Intact(c, AfterCommit(c, s, rest[..n]), complete)
  {
    hide Sane, Complete, EncodeAll, CrashOf, TailOnly, AllWritable, Consecutive, WholeFrames, AfterCommit, Clean;
    SyncedFile(c, s);
    var t' := CutFile(s.db.disk, Segment(s.db.activeId), EncodeAll(c, rest), t, d');
    n := WholeFrames(c, rest, t');
    assert rest == rest[..n] + rest[n..];
    WritableConcat(c, rest[..n], rest[n..]);
    ConsecutiveConcat(rest[..n], rest[n..], s.db.nextSeq);
    CommittedSane(c, s, rest[..n], complete);
    var p, file, w := Segment(s.db.activeId), s.db.disk.dir[Segment(s.db.activeId)], EncodeAll(c, rest[..n]);
    CutBatch(c, file, rest, t');
    d0 := WithFile(d', p, file + w);
    CrashWithFile(s.db.disk, p, EncodeAll(c, rest)[..t], w, d');
    CleanWritten(c, s, rest[..n]);
    assert (file + w) <= d'.dir[p];
  }

  lemma {:induction false} SyncedFile(c: Codec, s: Sys)
    requires Sane(c, s) && Segment(s.db.activeId) in s.db.disk.dir
    ensures
      var d, p := s.db.disk, Segment(s.db.activeId);
      WellFormed(d) && p in d.durable && d.durable[p] == |d.dir[p]| && p !in d.creates
  {
    PhaseOuts(c, s);
    hide SysOk, FramesOk;
    ActiveSynced(s);
  }

  lemma {:induction false} CleanWritten(c: Codec, s: Sys, rs: seq<Record>)
    requires c.Lawful() && Sane(c, s) && AllWritable(c, rs) && Segment(s.db.activeId) in s.db.disk.dir
    ensures Clean(c, s.db.disk.dir[Segment(s.db.activeId)] + EncodeAll(c, rs))
    ensures forall r :: InFile(c, s.db.disk, s.db.activeId, r) ==> r in FramesIn(c, s.db.disk.dir[Segment(s.db.activeId)] + EncodeAll(c, rs))
  {
    hide SysOk, Durable, EncodeAll, AllWritable, FramesIn, Clean, FramesOk;
    CompactionSteps.WrittenFile(c, s, rs);
  }

  // ---------- A pending segment ----------

  /** The new segment's directory entry was pending: it is there, empty, or it is not. */
  lemma {:induction false} PendingLost(c: Codec, s: Sys, d': Disk, complete: bool) returns (s0: Sys)
    requires c.Lawful() && Intact(c, s, complete) && s.db.segmentCounter < COMPACTION_ID_BASE
    requires CrashOf(Create(s.db.disk, Segment(s.db.segmentCounter)), d')
    ensures LossOf(c, s0, d', d') && (s0 == s || s0 == Rolled(s)) && Intact(c, s0, complete)
  {
    hide Sane, Complete, Clean;
    RolledSane(c, s, complete);
    if Segment(s.db.segmentCounter) in d'.dir {
      s0 := Rolled(s);
    } else {
      s0 := s;
    }
    ActiveClean(c, s0, d');
    assert TornOf(c, d', d', s0.db.activeId) by {
      var file := d'.dir[Segment(s0.db.activeId)];
      assert file[|file|..] == [] && file + [] == file;
    }
  }

  lemma {:induction false} ActiveClean(c: Codec, s: Sys, d': Disk)
    requires Sane(c, s) && CrashOf(s.db.disk, d')
    ensures Segment(s.db.activeId) in d'.dir && Clean(c, d'.dir[Segment(s.db.activeId)])
  {
    CrashTidy(c, s, d');
    PhaseOuts(c, s);
    hide Sane, CrashOf, Clean;
  }

  // ---------- Which records are found ----------

  lemma {:induction false} TornFrames(c: Codec, d0: Disk, d: Disk, active: nat)
    requires TornOf(c, d0, d, active)
    ensures forall id: nat, r :: InFile(c, d, id, r) <==> InFile(c, d0, id, r)
    ensures OnDisk(c, d) == OnDisk(c, d0)
  {
    hide Scan, TailOnly, Clean, OnDiskExcept;
    TornScan(c, d0, d, active);
    forall r
      ensures r in OnDisk(c, d) <==> r in OnDisk(c, d0)
    {
      OnDiskIff(c, d, {}, r);
      OnDiskIff(c, d0, {}, r);
    }
  }

  /** The records of a durable file survive; those the state has not reached are nowhere. */
  lemma {:induction false} PrefixFound(c: Codec, s0: Sys, d0: Disk, d: Disk, id: nat, rs: seq<Record>, k: nat)
    requires LossOf(c, s0, d0, d) && k <= |rs| && Consecutive(rs[k..], s0.db.nextSeq)
    requires Synced(s0.db.disk, id) && forall j :: 0 <= j < k ==> InFile(c, s0.db.disk, id, rs[j])
    ensures FirstOnDisk(c, d, rs, k)
  {
    hide Sane, TornOf, OnDiskExcept;
    CrashDiskOk(c, s0, d0);
    SyncedSurvives(s0.db.disk, d0, id);
    TornFrames(c, d0, d, s0.db.activeId);
    hide CrashOf, FramesIn, Ordered, CopiesActive, Originals, Tidy, NewestIs, Writable, Synced;
    forall j | 0 <= j < |rs|
      ensures rs[j] in OnDisk(c, d) <==> j < k
    {
      OnDiskIff(c, d0, {}, rs[j]);
      if j < k {
        assert InFile(c, s0.db.disk, id, rs[j]);
        assert InFile(c, d0, id, rs[j]);
      } else {
        assert rs[k..][j - k] == rs[j];
      }
    }
  }

  // ---------- Every power loss ----------

  /**
   * Power loss at any disk of a commit, or after its failure: what is found is what a power loss leaves of an intact
   * state that has exactly the records of the batch found on disk.
   */
  lemma {:induction false} ShadowCrash(c: Codec, d: Disk, d': Disk, phase: Phase, view: map<string, Record>, rs: seq<Record>, complete: bool)
      returns (s0: Sys, d0: Disk, k: nat)
    requires c.Lawful() && Shadow(c, d, phase, view, rs, complete) && CrashOf(d, d')
    ensures LossOf(c, s0, d0, d') && Intact(c, s0, complete) && s0.phase == phase && s0.db.disk.unlinks == d.unlinks
    ensures FirstOnDisk(c, d', rs, k) && s0.view == Fold(view, rs[..k])
  {
    hide Beside, LossOf, FirstOnDisk, CrashOf, Intact;
    var s, j :| Beside(c, s, d, phase, view, rs, j, complete);
    s0, d0, k := BesideCrash(c, s, d, d', phase, view, rs, j, complete);
  }

  lemma {:induction false} BesideCrash(c: Codec, s: Sys, d: Disk, d': Disk, phase: Phase, view: map<string, Record>, rs: seq<Record>, j: nat, complete: bool)
      returns (s0: Sys, d0: Disk, k: nat)
    requires c.Lawful() && Beside(c, s, d, phase, view, rs, j, complete) && CrashOf(d, d')
    ensures LossOf(c, s0, d0, d') && Intact(c, s0, complete) && s0.phase == phase && s0.db.disk.unlinks == d.unlinks
    ensures FirstOnDisk(c, d', rs, k) && s0.view == Fold(view, rs[..k])
  {
    hide Intact, LossOf, FirstOnDisk, CrashOf, AllWritable, Consecutive, EncodeAll, Fold, Rolled, InFile, AfterCommit;
    var rest := rs[j..];
    WritableConcat(c, rs[..j], rest);
    assert rs[..j] + rest == rs;
    SyncedActive(c, s, complete);
    if Segment(s.db.activeId) in s.db.disk.dir && exists t: nat ::
        t <= |EncodeAll(c, rest)| && d == Append(s.db.disk, Segment(s.db.activeId), EncodeAll(c, rest)[..t]) {
      var t: nat :| t <= |EncodeAll(c, rest)| && d == Append(s.db.disk, Segment(s.db.activeId), EncodeAll(c, rest)[..t]);
      var n;
      n, d0 := TailLost(c, s, d', rest, t, complete);
      s0, k := AfterCommit(c, s, rest[..n]), j + n;
      PartCommitted(c, s, d0, d', view, rs, j, n, complete);
    } else {
      s0 := PendingLost(c, s, d', complete);
      d0, k := d', j;
      RolledKeeps(c, s, complete);
      PrefixFound(c, s0, d0, d', s.db.activeId, rs, j);
    }
  }

  lemma {:induction false} SyncedActive(c: Codec, s: Sys, complete: bool)
    requires Intact(c, s, complete)
    ensures Synced(s.db.disk, s.db.activeId)
  {
    ActiveSize(c, s);
    PhaseOuts(c, s);
    hide SysOk, FramesOk, Complete;
    ActiveSynced(s);
  }

  lemma {:induction false} RolledKeeps(c: Codec, s: Sys, complete: bool)
    requires Intact(c, s, complete) && s.db.segmentCounter < COMPACTION_ID_BASE
    ensures
      var s0 := Rolled(s);
      && s0.phase == s.phase && s0.view == s.view && s0.db.nextSeq == s.db.nextSeq && s0.db.disk.unlinks == s.db.disk.unlinks
      && (Synced(s.db.disk, s.db.activeId) ==> Synced(s0.db.disk, s.db.activeId))
      && forall r :: InFile(c, s.db.disk, s.db.activeId, r) ==> InFile(c, s0.db.disk, s.db.activeId, r)
  {
    SegmentIsNew(c, s);
    hide Intact, FramesIn;
  }

  lemma {:induction false} PartCommitted(c: Codec, s: Sys, d0: Disk, d': Disk, view: map<string, Record>, rs: seq<Record>, j: nat, n: nat, complete: bool)
    requires c.Lawful() && Intact(c, s, complete) && j <= |rs| && n <= |rs| - j && AllWritable(c, rs) && Consecutive(rs[j..], s.db.nextSeq)
    requires Segment(s.db.activeId) in s.db.disk.dir && Synced(s.db.disk, s.db.activeId)
    requires forall i :: 0 <= i < j ==> InFile(c, s.db.disk, s.db.activeId, rs[i])
    requires s.view == Fold(view, rs[..j])
    requires LossOf(c, AfterCommit(c, s, rs[j..][..n]), d0, d')
    ensures
      var s0 := AfterCommit(c, s, rs[j..][..n]);
      && s0.phase == s.phase && s0.view == Fold(view, rs[..j + n]) && FirstOnDisk(c, d', rs, j + n)
      && s0.db.disk.unlinks == s.db.disk.unlinks
  {
    hide Sane, Complete, LossOf, FirstOnDisk, EncodeAll, Fold, AllWritable, Consecutive, WriteStage, FramesIn;
    var rest, part := rs[j..], rs[j..][..n];
    WritableConcat(c, rs[..j], rest);
    assert rs[..j] + rest == rs;
    WritableConcat(c, part, rest[n..]);
    assert part + rest[n..] == rest && rest[n..] == rs[j + n..] && rs[..j] + part == rs[..j + n];
    ConsecutiveConcat(part, rest[n..], s.db.nextSeq);
    CommittedSane(c, s, part, complete);
    FoldConcat(view, rs[..j], part);
    var s0 := AfterCommit(c, s, part);
    CleanWritten(c, s, part);
    forall i | 0 <= i < j + n
      ensures InFile(c, s0.db.disk, s.db.activeId, rs[i])
    {
      if i >= j {
        assert part[i - j] == rs[i];
        assert rs[i] in part;
      } else {
        assert InFile(c, s.db.disk, s.db.activeId, rs[i]);
      }
    }
    SyncedActive(c, s0, complete);
    PrefixFound(c, s0, d0, d', s.db.activeId, rs, j + n);
  }

  // ---------- What is found, exactly ----------

  /** The directory a power loss leaves, but for its torn tail, is in order. */
  lemma {:induction false} LossDirectory(c: Codec, s0: Sys, d0: Disk, d: Disk)
    requires LossOf(c, s0, d0, d)
    ensures DiskOk(c, d0, s0.db.nextSeq, s0.db.activeId, SegmentIds(d0) - {s0.db.activeId}) && 1 <= s0.db.activeId
    ensures Consistent(OnDisk(c, d0)) && OnDisk(c, d) == OnDisk(c, d0)
  {
    hide CrashOf, TornOf, OnDiskExcept, LiveView, Consistent, DiskOk;
    CrashDiskOk(c, s0, d0);
    TornFrames(c, d0, d, s0.db.activeId);
    hide InFile;
  }

  /** Power loss at any point of a commit or after its failure. */
  lemma {:induction false} CrashExact(c: Codec, d: Disk, d': Disk, phase: Phase, view: map<string, Record>, rs: seq<Record>) returns (k: nat)
    requires c.Lawful() && Shadow(c, d, phase, view, rs, true) && CrashOf(d, d')
    ensures FirstOnDisk(c, d', rs, k) && Consistent(OnDisk(c, d'))
    ensures LiveView(OnDisk(c, d')) == Fold(view, rs[..k]) <==> Survives(c, Doomed(phase, d), d', Fold(view, rs[..k]))
  {
    hide Shadow, CrashOf, FirstOnDisk, OnDiskExcept, LiveView, Consistent, Fold, Complete, Sane;
    var s0, d0;
    s0, d0, k := ShadowCrash(c, d, d', phase, view, rs, true);
    assert
      && Consistent(OnDisk(c, d')) && OnDisk(c, d') == OnDisk(c, d0)
      && (LiveView(OnDisk(c, d')) == s0.view <==> Survives(c, Doomed(s0.phase, s0.db.disk), d', s0.view)) by {
      CrashViewExact(c, s0, d0);
      TornFrames(c, d0, d', s0.db.activeId);
    }
    assert Gone(s0.db.disk) == Gone(d);
  }

  /** What is there, all of it durable and nothing pending. */
  function Quieted(d: Disk): Disk
  {
    Disk(d.dir, map p | p in d.dir :: |d.dir[p]|, {}, map[])
  }

  lemma {:induction false} QuietedCrash(d: Disk)
    requires WellFormed(d)
    ensures CrashOf(d, Quieted(d)) && SameSegments(Quieted(d), d)
  {
  }

  lemma {:induction false} ShadowFormed(c: Codec, d: Disk, phase: Phase, view: map<string, Record>, rs: seq<Record>, complete: bool)
    requires Shadow(c, d, phase, view, rs, complete)
    ensures WellFormed(d)
  {
    hide SysOk, FramesOk, Complete, AllWritable, Consecutive, EncodeAll, Fold, InFile;
    var s0, k :| Beside(c, s0, d, phase, view, rs, k, complete);
    assert WellFormed(s0.db.disk);
  }

  /** Only the segments matter to what is found. */
  lemma {:induction false} SameFound(c: Codec, d: Disk, d': Disk, rs: seq<Record>, k: nat, inputs: set<nat>, view: map<string, Record>)
    requires SameSegments(d, d')
    ensures OnDisk(c, d') == OnDisk(c, d)
    ensures FirstOnDisk(c, d, rs, k) ==> FirstOnDisk(c, d', rs, k)
    ensures Survives(c, inputs, d, view) <==> Survives(c, inputs, d', view)
  {
    hide OnDiskExcept, FramesIn;
    SameSegmentsFrames(c, d, d');
    assert forall j: nat, r :: InFile(c, d', j, r) <==> InFile(c, d, j, r);
    hide InFile, SameSegments;
  }

  /**
   * The process dies, or power is lost, at any point of a commit or after its failure: found are exactly the first so
   * many records of the batch; and the database with those records is kept exactly when nothing found of the segments
   * that compaction was removing does harm.
   */
  lemma {:induction false} OutageExact(c: Codec, d: Disk, d': Disk, phase: Phase, view: map<string, Record>, rs: seq<Record>) returns (k: nat)
    requires c.Lawful() && Shadow(c, d, phase, view, rs, true) && Outage(d, d')
    ensures FirstOnDisk(c, d', rs, k) && Consistent(OnDisk(c, d'))
    ensures LiveView(OnDisk(c, d')) == Fold(view, rs[..k]) <==> Survives(c, Doomed(phase, d), d', Fold(view, rs[..k]))
  {
    hide Shadow, CrashOf, OnDiskExcept, LiveView, Consistent, Survives, Fold, Doomed, SameSegments;
    if d' == d {
      ShadowFormed(c, d, phase, view, rs, true);
      QuietedCrash(d);
      k := CrashExact(c, d, Quieted(d), phase, view, rs);
      SameFound(c, Quieted(d), d, rs, k, Doomed(phase, d), Fold(view, rs[..k]));
    } else {
      k := CrashExact(c, d, d', phase, view, rs);
    }
  }

  /** Refused, at worst having cut a torn tail; or running in order, on the database `view` and durably so. */
  ghost predicate Reopened(c: Codec, d: Disk, view: map<string, Record>, o: Opened)
  {
    match o
    case Refused(disk, e) => (e.RecoveryRequired? || e.OutOfSegmentIds?) && OnDisk(c, disk) == OnDisk(c, d)
    case Running(db) => Intact(c, Sys(db, view, NoCompaction), true)
  }

  /** A reopened engine serves `view` if and only if `condition` holds. */
  ghost predicate ServesJustIf(c: Codec, o: Opened, view: map<string, Record>, condition: bool)
  {
    o.Running? ==> (Represents(o.db.idx, view) && Reads(c, o.db.disk, o.db.idx, view) <==> condition)
  }

  /** What recovery makes of `d`; it serves `view` exactly under the condition on the segments `doomed`. */
  ghost predicate RecoversExactly(c: Codec, doomed: set<nat>, view: map<string, Record>, d: Disk, o: Opened)
  {
    && Consistent(OnDisk(c, d)) && Reopened(c, d, LiveView(OnDisk(c, d)), o)
    && ServesJustIf(c, o, view, Survives(c, doomed, d, view))
  }

  /**
   * After a power loss Default recovery refuses, at worst having cut the torn tail, or runs in a state that satisfies
   * the whole invariant; and it serves the database with the records found exactly under that condition.
   */
  lemma {:induction false} ReopenExact(c: Codec, d: Disk, d': Disk, phase: Phase, view: map<string, Record>, rs: seq<Record>, ids: seq<nat>, now: int)
      returns (k: nat)
    requires c.Lawful() && Shadow(c, d, phase, view, rs, true) && CrashOf(d, d') && Listing(d', ids)
    ensures FirstOnDisk(c, d', rs, k) && RecoversExactly(c, Doomed(phase, d), Fold(view, rs[..k]), d', Open(c, Default, now, d', ids))
  {
    hide Shadow, CrashOf, FirstOnDisk, OnDiskExcept, LiveView, Consistent, Fold, Open, Quiet, Sane, Complete;
    var s0, d0;
    s0, d0, k := ShadowCrash(c, d, d', phase, view, rs, true);
    CrashQuiet(d, d');
    assert RecoversExactly(c, Doomed(s0.phase, s0.db.disk), s0.view, d', Open(c, Default, now, d', ids)) by {
      assert
        && Consistent(OnDisk(c, d')) && OnDisk(c, d') == OnDisk(c, d0)
        && (LiveView(OnDisk(c, d')) == s0.view <==> Survives(c, Doomed(s0.phase, s0.db.disk), d', s0.view)) by {
        CrashViewExact(c, s0, d0);
        TornFrames(c, d0, d', s0.db.activeId);
      }
      assert Consistent(OnDisk(c, d')) && Reopened(c, d', LiveView(OnDisk(c, d')), Open(c, Default, now, d', ids)) by {
        LossDirectory(c, s0, d0, d');
        QuietStill(d');
        // Recovery of an ordered directory where nothing is pending, its active segment possibly torn.
        assert Reopened(c, d', LiveView(OnDisk(c, d')), Open(c, Default, now, d', ids)) by {
          OpenTorn(c, now, d0, d', ids, s0.db.activeId);
          TornReopens(c, d0, d', s0.db.nextSeq, s0.db.activeId, ids, Open(c, Default, now, d', ids));
        }
      }
      ServesJust(c, d', LiveView(OnDisk(c, d')), Open(c, Default, now, d', ids), s0.view);
    }
    assert Gone(s0.db.disk) == Gone(d);
  }

  lemma {:induction false} ServesJust(c: Codec, d: Disk, found: map<string, Record>, o: Opened, view: map<string, Record>)
    requires Reopened(c, d, found, o)
    ensures ServesJustIf(c, o, view, found == view)
  {
    hide Complete, OnDiskExcept, Represents, Reads;
    if o.Running? {
      if Represents(o.db.idx, view) && Reads(c, o.db.disk, o.db.idx, view) {
        OneDatabase(c, o.db.disk, o.db.idx, view, found);
      }
    }
  }

  lemma {:induction false} TornReopens(c: Codec, d0: Disk, d: Disk, next: nat, active: nat, ids: seq<nat>, o: Opened)
    requires TornOf(c, d0, d, active) && Listing(d, ids) && Still(d) && 1 <= active && OnDisk(c, d) == OnDisk(c, d0) && Consistent(OnDisk(c, d))
    requires DiskOk(c, d0, next, active, SegmentIds(d0) - {active}) && TornOutcome(c, d0, d, active, ids, o)
    ensures Reopened(c, d, LiveView(OnDisk(c, d)), o)
  {
    hide OnDiskExcept, LiveView, SegmentIds, Sane, TornOf, DiskOk, CutBack, SeededOn, Complete, Still, Listing;
    MendedFound(c, d0, d, active);
    if o.Running? {
      TornListing(c, d0, d, active, ids);
      TornStill(c, d0, ids, CutBack(d0, d, active), next, active, o.db);
    }
  }

  /** Cutting a torn tail off loses no frame. */
  lemma {:induction false} MendedFound(c: Codec, d0: Disk, d: Disk, active: nat)
    requires TornOf(c, d0, d, active) && Still(d)
    ensures Segment(active) in d0.dir && Segment(active) in d.dir && |d0.dir[Segment(active)]| <= |d.dir[Segment(active)]|
    ensures
      var d1 := CutBack(d0, d, active);
      Still(d1) && SameSegments(d0, d1) && OnDisk(c, d1) == OnDisk(c, d0)
  {
    CutBackIs(c, d0, d, active);
    hide OnDiskExcept, TornOf, CutBack, SameSegments, Still;
    SameSegmentsFrames(c, d0, CutBack(d0, d, active));
  }

  lemma {:induction false} TornListing(c: Codec, d0: Disk, d: Disk, active: nat, ids: seq<nat>)
    requires TornOf(c, d0, d, active) && Listing(d, ids)
    ensures Listing(d0, ids)
  {
    hide Clean, TailOnly;
  }
}
