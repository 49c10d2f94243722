/**
 * Whole runs of the engine: group commits, compaction beside them, failures after which compaction goes on, and
 * openings, which may refuse and be tried again. At every point of all these the process may die, with or without a
 * power loss.
 */
module Outages {
  import opened Wrappers
  import opened Bytes
  import opened Types
  import opened Frames
  import opened Index
  import opened LogMerge
  import opened Disk
  import opened GroupCommit
  import opened FlushIndex
  import opened Flusher
  import opened Recovery
  import opened ShelfReplay
  import opened OpenAfterCrash
  import opened CommitSafety
  import opened DiskView
  import opened FrameSets
  import opened Compaction
  import opened CompactionFrames
  import opened Survival
  import opened CompactionSteps
  import opened CompactionCrash
  import opened Reopen
  import opened TornTail
  import opened MidCommit
  import opened CommitCrash
  import opened FailedFlusher
  import opened Restart

  /** A running engine with the batch whose commit failed, if one did; or a directory without one. */
  datatype World =
    | Up(sys: Sys, inflight: seq<Record>)
    | Down(disk: Disk)

  const START: World := Down(EMPTY_DISK)

  // ---------- Steps ----------

  /** A group commit under any fault. */
  ghost predicate CommitStep(cfg: Config, w: World, w': World, clock: Clock, batch: seq<LogEntry>, fault: Fault)
  {
    && w.Up? && w'.Up? && FlushStep(cfg, w.sys, w'.sys, clock, batch, fault)
    && w'.inflight == if w'.sys.db.failed then PlanBatch(cfg, w.sys.db, clock, batch).records else []
  }

  /** A step of compaction, also after the flusher has failed. */
  ghost predicate CompactionStep(c: Codec, w: World, w': World)
  {
    w.Up? && w'.Up? && OwnStep(c, w.sys, w'.sys) && w'.inflight == w.inflight
  }

  /** The process dies between two steps, or power is lost. */
  ghost predicate OutageStep(w: World, w': World)
  {
    w.Up? && w'.Down? && Outage(w.sys.db.disk, w'.disk)
  }

  ghost predicate OutageInCommit(cfg: Config, w: World, w': World, clock: Clock, batch: seq<LogEntry>, fault: Fault, i: nat)
  {
    && w.Up? && w'.Down? && !w.sys.db.failed && Segment(w.sys.db.activeId) in w.sys.db.disk.dir
    && var plan := PlanBatch(cfg, w.sys.db, clock, batch);
       && AllWritable(cfg.codec, plan.records)
       && var o := Commit(cfg, w.sys.db, plan, fault);
          i < |o.trace| && Outage(o.trace[i], w'.disk)
  }

  /** The process dies there, and power stays on. */
  ghost predicate KillInCommit(cfg: Config, w: World, w': World, clock: Clock, batch: seq<LogEntry>, fault: Fault, i: nat)
  {
    && OutageInCommit(cfg, w, w', clock, batch, fault, i)
    && w'.disk == Commit(cfg, w.sys.db, PlanBatch(cfg, w.sys.db, clock, batch), fault).trace[i]
  }

  /** Default recovery; the database is what is found. It may refuse, and be tried again later. */
  ghost predicate OpenStep(c: Codec, w: World, w': World, ids: seq<nat>, now: int)
  {
    && w.Down? && Listing(w.disk, ids)
    && match Open(c, Default, now, w.disk, ids)
       case Running(db) => w' == Up(Sys(db, Holding(c, w.disk), NoCompaction), [])
       case Refused(disk, _) => w' == Down(disk)
  }

  ghost predicate OutageInOpen(c: Codec, w: World, w': World, ids: seq<nat>, now: int, i: nat)
  {
    && w.Down? && w'.Down? && Listing(w.disk, ids)
    && var points := OpenPoints(c, Default, now, w.disk, ids);
       i < |points| && Outage(points[i], w'.disk)
  }

  /** Power is lost while no engine runs. */
  ghost predicate PowerStep(w: World, w': World)
  {
    w.Down? && w'.Down? && CrashOf(w.disk, w'.disk)
  }

  ghost predicate Step(cfg: Config, w: World, w': World)
  {
    || (exists clock, batch, fault :: CommitStep(cfg, w, w', clock, batch, fault))
    || CompactionStep(cfg.codec, w, w')
    || OutageStep(w, w')
    || (exists clock, batch, fault, i: nat :: OutageInCommit(cfg, w, w', clock, batch, fault, i))
    || (exists ids, now :: OpenStep(cfg.codec, w, w', ids, now))
    || (exists ids, now, i: nat :: OutageInOpen(cfg.codec, w, w', ids, now, i))
    || PowerStep(w, w')
  }

  ghost predicate Lifetime(cfg: Config, ws: seq<World>)
  {
    ws != [] && ws[0] == START && forall i :: 0 <= i < |ws| - 1 ==> Step(cfg, ws[i], ws[i + 1])
  }

  // ---------- Two conditions on runs ----------

  /** An engine that is started finds its active segment durable, and no pending removal of frames at or above its next id. */
  ghost predicate OpensSafely(c: Codec, w: World, w': World)
  {
    w.Down? && w'.Up? ==> SafeToRun(c, w'.sys.db)
  }

  /** What is found is the database with the first so many records of the batch. */
  ghost predicate NoneLost(c: Codec, view: map<string, Record>, rs: seq<Record>, d: Disk)
  {
    exists k: nat :: FirstOnDisk(c, d, rs, k) && Holding(c, d) == Fold(view, rs[..k])
  }

  /**
   * No deleted key comes back: neither when a compaction ends although removals failed, nor when the process dies with
   * power on while removals are under way. After a power loss the directory is quiet, and whatever is on it counts.
   */
  ghost predicate Harmless(cfg: Config, w: World, w': World)
  {
    && (w.Up? && w'.Up? ==> LuckyFinish(cfg.codec, w.sys, w'.sys))
    && (OutageStep(w, w') && w'.disk == w.sys.db.disk ==> NoneLost(cfg.codec, w.sys.view, w.inflight, w'.disk))
    && (forall clock, batch, fault, i: nat :: KillInCommit(cfg, w, w', clock, batch, fault, i) ==>
          NoneLost(cfg.codec, w.sys.view, PlanBatch(cfg, w.sys.db, clock, batch).records, w'.disk))
  }

  // ---------- The invariant ----------

  const FRESH_FILE: Disk := Create(EMPTY_DISK, Segment(1))
  const FRESH_DISK: Disk := DirSync(FRESH_FILE)
  const FRESH: Db := Db(FRESH_DISK, EMPTY_INDEX, 1, 1, 0, true, false, 2, COMPACTION_ID_BASE)

  ghost predicate WorldOk(c: Codec, w: World, complete: bool)
  {
    match w
    case Up(s, inflight) => SysOk(c, s) && if s.db.failed then HasTwin(c, s, inflight, complete) else Intact(c, s, complete) && inflight == []
    case Down(d) => d == EMPTY_DISK || d == FRESH_FILE || Wreck(c, d) || Relic(c, d, complete)
  }

  // ---------- Running ----------

  lemma {:induction false} CommitKeeps(cfg: Config, w: World, w': World, clock: Clock, batch: seq<LogEntry>, fault: Fault, complete: bool)
    requires cfg.codec.Lawful() && WorldOk(cfg.codec, w, complete) && CommitStep(cfg, w, w', clock, batch, fault)
    ensures WorldOk(cfg.codec, w', complete)
  {
    var c, s, s' := cfg.codec, w.sys, w'.sys;
    hide SysOk, FramesOk, Durable, ViewOk, LiveDurable, PlanBatch, Commit, AllWritable, HasTwin, Fold;
    FlushOk(cfg, s, s', clock, batch, fault);
    var plan := PlanBatch(cfg, s.db, clock, batch);
    PlanWrites(cfg, s.db, clock, batch);
    if s'.db.failed {
      CommitShadows(cfg, s, plan, fault, complete);
      FailedView(cfg, s.db, plan, fault);
    } else {
      FlushFrames(cfg, s, s', clock, batch, fault);
      FlushDurable(cfg, s, s', clock, batch, fault);
      if complete {
        FlushLive(cfg, s, s', clock, batch, fault);
      }
    }
  }

  /** A commit that fails is not acknowledged. */
  lemma {:induction false} FailedView(cfg: Config, db: Db, plan: Plan, fault: Fault)
    requires Segment(db.activeId) in db.disk.dir && !db.failed && (db.fileOpen ==> Segment(db.activeId) in db.disk.dir)
    ensures Commit(cfg, db, plan, fault).db.failed ==> !Commit(cfg, db, plan, fault).ok
  {
    hide EncodeAll, ApplyAll;
  }

  lemma {:induction false} OwnKeeps(cfg: Config, w: World, w': World, complete: bool)
    requires cfg.codec.Lawful() && WorldOk(cfg.codec, w, complete) && CompactionStep(cfg.codec, w, w')
    requires complete ==> LuckyFinish(cfg.codec, w.sys, w'.sys)
    ensures WorldOk(cfg.codec, w', complete)
  {
    var c, s, s' := cfg.codec, w.sys, w'.sys;
    StepOk(cfg, s, s');
    OwnHealth(c, s, s');
    if s.db.failed {
      TwinKept(cfg, s, s', w.inflight, complete);
    } else {
      StepKeeps(cfg, s, s');
    }
  }

  lemma {:induction false} OwnHealth(c: Codec, s: Sys, s': Sys)
    requires OwnStep(c, s, s')
    ensures s'.db.failed == s.db.failed
  {
    hide SwapAll, ReadRecord, EncodeFrame, Rooted;
  }

  // ---------- The process dies ----------

  lemma {:induction false} PlainShadow(c: Codec, s: Sys, complete: bool)
    requires Intact(c, s, complete)
    ensures Shadow(c, s.db.disk, s.phase, s.view, [], complete)
  {
    hide Intact, Shadow, BesideDisk;
    SameAgain(c, s, complete);
    NothingAppended(c, s, []);
    ShadowOf(c, s, s.db.disk, [], complete);
  }

  lemma {:induction false} ShadowOutage(c: Codec, d: Disk, d': Disk, phase: Phase, view: map<string, Record>, rs: seq<Record>, complete: bool)
    requires c.Lawful() && Shadow(c, d, phase, view, rs, complete) && Outage(d, d')
    requires complete && d' == d ==> NoneLost(c, view, rs, d')
    ensures WorldOk(c, Down(d'), complete)
  {
    hide Shadow, CrashOf, Holding, Fold, Wreck, OnDiskExcept;
    if d' == d {
      ShadowFormed(c, d, phase, view, rs, complete);
      var k: nat := 0;
      if complete {
        k :| FirstOnDisk(c, d, rs, k) && Holding(c, d) == Fold(view, rs[..k]);
      }
      assert Remains(c, d, d, phase, view, rs, k, complete);
    } else {
      ShadowWreck(c, d, d', phase, view, rs, complete);
    }
  }

  /** A disk at which the engine may die. */
  lemma {:induction false} UpShadow(c: Codec, w: World, complete: bool)
    requires WorldOk(c, w, complete) && w.Up?
    ensures Shadow(c, w.sys.db.disk, w.sys.phase, w.sys.view, w.inflight, complete)
  {
    hide SysOk, Intact, Shadow;
    if w.sys.db.failed {
      assert Shadow(c, w.sys.db.disk, w.sys.phase, w.sys.view, w.inflight, complete) by {
        var s0 :| Twin(c, w.sys, s0, w.inflight, complete);
        ShadowOf(c, s0, w.sys.db.disk, w.inflight, complete);
      }
    } else {
      PlainShadow(c, w.sys, complete);
    }
  }

  lemma {:induction false} OutageInCommitKeeps(cfg: Config, w: World, w': World, clock: Clock, batch: seq<LogEntry>, fault: Fault, i: nat, complete: bool)
    requires cfg.codec.Lawful() && WorldOk(cfg.codec, w, complete) && OutageInCommit(cfg, w, w', clock, batch, fault, i)
    requires complete && KillInCommit(cfg, w, w', clock, batch, fault, i) ==>
      NoneLost(cfg.codec, w.sys.view, PlanBatch(cfg, w.sys.db, clock, batch).records, w'.disk)
    ensures WorldOk(cfg.codec, w', complete)
  {
    hide Shadow, PlanBatch, Commit, AllWritable, NoneLost, Outage;
    var c, s, plan := cfg.codec, w.sys, PlanBatch(cfg, w.sys.db, clock, batch);
    assert
      var plan := PlanBatch(cfg, w.sys.db, clock, batch);
      Shadow(cfg.codec, Commit(cfg, w.sys.db, plan, fault).trace[i], w.sys.phase, w.sys.view, plan.records, complete) by {
      PlanWrites(cfg, w.sys.db, clock, batch);
      CommitShadows(cfg, w.sys, PlanBatch(cfg, w.sys.db, clock, batch), fault, complete);
    }
    ShadowOutage(c, Commit(cfg, s.db, plan, fault).trace[i], w'.disk, s.phase, s.view, plan.records, complete);
  }

  // ---------- Directories in which no segment is pending ----------

  lemma {:induction false} WreckCrash(c: Codec, d: Disk, d': Disk)
    requires Wreck(c, d) && CrashOf(d, d')
    ensures Wreck(c, d')
  {
    assert Still(d) by { hide Still, TornOf, DiskOk, OnDiskExcept, Consistent, SegmentIds; }
    hide Wreck;
    WreckSame(c, d, d');
  }

  /** The same directory without its torn tail. */
  lemma {:induction false} WreckCut(c: Codec, d0: Disk, d: Disk, next: nat, active: nat)
    requires WreckOf(c, d0, d, next, active)
    ensures Segment(active) in d0.dir && Segment(active) in d.dir && |d0.dir[Segment(active)]| <= |d.dir[Segment(active)]|
    ensures Wreck(c, CutBack(d0, d, active))
  {
    hide Synced, WellFormed, DiskOk, OnDiskExcept, Consistent, SegmentIds, CutBack;
    CutBackIs(c, d0, d, active);
    var d1 := CutBack(d0, d, active);
    SameSegmentsFrames(c, d0, d1);
    assert WreckOf(c, d0, d1, next, active);
  }

  lemma {:induction false} WreckOpens(c: Codec, d: Disk, ids: seq<nat>, now: int) returns (d0: Disk, next: nat, active: nat)
    requires Wreck(c, d) && Listing(d, ids)
    ensures WreckOf(c, d0, d, next, active) && TornOutcome(c, d0, d, active, ids, Open(c, Default, now, d, ids))
    ensures
      var points := OpenPoints(c, Default, now, d, ids);
      forall i :: 0 <= i < |points| ==> Underway(d0, d, active, points[i])
  {
    hide Synced, FramesSound, CopiesActive, Originals, Tidy, Ordered, NewestIs, OnDiskExcept, Consistent, TornOf, SegmentIds, Open, OpenPoints, TornOutcome, WellFormed;
    d0, next, active :| WreckOf(c, d0, d, next, active);
    OpenTorn(c, now, d0, d, ids, active);
  }

  lemma {:induction false} WreckOpenKeeps(c: Codec, d: Disk, w': World, ids: seq<nat>, now: int)
    requires Wreck(c, d) && OpenStep(c, Down(d), w', ids, now)
    ensures WorldOk(c, w', true)
  {
    hide Wreck, Open, SysOk, FramesOk, Durable, Complete, CutBack, OpenPoints, Underway, OnDiskExcept, Consistent, LiveView;
    var d0, next, active := WreckOpens(c, d, ids, now);
    var o := Open(c, Default, now, d, ids);
    WreckCut(c, d0, d, next, active);
    if o.Running? {
      assert Intact(c, Sys(o.db, Holding(c, d), NoCompaction), true) by {
        TornReopens(c, d0, d, next, active, ids, o);
      }
    }
  }

  lemma {:induction false} WreckPoint(c: Codec, d0: Disk, d: Disk, point: Disk, d': Disk, next: nat, active: nat)
    requires WreckOf(c, d0, d, next, active)
    requires Segment(active) in d0.dir && Segment(active) in d.dir && |d0.dir[Segment(active)]| <= |d.dir[Segment(active)]|
    requires Underway(d0, d, active, point) && Outage(point, d')
    ensures Wreck(c, d')
  {
    assert Wreck(c, d);
    assert Still(d) by { hide Still, TornOf, DiskOk, OnDiskExcept, Consistent, SegmentIds; }
    hide Wreck, WreckOf, Still, CrashOf, SameSegments, SameShelves, CutBack;
    if SameShelves(d, point) {
      WreckSame(c, d, point);
    } else {
      WreckCut(c, d0, d, next, active);
    }
    if d' != point {
      WreckCrash(c, point, d');
    }
  }

  // ---------- What a dead process has left ----------

  /** The directory of an intact state is in order. */
  lemma {:induction false} StandDisk(c: Codec, s: Sys)
    requires Sane(c, s)
    ensures DiskOk(c, s.db.disk, s.db.nextSeq, s.db.activeId, SegmentIds(s.db.disk) - {s.db.activeId})
  {
    assert WellFormed(s.db.disk) by { hide SysOk, FramesOk; }
    hide Sane, CrashOf, DiskOk, SegmentIds, OnDiskExcept, Consistent, SameSegments, WellFormed;
    QuietedCrash(s.db.disk);
    CrashDiskOk(c, s, Quieted(s.db.disk));
    SameFiles(c, Quieted(s.db.disk), s.db.disk, s.db.nextSeq, s.db.activeId, SegmentIds(s.db.disk) - {s.db.activeId});
  }

  /** The intact state behind what a dead process has left. */
  ghost predicate Behind(c: Codec, s1: Sys, d: Disk, complete: bool)
  {
    && Intact(c, s1, complete) && Afoot(s1.db.disk, d, s1.db.activeId) && TornOf(c, s1.db.disk, d, s1.db.activeId)
    && (complete ==> s1.view == Holding(c, d))
  }

  /** How recovery of a torn directory goes, and what it yields. */
  ghost predicate TornOpening(c: Codec, now: int, d0: Disk, d: Disk, active: nat, ids: seq<nat>)
    requires Listing(d, ids)
  {
    && TornOutcome(c, d0, d, active, ids, Open(c, Default, now, d, ids))
    && var points := OpenPoints(c, Default, now, d, ids);
       forall i :: 0 <= i < |points| ==> Underway(d0, d, active, points[i])
  }

  lemma {:induction false} RelicOpens(c: Codec, d: Disk, ids: seq<nat>, now: int, complete: bool) returns (s1: Sys)
    requires c.Lawful() && Relic(c, d, complete) && Listing(d, ids)
    ensures Behind(c, s1, d, complete) && TornOpening(c, now, s1.db.disk, d, s1.db.activeId, ids)
  {
    hide Relic, Sane, Complete, FramesSound, CopiesActive, Originals, Tidy, Ordered, NewestIs, OnDiskExcept, Consistent, TornOf, SegmentIds, Open, OpenPoints, TornOutcome, WellFormed, Holding;
    s1 := RelicRests(c, d, complete);
    StandDisk(c, s1);
    OpenTorn(c, now, s1.db.disk, d, ids, s1.db.activeId);
  }

  /** The same without its torn tail. */
  lemma {:induction false} RelicCut(c: Codec, s1: Sys, d: Disk, complete: bool)
    requires Behind(c, s1, d, complete)
    requires Segment(s1.db.activeId) in s1.db.disk.dir && Segment(s1.db.activeId) in d.dir
    requires |s1.db.disk.dir[Segment(s1.db.activeId)]| < |d.dir[Segment(s1.db.activeId)]|
    ensures Relic(c, CutBack(s1.db.disk, d, s1.db.activeId), complete)
  {
    hide Intact, TornOf, OnDiskExcept, Consistent, LiveView, Shadow, SameShelves;
    var d0, active := s1.db.disk, s1.db.activeId;
    AfootCut(c, d0, d, active);
    TornFrames(c, d0, d, active);
    PlainShadow(c, s1, complete);
    assert Remains(c, d0, CutBack(d0, d, active), s1.phase, s1.view, [], 0, complete);
  }

  lemma {:induction false} RelicShelves(c: Codec, d: Disk, d': Disk, complete: bool)
    requires Relic(c, d, complete) && SameShelves(d, d')
    ensures Relic(c, d', complete)
  {
    hide Shadow, Holding, FirstOnDisk, Fold;
    var d1, phase, view, rs, k :| Remains(c, d1, d, phase, view, rs, k, complete);
    ShadowFormed(c, d1, phase, view, rs, complete);
    assert Remains(c, d1, d', phase, view, rs, k, complete);
  }

  // ---------- The first opening ----------

  lemma {:induction false} FreshDisk(c: Codec)
    ensures forall id: nat :: Segment(id) in FRESH_DISK.dir <==> id == 1
    ensures DiskOk(c, FRESH_DISK, 1, 1, SegmentIds(FRESH_DISK) - {1}) && Still(FRESH_DISK)
    ensures OnDisk(c, FRESH_DISK) == {} && Consistent({}) && LiveView({}) == map[]
  {
    EmptyFile(c);
    assert forall id: nat, r :: !InFile(c, FRESH_DISK, id, r);
  }

  lemma {:induction false} EmptyIndex(c: Codec, d: Disk)
    ensures Represents(EMPTY_INDEX, map[]) && Accounted(c, EMPTY_INDEX) && Reads(c, d, EMPTY_INDEX, map[])
    ensures forall q :: FreshFrom(EMPTY_INDEX, q)
  {
    assert TimeEntries(EMPTY_INDEX.times) == {};
  }

  /** Opening an empty directory gives an engine that satisfies the invariant. */
  lemma {:induction false} FreshEngine(c: Codec, mode: Mode, now: int)
    ensures
      var o := Open(c, mode, now, EMPTY_DISK, []);
      o.Running? && Intact(c, Sys(o.db, map[], NoCompaction), true) && o.db.activeId == 1 && o.db.nextSeq == 1
  {
    hide DiskOk, Still, OnDiskExcept, LiveView, Consistent, Represents, Accounted, Reads, FreshSeq, InFile, Sane, Complete, Runnable;
    FreshDisk(c);
    EmptyIndex(c, FRESH_DISK);
    StillRunnable(c, FRESH_DISK, 1, 1, 0);
    OpenedSane(c, FRESH, map[]);
    StillComplete(c, Sys(FRESH, map[], NoCompaction));
  }

  lemma {:induction false} NothingOnDisk(c: Codec)
    ensures OnDisk(c, EMPTY_DISK) == {} && OnDisk(c, FRESH_FILE) == {} && Consistent({}) && LiveView({}) == map[]
  {
    EmptyFile(c);
    assert forall id: nat, r :: !InFile(c, EMPTY_DISK, id, r);
    assert forall id: nat, r :: !InFile(c, FRESH_FILE, id, r);
  }

  lemma {:induction false} FirstOpening(c: Codec, w': World, ids: seq<nat>, now: int)
    requires OpenStep(c, START, w', ids, now)
    ensures WorldOk(c, w', true)
  {
    FirstListed(EMPTY_DISK, ids);
    FreshEngine(c, Default, now);
    NothingOnDisk(c);
    hide SysOk, FramesOk, Durable, Open, Complete, OnDiskExcept, LiveView, Consistent;
  }

  lemma {:induction false} FirstListed(d: Disk, ids: seq<nat>)
    requires Listing(d, ids)
    ensures ids != [] ==> Segment(ids[0]) in d.dir
  {
    assert ids != [] ==> ids[0] in ids;
  }

  /** The first segment is there, empty, or it is not. */
  lemma {:induction false} FirstFile(point: Disk, d': Disk)
    requires (point == FRESH_FILE || point == FRESH_DISK) && CrashOf(point, d')
    ensures d' == EMPTY_DISK || d' == FRESH_DISK
  {
    assert point.dir.Keys == {Segment(1)};
    assert d'.dir.Keys <= {Segment(1)};
    if Segment(1) in d'.dir {
      assert d'.dir == map[Segment(1) := []];
      assert d'.durable == map[Segment(1) := 0];
    } else {
      assert d'.dir == map[] && d'.durable == map[];
    }
  }

  lemma {:induction false} FreshWreck(c: Codec)
    ensures Wreck(c, FRESH_DISK)
  {
    FreshDisk(c);
    EmptyFile(c);
    hide DiskOk, Still, OnDiskExcept, LiveView, Consistent, InFile, SegmentIds;
    assert WreckOf(c, FRESH_DISK, FRESH_DISK, 1, 1);
  }

  lemma {:induction false} PendingOpen(c: Codec, now: int)
    requires Segment(1) in FRESH_FILE.dir
    ensures
      var o := Open(c, Default, now, FRESH_FILE, [1]);
      o.Running? && o.db.disk == FRESH_FILE && o.db.activeId == 1 && OpenPoints(c, Default, now, FRESH_FILE, [1]) == []
  {
    assert [1][..0] == [];
    assert PassAll(c, FRESH_FILE, []) == START_PASS;
    assert Places(1, []) == [];
    var pass := PassAll(c, FRESH_FILE, [1]);
    assert pass.summaries == [Summary(1, 0, false)] && pass.tears == [];
    assert [Summary(1, 0, false)][..0] == [];
    assert ChooseActive(pass.summaries) == 1;
  }

  lemma {:induction false} OnlyOne(ids: seq<nat>)
    requires Listing(FRESH_FILE, ids)
    ensures ids == [1]
  {
    AscendingApart(ids);
    assert forall id: nat :: Segment(id) in FRESH_FILE.dir <==> id == 1;
    assert 1 in ids;
    assert forall i :: 0 <= i < |ids| ==> ids[i] in ids;
  }

  lemma {:induction false} AscendingApart(ids: seq<nat>)
    requires Ascending(ids)
    ensures |ids| <= 1 || ids[0] != ids[1]
  {
  }

  /** An engine that finds the first segment pending does not open safely; recovery changes nothing on disk. */
  lemma {:induction false} PendingFirst(c: Codec, ids: seq<nat>, now: int)
    requires Listing(FRESH_FILE, ids)
    ensures
      var o := Open(c, Default, now, FRESH_FILE, ids);
      o.Running? && !SafeToRun(c, o.db) && OpenPoints(c, Default, now, FRESH_FILE, ids) == []
  {
    OnlyOne(ids);
    PendingOpen(c, now);
    hide Open, OpenPoints, Full, InFile;
  }

  // ---------- Openings and power losses ----------

  lemma {:induction false} OpenKeeps(c: Codec, w: World, w': World, ids: seq<nat>, now: int, complete: bool)
    requires c.Lawful() && WorldOk(c, w, complete) && OpenStep(c, w, w', ids, now) && OpensSafely(c, w, w')
    ensures WorldOk(c, w', complete)
  {
    hide Wreck, Relic, Open, SysOk;
    if w.disk == EMPTY_DISK {
      FirstOpening(c, w', ids, now);
    } else if w.disk == FRESH_FILE {
      PendingFirst(c, ids, now);
      assert false;
    } else if Wreck(c, w.disk) {
      WreckOpenKeeps(c, w.disk, w', ids, now);
    } else {
      assert WorldOk(c, w', complete) by {
        var s1 := RelicOpens(c, w.disk, ids, now, complete);
        var o := Open(c, Default, now, w.disk, ids);
        if o.Running? {
          assert Intact(c, Sys(o.db, Holding(c, w.disk), NoCompaction), complete) by {
            var d0, active := s1.db.disk, s1.db.activeId;
            var d2 := CutBack(d0, w.disk, active);
            AfootCut(c, d0, w.disk, active);
            CutBackIs(c, d0, w.disk, active);
            TornFrames(c, d0, w.disk, active);
            TornListing(c, d0, w.disk, active, ids);
            ShelvesRunnable(c, s1, d2, o.db.nextSeq);
            TornSane(c, d0, ids, d2, active, o.db);
            if complete {
              ShelvesComplete(c, s1, Sys(o.db, Holding(c, w.disk), NoCompaction));
            }
          }
        } else {
          if o.disk != w.disk {
            RelicCut(c, s1, w.disk, complete);
          }
        }
      }
    }
    Weaker(c, w', complete);
  }

  lemma {:induction false} Weaker(c: Codec, w: World, complete: bool)
    ensures WorldOk(c, w, true) ==> WorldOk(c, w, complete)
  {
    hide Sane, Complete, AllWritable, Consecutive, SameShelves, Holding, FirstOnDisk, Fold;
    if w.Up? && HasTwin(c, w.sys, w.inflight, true) {
      var s0 :| Twin(c, w.sys, s0, w.inflight, true);
      assert Twin(c, w.sys, s0, w.inflight, complete);
    } else if w.Down? && Relic(c, w.disk, true) {
      assert Relic(c, w.disk, complete) by {
        var d1, phase, view, rs, k :| Remains(c, d1, w.disk, phase, view, rs, k, true);
        var s0, j :| Beside(c, s0, d1, phase, view, rs, j, true);
        assert Beside(c, s0, d1, phase, view, rs, j, complete);
        assert Remains(c, d1, w.disk, phase, view, rs, k, complete);
      }
    }
  }

  lemma {:induction false} OutageInOpenKeeps(c: Codec, w: World, w': World, ids: seq<nat>, now: int, i: nat, complete: bool)
    requires c.Lawful() && WorldOk(c, w, complete) && OutageInOpen(c, w, w', ids, now, i)
    ensures WorldOk(c, w', complete)
  {
    hide Wreck, WreckOf, Relic, Intact, HasTwin, Holding, Afoot, TornOf, Create, DirSync;
    if w.disk == EMPTY_DISK {
      assert WorldOk(c, w', true) by {
        FirstListed(EMPTY_DISK, ids);
        FreshWreck(c);
        var point := OpenPoints(c, Default, now, EMPTY_DISK, [])[i];
        assert point == FRESH_FILE || point == FRESH_DISK;
        if w'.disk != point {
          FirstFile(point, w'.disk);
        }
      }
      Weaker(c, w', complete);
    } else if w.disk == FRESH_FILE {
      PendingFirst(c, ids, now);
      assert false;
    } else if Wreck(c, w.disk) {
      var d0, next, active := WreckOpens(c, w.disk, ids, now);
      WreckPoint(c, d0, w.disk, OpenPoints(c, Default, now, w.disk, ids)[i], w'.disk, next, active);
    } else {
      var s1 := RelicOpens(c, w.disk, ids, now, complete);
      assert Wreck(c, w'.disk) || Relic(c, w'.disk, complete) by {
        if SameShelves(w.disk, OpenPoints(c, Default, now, w.disk, ids)[i]) {
          RelicShelves(c, w.disk, OpenPoints(c, Default, now, w.disk, ids)[i], complete);
        } else if OpenPoints(c, Default, now, w.disk, ids)[i] != w.disk {
          RelicCut(c, s1, w.disk, complete);
        }
        if w'.disk != OpenPoints(c, Default, now, w.disk, ids)[i] {
          RelicCrash(c, OpenPoints(c, Default, now, w.disk, ids)[i], w'.disk, complete);
        }
      }
    }
  }

  lemma {:induction false} PowerKeeps(c: Codec, w: World, w': World, complete: bool)
    requires c.Lawful() && WorldOk(c, w, complete) && PowerStep(w, w')
    ensures WorldOk(c, w', complete) && (w'.disk == EMPTY_DISK || Wreck(c, w'.disk))
  {
    hide Wreck, Relic, Create, DirSync;
    FreshWreck(c);
    if w.disk == EMPTY_DISK {
    } else if w.disk == FRESH_FILE {
      FirstFile(w.disk, w'.disk);
    } else if Wreck(c, w.disk) {
      WreckCrash(c, w.disk, w'.disk);
    } else {
      RelicCrash(c, w.disk, w'.disk, complete);
    }
  }

  // ---------- Whole runs ----------

  lemma {:induction false} StepStays(cfg: Config, w: World, w': World, complete: bool)
    requires cfg.codec.Lawful() && WorldOk(cfg.codec, w, complete) && Step(cfg, w, w') && OpensSafely(cfg.codec, w, w')
    requires complete ==> Harmless(cfg, w, w')
    ensures WorldOk(cfg.codec, w', complete)
  {
    hide WorldOk, CommitStep, OutageInCommit, KillInCommit, OpenStep, OutageInOpen, PowerStep, OpensSafely, NoneLost, LuckyFinish, PlanBatch;
    var c := cfg.codec;
    if clock, batch, fault :| CommitStep(cfg, w, w', clock, batch, fault) {
      CommitKeeps(cfg, w, w', clock, batch, fault, complete);
    } else if CompactionStep(c, w, w') {
      OwnKeeps(cfg, w, w', complete);
    } else if OutageStep(w, w') {
      assert WorldOk(c, w', complete) by {
        UpShadow(c, w, complete);
        ShadowOutage(c, w.sys.db.disk, w'.disk, w.sys.phase, w.sys.view, w.inflight, complete);
      }
    } else if clock, batch, fault, i: nat :| OutageInCommit(cfg, w, w', clock, batch, fault, i) {
      OutageInCommitKeeps(cfg, w, w', clock, batch, fault, i, complete);
    } else if ids, now :| OpenStep(c, w, w', ids, now) {
      OpenKeeps(c, w, w', ids, now, complete);
    } else if ids, now, i: nat :| OutageInOpen(c, w, w', ids, now, i) {
      OutageInOpenKeeps(c, w, w', ids, now, i, complete);
    } else {
      PowerKeeps(c, w, w', complete);
    }
  }

  lemma {:induction false} RunStays(cfg: Config, ws: seq<World>, i: nat)
    requires cfg.codec.Lawful() && Lifetime(cfg, ws) && i < |ws| && forall j :: 0 <= j < i ==> OpensSafely(cfg.codec, ws[j], ws[j + 1])
    ensures WorldOk(cfg.codec, ws[i], false)
  {
    hide OpensSafely;
    if i > 0 {
      RunStays(cfg, ws, i - 1);
      assert Step(cfg, ws[i - 1], ws[i - 1 + 1]) && OpensSafely(cfg.codec, ws[i - 1], ws[i - 1 + 1]);
      hide WorldOk, Step;
      StepStays(cfg, ws[i - 1], ws[i], false);
    }
  }

  /** Where nothing is pending, whatever is on disk is the database. */
  lemma {:induction false} QuietWhole(c: Codec, w: World)
    requires c.Lawful() && WorldOk(c, w, false) && w.Down? && Quiet(w.disk)
    ensures WorldOk(c, w, true)
  {
    hide Wreck, Relic, CrashOf, Create, DirSync;
    if Relic(c, w.disk, false) {
      QuietCrash(w.disk);
      RelicCrash(c, w.disk, w.disk, false);
    }
  }

  lemma {:induction false} QuietCrash(d: Disk)
    requires Quiet(d)
    ensures CrashOf(d, d)
  {
  }

  /** Since `from` no deleted key has come back. */
  ghost predicate HarmlessFrom(cfg: Config, ws: seq<World>, from: nat, i: nat)
  {
    && from <= i < |ws| && ws[from].Down? && Quiet(ws[from].disk)
    && forall j :: from <= j < i ==> Harmless(cfg, ws[j], ws[j + 1])
  }

  lemma {:induction false} RunStaysComplete(cfg: Config, ws: seq<World>, from: nat, i: nat)
    requires cfg.codec.Lawful() && Lifetime(cfg, ws) && HarmlessFrom(cfg, ws, from, i)
    requires forall j :: 0 <= j < i ==> OpensSafely(cfg.codec, ws[j], ws[j + 1])
    ensures WorldOk(cfg.codec, ws[i], true)
    decreases i
  {
    hide WorldOk, Harmless, OpensSafely, Quiet, Step;
    if i == from {
      RunStays(cfg, ws, i);
      QuietWhole(cfg.codec, ws[i]);
    } else {
      RunStaysComplete(cfg, ws, from, i - 1);
      assert Step(cfg, ws[i - 1], ws[i - 1 + 1]) && OpensSafely(cfg.codec, ws[i - 1], ws[i - 1 + 1]) && Harmless(cfg, ws[i - 1], ws[i - 1 + 1]);
      StepStays(cfg, ws[i - 1], ws[i], true);
    }
  }

  /**
   * Over every run in which engines open safely, at every moment: a running engine, failed or not, serves exactly the
   * plain map of writes that it found on disk when it was opened and has committed since, and if it has not failed its
   * segments are in order; the frames in a directory without an engine never contradict each other.
   */
  lemma {:induction false} RunsServe(cfg: Config, ws: seq<World>, i: nat)
    requires cfg.codec.Lawful() && Lifetime(cfg, ws) && i < |ws| && forall j :: 0 <= j < i ==> OpensSafely(cfg.codec, ws[j], ws[j + 1])
    ensures Served(cfg.codec, ws[i])
  {
    hide Lifetime, OpensSafely;
    RunStays(cfg, ws, i);
    assert Served(cfg.codec, ws[i]) by {
      match ws[i]
      case Up(s, _) =>
        if !s.db.failed {
          SegmentsInOrder(cfg.codec, s);
        }
      case Down(d) =>
        NothingOnDisk(cfg.codec);
        if Wreck(cfg.codec, d) {
          var d0, next, active :| WreckOf(cfg.codec, d0, d, next, active);
        } else if Relic(cfg.codec, d, false) {
          assert WellFormed(d) && Consistent(OnDisk(cfg.codec, d)) by {
            var d1, phase, view, rs, k :| Remains(cfg.codec, d1, d, phase, view, rs, k, false);
            assert WellFormed(d);
            QuietedCrash(d);
            RelicCrash(cfg.codec, d, Quieted(d), false);
            var d0, next, active :| WreckOf(cfg.codec, d0, Quieted(d), next, active);
            SameSegmentsFrames(cfg.codec, Quieted(d), d);
          }
        }
    }
  }

  ghost predicate Served(c: Codec, w: World)
  {
    match w
    case Up(s, _) =>
      && Represents(s.db.idx, s.view) && Accounted(c, s.db.idx)
      && (forall k :: k in s.view ==> k in s.db.idx.primary && ReadRecord(c, s.db.disk, s.db.idx.primary[k]) == Some(s.view[k]))
      && (!s.db.failed ==> InOrder(c, s.db))
    case Down(d) => Consistent(OnDisk(c, d))
  }

  /**
   * An outage in such a run, in which no deleted key has come back since the directory was last quiet: of a batch whose
   * commit failed exactly the first so many records are found, and the database with these is the one found exactly
   * when nothing found of the segments that compaction was removing does harm.
   */
  lemma {:induction false} RunOutageExact(cfg: Config, ws: seq<World>, from: nat, i: nat, d': Disk) returns (k: nat)
    requires cfg.codec.Lawful() && Lifetime(cfg, ws) && HarmlessFrom(cfg, ws, from, i)
    requires forall j :: 0 <= j < i ==> OpensSafely(cfg.codec, ws[j], ws[j + 1])
    requires i < |ws| && ws[i].Up? && Outage(ws[i].sys.db.disk, d')
    ensures
      var c, s, rs := cfg.codec, ws[i].sys, ws[i].inflight;
      FirstOnDisk(c, d', rs, k) && (Holding(c, d') == Fold(s.view, rs[..k]) <==> Survives(c, Doomed(s.phase, s.db.disk), d', Fold(s.view, rs[..k])))
  {
    hide Lifetime, HarmlessFrom, OpensSafely, WorldOk, Shadow, Outage, Survives, Doomed, Fold, OnDiskExcept, LiveView, Consistent;
    RunStaysComplete(cfg, ws, from, i);
    UpShadow(cfg.codec, ws[i], true);
    k := OutageExact(cfg.codec, ws[i].sys.db.disk, d', ws[i].sys.phase, ws[i].sys.view, ws[i].inflight);
  }

  /** So nothing is lost while no removal is under way or pending. */
  lemma {:induction false} RunOutageKeeps(cfg: Config, ws: seq<World>, from: nat, i: nat, d': Disk) returns (k: nat)
    requires cfg.codec.Lawful() && Lifetime(cfg, ws) && HarmlessFrom(cfg, ws, from, i)
    requires forall j :: 0 <= j < i ==> OpensSafely(cfg.codec, ws[j], ws[j + 1])
    requires i < |ws| && ws[i].Up? && Outage(ws[i].sys.db.disk, d')
    requires Doomed(ws[i].sys.phase, ws[i].sys.db.disk) == {}
    ensures FirstOnDisk(cfg.codec, d', ws[i].inflight, k) && Holding(cfg.codec, d') == Fold(ws[i].sys.view, ws[i].inflight[..k])
  {
    hide Lifetime, HarmlessFrom, OpensSafely, Outage, Doomed, Fold, Holding;
    k := RunOutageExact(cfg, ws, from, i, d');
  }

  /** The same inside a group commit. */
  lemma {:induction false} RunCommitExact(cfg: Config, ws: seq<World>, from: nat, i: nat, w': World, clock: Clock, batch: seq<LogEntry>, fault: Fault, at: nat)
      returns (k: nat)
    requires cfg.codec.Lawful() && Lifetime(cfg, ws) && HarmlessFrom(cfg, ws, from, i)
    requires forall j :: 0 <= j < i ==> OpensSafely(cfg.codec, ws[j], ws[j + 1])
    requires i < |ws| && OutageInCommit(cfg, ws[i], w', clock, batch, fault, at)
    ensures
      var c, s, plan := cfg.codec, ws[i].sys, PlanBatch(cfg, ws[i].sys.db, clock, batch);
      var rs, point := plan.records, Commit(cfg, s.db, plan, fault).trace[at];
      FirstOnDisk(c, w'.disk, rs, k)
      && (Holding(c, w'.disk) == Fold(s.view, rs[..k]) <==> Survives(c, Doomed(s.phase, point), w'.disk, Fold(s.view, rs[..k])))
  {
    hide Lifetime, HarmlessFrom, OpensSafely, Shadow, Outage, Survives, Doomed, Fold, OnDiskExcept, LiveView, Consistent, PlanBatch, Commit, AllWritable;
    RunStaysComplete(cfg, ws, from, i);
    var s, plan := ws[i].sys, PlanBatch(cfg, ws[i].sys.db, clock, batch);
    assert
      var plan := PlanBatch(cfg, ws[i].sys.db, clock, batch);
      Shadow(cfg.codec, Commit(cfg, ws[i].sys.db, plan, fault).trace[at], ws[i].sys.phase, ws[i].sys.view, plan.records, true) by {
      PlanWrites(cfg, ws[i].sys.db, clock, batch);
      CommitShadows(cfg, ws[i].sys, PlanBatch(cfg, ws[i].sys.db, clock, batch), fault, true);
    }
    k := OutageExact(cfg.codec, Commit(cfg, s.db, plan, fault).trace[at], w'.disk, s.phase, s.view, plan.records);
  }
}
