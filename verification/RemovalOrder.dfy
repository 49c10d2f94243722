/**
 * Inputs are removed in ascending order. If removals come back from a power loss latest first, as that order
 * suggests though nothing guarantees it, then only inputs that are compacted segments themselves can do harm.
 */
module RemovalOrder {
  import opened Wrappers
  import opened Bytes
  import opened Types
  import opened Frames
  import opened Index
  import opened LogMerge
  import opened Disk
  import opened GroupCommit
  import opened FlushIndex
  import opened Flusher
  import opened Recovery
  import opened ShelfReplay
  import opened CommitSafety
  import opened DiskView
  import opened FrameSets
  import opened Compaction
  import opened CompactionFrames
  import opened Survival
  import opened CompactionSteps
  import opened CompactionCrash
  import opened OpenAfterCrash
  import opened Reopen
  import opened TornTail
  import opened MidCommit
  import opened CommitCrash
  import opened FailedFlusher
  import opened Restart
  import opened Outages

  /** The frames of a deleted key in a normal input are shadowed by a frame there or further on. */
  ghost predicate Guarded(c: Codec, d: Disk, inputs: set<nat>, view: map<string, Record>)
  {
    forall x: nat, g ::
      x in inputs && x < COMPACTION_ID_BASE && InFile(c, d, x, g) && g.IsActive() && g.Compound() !in view
      ==> ShadowedFrom(c, d, x, g)
  }

  ghost predicate ShadowedFrom(c: Codec, d: Disk, x: nat, g: Record)
  {
    exists m: nat, q :: x <= m < COMPACTION_ID_BASE && InFile(c, d, m, q) && Older(g, q)
  }

  /** Removed inputs are gone from the directory, lower ones first; nothing else is pending removal. */
  ghost predicate Ascends(d: Disk, inputs: set<nat>, left: set<nat>)
  {
    && (forall id :: id in inputs && Segment(id) in d.dir ==> id in left)
    && (forall i, j :: i in inputs && i !in left && j in left ==> i < j)
    && (forall p :: p in d.unlinks ==> p.Segment? && p.id in inputs && p.id !in left)
  }

  /** While inputs are removed that is done in order; otherwise no removal is pending. */
  ghost predicate Orderly(s: Sys)
  {
    if s.phase.Unlinking? then Ascends(s.db.disk, s.phase.inputs, s.phase.left) else s.db.disk.unlinks == map[]
  }

  ghost predicate OrderOk(c: Codec, s: Sys)
  {
    Orderly(s) && (!s.db.failed && s.phase.Unlinking? ==> Guarded(c, Full(s.db.disk), s.phase.inputs, s.view))
  }

  // ---------- The swap ----------

  /** At the swap, a deleted key's frames in normal inputs are shadowed by a tombstone from there on. */
  lemma {:induction false} SwapGuards(c: Codec, d: Disk, inputs: set<nat>, view: map<string, Record>)
    requires Ordered(c, d) && CopiesActive(c, d) && ViewOnDisk(c, d, {}, view)
    ensures Guarded(c, d, inputs, view)
  {
    hide InFile, OnDiskExcept, LiveView;
    var all := OnDiskExcept(c, d, {});
    LiveViewSound(all);
    forall x: nat, g | x in inputs && x < COMPACTION_ID_BASE && InFile(c, d, x, g) && g.IsActive() && g.Compound() !in view
      ensures ShadowedFrom(c, d, x, g)
    {
      OnDiskIff(c, d, {}, g);
      var t := TopExists(all, g);
      OnDiskIff(c, d, {}, t);
      var m: nat :| InFile(c, d, m, t);
      assert Flagged(t) && t.IsTombstone();
    }
  }

  lemma {:induction false} SwapOrder(c: Codec, s: Sys, s': Sys, order: seq<string>)
    requires Sane(c, s) && ViewOk(c, s) && SwapStep(c, s, s', order)
    ensures Guarded(c, Full(s'.db.disk), s'.phase.inputs, s'.view)
  {
    var d, f := s.db.disk, Full(s.db.disk);
    assert d.unlinks == map[] by { hide SysOk, Durable, DiskOk, PhaseFrames, PointsToFrames, Uppermost, ViewOk; }
    FullPlain(d);
    SameOnDisk(c, d, f, {});
    assert Ordered(c, f) && CopiesActive(c, f) by { hide SysOk, Durable, FramesSound, Originals, Tidy, NewestIs, PhaseFrames, PointsToFrames, Uppermost, PendingOk, ViewOk, Ordered, CopiesActive, Full, NormalsNewer; }
    hide SysOk, FramesOk, Ordered, CopiesActive, Durable, SwapAll, Guarded, Full, OnDiskExcept, LiveView, Consistent;
    assert ViewOnDisk(c, f, {}, s.view);
    SwapGuards(c, f, s.phase.inputs, s.view);
  }

  // ---------- Keeping the order ----------

  /** What a step must keep of the inputs, and of the normal segments from any of them on. */
  ghost predicate KeepsFrom(c: Codec, d: Disk, d': Disk, inputs: set<nat>)
  {
    && (forall x: nat, g :: x in inputs && InFile(c, d', x, g) ==> InFile(c, d, x, g))
    && (forall x: nat, m: nat, q ::
          x in inputs && x <= m < COMPACTION_ID_BASE && Segment(x) in d'.dir && InFile(c, d, m, q) ==> InFile(c, d', m, q))
  }

  lemma {:induction false} GuardedKept(c: Codec, d: Disk, d': Disk, inputs: set<nat>, view: map<string, Record>, id: nat, rs: seq<Record>, next: nat)
    requires Guarded(c, d, inputs, view) && KeepsFrom(c, d, d', inputs)
    requires forall i :: i in inputs && i < COMPACTION_ID_BASE ==> i < id < COMPACTION_ID_BASE
    requires forall r :: r in rs ==> InFile(c, d', id, r) && next <= r.seqId
    requires forall x: nat, g :: InFile(c, d, x, g) ==> g.seqId < next
    ensures Guarded(c, d', inputs, Fold(view, rs))
  {
    hide FramesIn, Fold;
    FoldOrigin(view, rs);
    forall x: nat, g | x in inputs && x < COMPACTION_ID_BASE && InFile(c, d', x, g) && g.IsActive() && g.Compound() !in Fold(view, rs)
      ensures ShadowedFrom(c, d', x, g)
    {
      assert InFile(c, d, x, g);
      if g.Compound() in view {
        var r :| r in rs && r.Compound() == g.Compound();
        assert Older(g, r);
      } else {
        var m: nat, q :| x <= m < COMPACTION_ID_BASE && InFile(c, d, m, q) && Older(g, q);
        assert InFile(c, d', m, q);
      }
    }
  }

  /** A commit only appends, and may make all removals so far durable. */
  ghost predicate OnlyAppends(d: Disk, d': Disk, id: nat)
  {
    && (forall j: nat :: Segment(j) in d.dir ==> Segment(j) in d'.dir && d.dir[Segment(j)] <= d'.dir[Segment(j)])
    && (forall j: nat :: j != id && Segment(j) in d'.dir ==> Segment(j) in d.dir && d'.dir[Segment(j)] == d.dir[Segment(j)])
    && (d'.unlinks == d.unlinks || d'.unlinks == map[])
  }

  lemma {:induction false} CommitAppends(cfg: Config, db: Db, plan: Plan, fault: Fault)
    requires Segment(db.activeId) in db.disk.dir
    requires db.segmentCounter < COMPACTION_ID_BASE ==> Segment(db.segmentCounter) !in db.disk.dir
    ensures
      var o := Commit(cfg, db, plan, fault);
      !o.db.failed ==>
        && OnlyAppends(db.disk, o.db.disk, o.db.activeId)
        && (o.db.activeId == db.activeId || o.db.activeId == db.segmentCounter < COMPACTION_ID_BASE)
  {
    hide EncodeAll, ApplyAll;
  }

  lemma {:induction false} AppendsKeep(c: Codec, d: Disk, d': Disk, id: nat, inputs: set<nat>, left: set<nat>)
    requires OnlyAppends(d, d', id) && Ascends(d, inputs, left) && id !in inputs
    ensures Ascends(d', inputs, left) && KeepsFrom(c, Full(d), Full(d'), inputs)
  {
    forall x: nat, m: nat, q |
      x in inputs && x <= m < COMPACTION_ID_BASE && Segment(x) in Full(d').dir && InFile(c, Full(d), m, q)
      ensures InFile(c, Full(d'), m, q)
    {
      if Segment(m) in d.dir {
        PrefixFrames(c, d'.dir[Segment(m)], d.dir[Segment(m)]);
      }
    }
    hide FramesIn;
  }

  lemma {:induction false} CommitHolds(cfg: Config, s: Sys, plan: Plan, fault: Fault)
    requires cfg.codec.Lawful() && Sane(cfg.codec, s) && Writes(cfg.codec, s.db, plan)
    ensures Segment(s.db.activeId) in s.db.disk.dir
    ensures
      var o := Commit(cfg, s.db, plan, fault);
      o.ok ==> forall r :: r in plan.records ==> InFile(cfg.codec, o.db.disk, o.db.activeId, r)
  {
    hide Sane, RollOver, EncodeAll, ApplyAll, AllWritable, Consecutive, FramesIn;
    var c, rs := cfg.codec, plan.records;
    SameAgain(c, s, false);
    BatchInFile(c, s, rs);
    if s.db.activeSize + |EncodeAll(c, rs)| > cfg.maxSegmentSize {
      RollOverStates(c, s, fault, false);
      var rolled := RollOver(s.db, fault);
      if rolled.ok {
        BatchInFile(c, s.(db := rolled.db), rs);
      }
    }
  }

  lemma {:induction false} FlushGuarded(cfg: Config, s: Sys, s': Sys, clock: Clock, batch: seq<LogEntry>, fault: Fault)
    requires cfg.codec.Lawful() && Sane(cfg.codec, s) && OrderOk(cfg.codec, s) && s.phase.Unlinking?
    requires FlushStep(cfg, s, s', clock, batch, fault) && !s'.db.failed
    ensures Guarded(cfg.codec, Full(s'.db.disk), s'.phase.inputs, s'.view)
  {
    var c, plan := cfg.codec, PlanBatch(cfg, s.db, clock, batch);
    var d, d', inputs := Full(s.db.disk), Full(s'.db.disk), s.phase.inputs;
    PlanWrites(cfg, s.db, clock, batch);
    SegmentIsNew(c, s);
    CommitAppends(cfg, s.db, plan, fault);
    CommitHolds(cfg, s, plan, fault);
    PhaseIds(c, s, s'.db.activeId);
    hide Sane, PlanBatch, Commit, OnlyAppends, Ascends, Guarded, FramesIn, AllWritable, Fold, KeepsFrom;
    AppendsKeep(c, s.db.disk, s'.db.disk, s'.db.activeId, inputs, s.phase.left);
    var none: seq<Record> := [];
    var o := Commit(cfg, s.db, plan, fault);
    var rs := if o.ok then plan.records else none;
    NothingFolded(s.view);
    GuardedKept(c, d, d', inputs, s.view, s'.db.activeId, rs, s.db.nextSeq);
  }

  lemma {:induction false} NothingFolded(view: map<string, Record>)
    ensures Fold(view, []) == view
  {
  }

  lemma {:induction false} CommitFiles(cfg: Config, db: Db, plan: Plan, fault: Fault)
    requires Segment(db.activeId) in db.disk.dir
    ensures AddsAtMost(db.disk, Commit(cfg, db, plan, fault).db.disk, db.segmentCounter)
  {
    hide EncodeAll;
    var buf := EncodeAll(cfg.codec, plan.records);
    if db.activeSize + |buf| > cfg.maxSegmentSize {
      var rolled := RollOver(db, fault);
    }
  }

  /** Removals are left alone, or made durable, and at most segment `next` is new. */
  ghost predicate AddsAtMost(d: Disk, d': Disk, next: nat)
  {
    && (d'.unlinks == d.unlinks || d'.unlinks == map[])
    && (forall id: nat :: Segment(id) in d'.dir ==> Segment(id) in d.dir || id == next < COMPACTION_ID_BASE)
  }

  lemma {:induction false} UnlinkFullSame(c: Codec, s: Sys, s': Sys, id: nat)
    requires Sane(c, s) && UnlinkStep(s, s', id)
    ensures Full(s'.db.disk) == Full(s.db.disk)
  {
    hide SysOk, FramesOk, Durable, PendingOk;
    UnlinkFull(c, s, s', id);
  }

  lemma {:induction false} FlushOrderly(cfg: Config, s: Sys, s': Sys, clock: Clock, batch: seq<LogEntry>, fault: Fault)
    requires SysOk(cfg.codec, s) && Orderly(s) && FlushStep(cfg, s, s', clock, batch, fault)
    ensures Orderly(s') && s'.phase == s.phase
  {
    hide Commit, PlanBatch, AllWritable, Fold, Serves;
    CommitFiles(cfg, s.db, PlanBatch(cfg, s.db, clock, batch), fault);
  }

  /** As long as nothing fails on the way, removals go in order. */
  lemma {:induction false} StepOrderly(cfg: Config, s: Sys, s': Sys)
    requires cfg.codec.Lawful() && SysOk(cfg.codec, s) && Orderly(s)
    requires Next(cfg, s, s') && (!exists id :: UnlinkFailStep(s, s', id)) && !FinishFailStep(s, s')
    ensures Orderly(s')
  {
    var c := cfg.codec;
    hide SysOk, FlushStep, CopyStep, SwapAll;
    if clock, batch, fault :| FlushStep(cfg, s, s', clock, batch, fault) {
      FlushOrderly(cfg, s, s', clock, batch, fault);
    } else if order :| SwapStep(c, s, s', order) {
      AllLeft(s.db.disk, s.phase.inputs);
    } else if id :| UnlinkStep(s, s', id) {
      assert Orderly(s') by {
        InputIsNot(c, s, id);
      }
    } else if k :| CopyStep(c, s, s', k) {
      SameUnlinks(c, s, s', k);
    }
  }

  lemma {:induction false} AllLeft(d: Disk, inputs: set<nat>)
    requires d.unlinks == map[]
    ensures Ascends(d, inputs, inputs)
  {
  }

  lemma {:induction false} GuardedStep(cfg: Config, s: Sys, s': Sys)
    requires cfg.codec.Lawful() && Sane(cfg.codec, s) && ViewOk(cfg.codec, s) && OrderOk(cfg.codec, s) && !s'.db.failed
    requires Next(cfg, s, s') && (!exists id :: UnlinkFailStep(s, s', id)) && !FinishFailStep(s, s')
    ensures s'.phase.Unlinking? ==> Guarded(cfg.codec, Full(s'.db.disk), s'.phase.inputs, s'.view)
  {
    var c := cfg.codec;
    hide Sane, ViewOk, SwapStep, Guarded, CopyStep, Orderly, Full;
    if clock, batch, fault :| FlushStep(cfg, s, s', clock, batch, fault) {
      if s.phase.Unlinking? {
        FlushGuarded(cfg, s, s', clock, batch, fault);
      }
    } else if order :| SwapStep(c, s, s', order) {
      SwapOrder(c, s, s', order);
    } else if id :| UnlinkStep(s, s', id) {
      SaneHealthy(c, s);
      UnlinkFullSame(c, s, s', id);
    } else if k :| CopyStep(c, s, s', k) {
      SameUnlinks(c, s, s', k);
    }
  }

  // ---------- Whole runs ----------

  /** No removal, and no last directory sync, fails; and if the process dies, power is lost. */
  ghost predicate Removes(w: World, w': World)
  {
    && (w.Up? && w'.Up? ==> (!exists id :: UnlinkFailStep(w.sys, w'.sys, id)) && !FinishFailStep(w.sys, w'.sys))
    && (w'.Down? ==> Quiet(w'.disk))
  }

  ghost predicate WorldOrder(c: Codec, w: World)
  {
    WorldOk(c, w, true) && if w.Up? then OrderOk(c, w.sys) else Quiet(w.disk)
  }

  /** Opening a directory where nothing is pending leaves nothing pending. */
  lemma {:induction false} QuietOpening(c: Codec, w: World, w': World, ids: seq<nat>, now: int)
    requires c.Lawful() && WorldOk(c, w, true) && w.Down? && Quiet(w.disk) && OpenStep(c, w, w', ids, now) && w'.Up?
    ensures WorldOk(c, w', true) && Intact(c, w'.sys, true) && w'.sys.phase.NoCompaction? && w'.sys.db.disk.unlinks == map[]
  {
    hide Wreck, Relic, Intact, SysOk, HasTwin, Holding, Quiet, Create, DirSync;
    if w.disk == EMPTY_DISK {
      FirstOpening(c, w', ids, now);
      FirstListed(EMPTY_DISK, ids);
      FreshQuiet();
    } else {
      PendingIsNotQuiet();
      if !Wreck(c, w.disk) {
        QuietCrash(w.disk);
        RelicCrash(c, w.disk, w.disk, true);
      }
      WreckOpenKeeps(c, w.disk, w', ids, now);
      assert w'.sys.db.disk.unlinks == map[] by {
        var d0, next, active := WreckOpens(c, w.disk, ids, now);
        CutBackIs(c, d0, w.disk, active);
        QuietUnlinks(CutBack(d0, w.disk, active));
      }
    }
  }

  lemma {:induction false} FreshQuiet()
    ensures FRESH.disk.unlinks == map[]
  {
  }

  lemma {:induction false} PendingIsNotQuiet()
    ensures !Quiet(FRESH_FILE)
  {
    assert Segment(1) in FRESH_FILE.creates;
  }

  lemma {:induction false} QuietUnlinks(d: Disk)
    requires Quiet(d)
    ensures d.unlinks == map[] && WellFormed(d)
  {
  }

  lemma {:induction false} OnlyOpens(cfg: Config, w: World, w': World)
    requires Step(cfg, w, w') && w.Down? && w'.Up?
    ensures exists ids, now :: OpenStep(cfg.codec, w, w', ids, now)
  {
    hide FlushStep, OwnStep, OpenStep, Commit, PlanBatch, AllWritable, CrashOf, OpenPoints;
  }

  lemma {:induction false} UpOrder(cfg: Config, w: World, w': World)
    requires cfg.codec.Lawful() && WorldOrder(cfg.codec, w) && Step(cfg, w, w') && Removes(w, w') && w.Up? && w'.Up?
    ensures WorldOrder(cfg.codec, w')
  {
    hide SysOk, Intact, HasTwin, Guarded, UnlinkFailStep;
    var c, s, s' := cfg.codec, w.sys, w'.sys;
    assert
      && Next(cfg, w.sys, w'.sys)
      && ((exists clock, batch, fault :: CommitStep(cfg, w, w', clock, batch, fault)) || CompactionStep(cfg.codec, w, w')) by {
    }
    StepOrderly(cfg, s, s');
    assert LuckyFinish(c, s, s');
    if clock, batch, fault :| CommitStep(cfg, w, w', clock, batch, fault) {
      CommitKeeps(cfg, w, w', clock, batch, fault, true);
    } else {
      OwnKeeps(cfg, w, w', true);
    }
    if !s'.db.failed {
      assert !w.sys.db.failed by {
        if CompactionStep(cfg.codec, w, w') {
          OwnHealth(cfg.codec, w.sys, w'.sys);
        }
      }
      IntactParts(c, s);
      GuardedStep(cfg, s, s');
    }
  }

  lemma {:induction false} IntactParts(c: Codec, s: Sys)
    requires Intact(c, s, true)
    ensures Sane(c, s) && ViewOk(c, s)
  {
    hide Sane, ViewOk, LiveDurable;
  }

  lemma {:induction false} RunOrder(cfg: Config, ws: seq<World>, i: nat)
    requires cfg.codec.Lawful() && Lifetime(cfg, ws) && i < |ws|
    requires forall j :: 0 <= j < |ws| - 1 ==> Removes(ws[j], ws[j + 1])
    ensures WorldOrder(cfg.codec, ws[i])
  {
    if i > 0 {
      RunOrder(cfg, ws, i - 1);
      assert Step(cfg, ws[i - 1], ws[i - 1 + 1]) && Removes(ws[i - 1], ws[i - 1 + 1]);
      assert WorldOrder(cfg.codec, ws[i]) by {
        var c := cfg.codec;
        if ws[i].Down? {
          Weaker(c, ws[i - 1], false);
          StepStays(cfg, ws[i - 1], ws[i], false);
          QuietWhole(c, ws[i]);
        } else if ws[i - 1].Up? {
          UpOrder(cfg, ws[i - 1], ws[i]);
        } else {
          var ids, now :| OpenStep(c, ws[i - 1], ws[i], ids, now) by { OnlyOpens(cfg, ws[i - 1], ws[i]); }
          QuietOpening(c, ws[i - 1], ws[i], ids, now);
        }
      }
    }
  }

  // ---------- Removals that come back latest first ----------

  /** No lower normal input comes back without the higher ones. */
  ghost predicate LatestFirst(d: Disk, d': Disk)
  {
    forall j: nat, n: nat ::
      (j < COMPACTION_ID_BASE && n < COMPACTION_ID_BASE && Segment(j) in Full(d).dir && Segment(j) !in d'.dir && Segment(n) in d'.dir)
      ==> j < n
  }

  /** The frames of normal inputs are never the trouble. */
  lemma {:induction false} NormalGuarded(c: Codec, d: Disk, d': Disk, inputs: set<nat>, view: map<string, Record>, x: nat, g: Record)
    requires Loses(c, d, d', inputs) && Guarded(c, d, inputs, view)
    requires forall m: nat :: x <= m < COMPACTION_ID_BASE && Segment(m) in d.dir ==> Segment(m) in d'.dir
    requires x in inputs && x < COMPACTION_ID_BASE && InFile(c, d', x, g) && g.IsActive() && g.Compound() !in view
    ensures Shadowed(OnDisk(c, d'), g)
  {
    hide FramesIn, OnDiskExcept;
    assert InFile(c, d, x, g);
    var m: nat, q :| x <= m < COMPACTION_ID_BASE && InFile(c, d, m, q) && Older(g, q);
    assert InFile(c, d', m, q);
    OnDiskIff(c, d', {}, q);
  }

  /**
   * A power loss while inputs are being removed, none of the removals having failed, that brings removals back
   * latest first: the database is kept exactly when the compacted inputs found hold no deleted key's frame without a
   * newer frame of that key. While no input is a compacted segment, it is always kept.
   */
  lemma {:induction false} CompactedInputsDecide(c: Codec, s: Sys, d': Disk)
    requires Sane(c, s) && Complete(c, s) && OrderOk(c, s) && s.phase.Unlinking? && CrashOf(s.db.disk, d') && LatestFirst(s.db.disk, d')
    ensures Consistent(OnDisk(c, d'))
    ensures
      var compacted := set x | x in s.phase.inputs && x >= COMPACTION_ID_BASE;
      LiveView(OnDisk(c, d')) == s.view <==> InputsGuarded(c, d', compacted, s.view)
  {
    CrashViewExact(c, s, d');
    CrashLoses(c, s, d');
    DoomedInputs(c, s);
    CrashNeverNewer(c, s, d');
    hide Sane, Complete, CrashOf, Guarded, OnDiskExcept, LiveView, Consistent, Ascends, Loses, FramesIn, NoneNewer;
    forall x: nat, g | x in s.phase.inputs && x < COMPACTION_ID_BASE && InFile(c, d', x, g) && g.IsActive() && g.Compound() !in s.view
      ensures Shadowed(OnDisk(c, d'), g)
    {
      NormalGuarded(c, Full(s.db.disk), d', s.phase.inputs, s.view, x, g);
    }
    hide Shadowed;
  }

  lemma {:induction false} DoomedInputs(c: Codec, s: Sys)
    requires Sane(c, s) && s.phase.Unlinking?
    ensures Doomed(s.phase, s.db.disk) == s.phase.inputs
  {
    hide SysOk, Durable, DiskOk, PhaseFrames, PointsToFrames, Uppermost, Gone;
  }

  lemma {:induction false} CrashNeverNewer(c: Codec, s: Sys, d': Disk)
    requires Sane(c, s) && s.phase.Unlinking? && CrashOf(s.db.disk, d')
    ensures NoneNewer(c, d', s.phase.inputs, s.view)
  {
    hide CrashOf, Loses, LiveNotShadowed, NoneNewer, Doomed;
    CrashLoses(c, s, d');
    DoomedInputs(c, s);
    NeverNewer(c, Full(s.db.disk), d', s.phase.inputs, s.view);
  }

  /** Over whole runs in which no removal fails: as long as no input is a compacted segment, nothing is lost. */
  lemma {:induction false} NormalInputsSurvive(cfg: Config, ws: seq<World>, i: nat, d': Disk)
    requires cfg.codec.Lawful() && Lifetime(cfg, ws) && i < |ws| && forall j :: 0 <= j < |ws| - 1 ==> Removes(ws[j], ws[j + 1])
    requires ws[i].Up? && !ws[i].sys.db.failed && CrashOf(ws[i].sys.db.disk, d') && LatestFirst(ws[i].sys.db.disk, d')
    requires ws[i].sys.phase.Unlinking? ==> forall x :: x in ws[i].sys.phase.inputs ==> x < COMPACTION_ID_BASE
    ensures Consistent(OnDisk(cfg.codec, d')) && LiveView(OnDisk(cfg.codec, d')) == ws[i].sys.view
  {
    RunOrder(cfg, ws, i);
    var c, s := cfg.codec, ws[i].sys;
    hide Lifetime, Removes, Sane, Complete, CrashOf, LatestFirst, OnDiskExcept, LiveView, Consistent, SysOk, HasTwin, Guarded;
    if s.phase.Unlinking? {
      CompactedInputsDecide(c, s, d');
    } else {
      CrashViewPlain(c, s, d');
    }
  }
}
