/**
 * The condition on compaction's inputs is not idle: a deleted key comes back when a compacted segment outlives its
 * tombstone, even though the removals were made in order and none was undone.
 */
module OutlivedTombstone {
  import opened Wrappers
  import opened Bytes
  import opened Types
  import opened Frames
  import opened Index
  import opened LogMerge
  import opened Disk
  import opened FlushIndex
  import opened Flusher
  import opened Recovery
  import opened ShelfReplay
  import opened OpenAfterCrash
  import opened DiskView
  import opened FrameSets
  import opened Compaction
  import opened CompactionFrames
  import opened Survival
  import opened CompactionSteps
  import opened CompactionCrash
  import opened Reopen
  import opened Restart
  import opened Outages
  import opened RemovalOrder

  /** Key written, compacted into segment `BASE`, then deleted in segment 5; segment 6 is active. */
  function Stage(c: Codec, g: Record, t: Record): Disk
  {
    var dir := map[Segment(5) := EncodeFrame(c, t), Segment(6) := [], Segment(COMPACTION_ID_BASE) := EncodeFrame(c, g)];
    Disk(dir, map p | p in dir :: |dir[p]|, {}, map[])
  }

  function Engine(d: Disk, compactionCounter: nat): Db
  {
    Db(d, EMPTY_INDEX, 3, 6, 0, true, false, 7, compactionCounter)
  }

  ghost predicate WriteThenDelete(c: Codec, g: Record, t: Record)
  {
    && c.Lawful() && Writable(c, g) && Writable(c, t)
    && g.seqId == 1 && t.seqId == 2 && g.Compound() == t.Compound() && g.IsActive() && t.IsTombstone()
  }

  lemma {:induction false} LoneFrame(c: Codec, r: Record)
    requires c.Lawful() && Writable(c, r)
    ensures Clean(c, EncodeFrame(c, r)) && FramesIn(c, EncodeFrame(c, r)) == {r}
  {
    hide EncodeFrame, Writable;
    EmptyFile(c);
    OneFrame(c, [], r);
    assert [] + EncodeFrame(c, r) == EncodeFrame(c, r);
    assert SetOf([r]) == {r};
  }

  lemma {:induction false} StageFrames(c: Codec, g: Record, t: Record)
    requires WriteThenDelete(c, g, t)
    ensures
      var d := Stage(c, g, t);
      && (forall id: nat, r :: InFile(c, d, id, r) <==> (id == 5 && r == t) || (id == COMPACTION_ID_BASE && r == g))
      && Tidy(c, d) && Quiet(d)
  {
    hide EncodeFrame, Writable;
    LoneFrame(c, g);
    LoneFrame(c, t);
    EmptyFile(c);
    hide FramesIn, Clean;
    var d := Stage(c, g, t);
    assert forall id: nat :: Segment(id) in d.dir <==> id == 5 || id == 6 || id == COMPACTION_ID_BASE;
    assert TailTorn(c, EncodeFrame(c, g)) by { CleanIsTorn(c, EncodeFrame(c, g)); }
  }

  lemma {:induction false} CleanIsTorn(c: Codec, file: bytes)
    requires Clean(c, file)
    ensures TailTorn(c, file)
  {
  }

  /** The staged directory is in order, and its database is empty: the newest frame is the tombstone. */
  lemma {:induction false} StageOk(c: Codec, g: Record, t: Record)
    requires WriteThenDelete(c, g, t)
    ensures
      var s := Sys(Engine(Stage(c, g, t), COMPACTION_ID_BASE + 1), map[], NoCompaction);
      Keeps(c, s) && Complete(c, s)
  {
    hide Quiet, Still, OnDiskExcept, LiveView, Consistent, Represents, Accounted, Reads, FreshSeq, InFile, Writable, Tidy, Runnable, Complete;
    var d, db := Stage(c, g, t), Engine(Stage(c, g, t), COMPACTION_ID_BASE + 1);
    StageFrames(c, g, t);
    assert DiskOk(c, Stage(c, g, t), 3, 6, {5, COMPACTION_ID_BASE}) by {
      StageFrames(c, g, t);
    }
    assert
      var s := OnDisk(c, Stage(c, g, t));
      Consistent(s) && LiveView(s) == map[] && forall r :: r in s ==> r.seqId <= 2 by {
      StageFrames(c, g, t);
      assert OnDisk(c, Stage(c, g, t)) == {g, t} by {
        assert InFile(c, Stage(c, g, t), 5, t) && InFile(c, Stage(c, g, t), COMPACTION_ID_BASE, g);
        forall r
          ensures r in OnDisk(c, Stage(c, g, t)) <==> r in {g, t}
        {
          OnDiskIff(c, Stage(c, g, t), {}, r);
        }
      }
      PairView(g, t);
    }
    StageIds(c, g, t);
    EmptyIndex(c, d);
    QuietStill(d);
    StillRunnable(c, d, 3, 6, 2);
    OpenedSane(c, db, map[]);
    StillComplete(c, Sys(db, map[], NoCompaction));
  }

  lemma {:induction false} PairView(g: Record, t: Record)
    requires g.Compound() == t.Compound() && g.seqId < t.seqId && g.IsActive() && t.IsTombstone()
    ensures Consistent({g, t}) && LiveView({g, t}) == map[]
    ensures Consistent({g}) && g.Compound() in LiveView({g}) && LiveView({g})[g.Compound()] == g
  {
    assert IsTop({g}, g);
    assert forall r :: IsTop({g, t}, r) ==> r == t;
  }

  /** Compaction had nothing to copy, and has removed segment 5 but not the compacted input. */
  function Stopped(c: Codec, g: Record, t: Record): Sys
  {
    var out := Segment(COMPACTION_ID_BASE + 1);
    var sealed := DirSync(Sync(Create(Stage(c, g, t), out), out));
    Sys(Engine(Unlink(sealed, Segment(5)), COMPACTION_ID_BASE + 2), map[], Unlinking({5, COMPACTION_ID_BASE}, {COMPACTION_ID_BASE}))
  }

  /**
   * From that directory, compaction with nothing live to copy goes through listing, sealing, swap and one removal,
   * in states that satisfy the whole invariant; then the process dies, and the deleted key is live again, whether or
   * not power is lost, and although nothing that was removed comes back.
   */
  lemma {:induction false} DeletedKeyReturns(c: Codec, g: Record, t: Record)
    requires WriteThenDelete(c, g, t)
    ensures
      var s := Stopped(c, g, t);
      var d := s.db.disk;
      && Keeps(c, s) && Complete(c, s) && s.view == map[]
      && Consistent(OnDisk(c, d)) && g.Compound() in LiveView(OnDisk(c, d)) && !Survives(c, Doomed(s.phase, d), d, s.view)
      && exists d' :: CrashOf(d, d') && LatestFirst(d, d') && !Survives(c, Doomed(s.phase, d), d', s.view)
           && Consistent(OnDisk(c, d')) && g.Compound() in LiveView(OnDisk(c, d'))
  {
    // The stopped state is reached by steps that keep the invariant.
    assert Keeps(c, Stopped(c, g, t)) && Complete(c, Stopped(c, g, t)) && !Stopped(c, g, t).db.failed by {
      StageOk(c, g, t);
      StageIds(c, g, t);
      assert Keeps(c, Stopped(c, g, t)) && Complete(c, Stopped(c, g, t)) by {
        var cfg := Config(c, 0, 0);
        var inputs: set<nat> := {5, COMPACTION_ID_BASE};
        var out := COMPACTION_ID_BASE + 1;
        var d1 := Create(Stage(c, g, t), Segment(out));
        var d2 := DirSync(Sync(d1, Segment(out)));
        var s0 := Sys(Engine(Stage(c, g, t), out), map[], NoCompaction);
        var s1 := Sys(Engine(Stage(c, g, t), out), map[], Walking(6, inputs, {}, map[]));
        var s2 := Sys(Engine(d1, out + 1), map[], Copying(inputs, out, map[], map[]));
        var s3 := Sys(Engine(d2, out + 1), map[], Sealed(inputs, out, map[]));
        var s4 := Sys(Engine(d2, out + 1), map[], Unlinking(inputs, inputs));
        FirstSteps(s0, s1, s2, s3);
        LastSteps(c, s3, s4, Stopped(c, g, t));
        OneStep(cfg, s0, s1);
        OneStep(cfg, s1, s2);
        OneStep(cfg, s2, s3);
        OneStep(cfg, s3, s4);
        OneStep(cfg, s4, Stopped(c, g, t));
      }
    }
    StoppedFrames(c, g, t);
    StoppedCrash(c, g, t);
    hide Keeps, Complete, InFile, OnDiskExcept, LiveView, Consistent, Stopped, CrashOf, LatestFirst, Survives, WriteThenDelete;
    var s := Stopped(c, g, t);
    KeyIsBack(c, s, s.db.disk, g);
    KeyIsBack(c, s, s.db.disk.(unlinks := map[]), g);
  }

  lemma {:induction false} KeyIsBack(c: Codec, s: Sys, d': Disk, g: Record)
    requires s.phase.Unlinking? && COMPACTION_ID_BASE in s.phase.inputs && s.view == map[] && g.IsActive()
    requires forall id: nat, r :: InFile(c, d', id, r) <==> id == COMPACTION_ID_BASE && r == g
    ensures !Survives(c, Doomed(s.phase, s.db.disk), d', s.view)
    ensures Consistent(OnDisk(c, d')) && g.Compound() in LiveView(OnDisk(c, d'))
  {
    hide InFile, OnDiskExcept, Gone;
    assert InFile(c, d', COMPACTION_ID_BASE, g);
    forall r
      ensures r in OnDisk(c, d') <==> r in {g}
    {
      OnDiskIff(c, d', {}, r);
    }
    assert OnDisk(c, d') == {g};
    assert IsTop({g}, g);
    assert !Shadowed({g}, g);
    assert COMPACTION_ID_BASE in Doomed(s.phase, s.db.disk);
  }

  lemma {:induction false} StoppedFrames(c: Codec, g: Record, t: Record)
    requires WriteThenDelete(c, g, t)
    ensures
      var d := Stopped(c, g, t).db.disk;
      forall id: nat, r ::
        && (InFile(c, d, id, r) <==> id == COMPACTION_ID_BASE && r == g)
        && (InFile(c, d.(unlinks := map[]), id, r) <==> id == COMPACTION_ID_BASE && r == g)
  {
    hide EncodeFrame, Writable;
    LoneFrame(c, g);
    EmptyFile(c);
    hide FramesIn, Clean;
  }

  lemma {:induction false} StoppedCrash(c: Codec, g: Record, t: Record)
    ensures
      var d := Stopped(c, g, t).db.disk;
      CrashOf(d, d.(unlinks := map[])) && LatestFirst(d, d.(unlinks := map[]))
  {
    hide EncodeFrame;
    var d := Stopped(c, g, t).db.disk;
    assert forall p :: p in d.dir ==> d.durable[p] == |d.dir[p]|;
    assert forall p :: p in d.unlinks ==> p == Segment(5);
    assert d.creates == {} && d.durable.Keys == d.dir.Keys;
    hide Stopped;
    assert CrashOf(d, d.(unlinks := map[])) && LatestFirst(d, d.(unlinks := map[]));
  }

  lemma {:induction false} FirstSteps(s0: Sys, s1: Sys, s2: Sys, s3: Sys)
    requires
      var inputs: set<nat> := {5, COMPACTION_ID_BASE};
      var out := COMPACTION_ID_BASE + 1;
      var d0 := s0.db.disk;
      var d1 := Create(d0, Segment(out));
      && SegmentIds(d0) - {6} == inputs && Segment(out) !in d0.dir
      && s0 == Sys(Engine(d0, out), map[], NoCompaction)
      && s1 == Sys(Engine(d0, out), map[], Walking(6, inputs, {}, map[]))
      && s2 == Sys(Engine(d1, out + 1), map[], Copying(inputs, out, map[], map[]))
      && s3 == Sys(Engine(DirSync(Sync(d1, Segment(out))), out + 1), map[], Sealed(inputs, out, map[]))
    ensures BeginStep(s0, s1) && CreateStep(s1, s2) && SealStep(s2, s3)
  {
    hide SegmentIds;
  }

  lemma {:induction false} LastSteps(c: Codec, s3: Sys, s4: Sys, s: Sys)
    requires
      var inputs: set<nat> := {5, COMPACTION_ID_BASE};
      var out, d2 := COMPACTION_ID_BASE + 1, s3.db.disk;
      && Segment(5) in d2.dir
      && s3 == Sys(Engine(d2, out + 1), map[], Sealed(inputs, out, map[]))
      && s4 == Sys(Engine(d2, out + 1), map[], Unlinking(inputs, inputs))
      && s == Sys(Engine(Unlink(d2, Segment(5)), out + 1), map[], Unlinking(inputs, {COMPACTION_ID_BASE}))
    ensures SwapStep(c, s3, s4, []) && UnlinkStep(s4, s, 5)
  {
    hide Unlink;
    assert {5, COMPACTION_ID_BASE} - {5} == {COMPACTION_ID_BASE};
  }

  lemma {:induction false} StageIds(c: Codec, g: Record, t: Record)
    ensures SegmentIds(Stage(c, g, t)) - {6} == {5, COMPACTION_ID_BASE}
    ensures Segment(5) in Stage(c, g, t).dir && Segment(COMPACTION_ID_BASE + 1) !in Stage(c, g, t).dir
  {
    hide EncodeFrame;
    var d := Stage(c, g, t);
    forall id: nat
      ensures id in SegmentIds(d) <==> id == 5 || id == 6 || id == COMPACTION_ID_BASE
    {
      SegmentIdsIff(d, id);
    }
  }

  lemma {:induction false} OneStep(cfg: Config, s: Sys, s': Sys)
    requires cfg.codec.Lawful() && Keeps(cfg.codec, s) && Complete(cfg.codec, s)
    requires
      || BeginStep(s, s') || CreateStep(s, s') || SealStep(s, s')
      || (exists order :: SwapStep(cfg.codec, s, s', order)) || (exists id :: UnlinkStep(s, s', id))
    ensures Keeps(cfg.codec, s') && Complete(cfg.codec, s')
  {
    hide Keeps, Complete;
    StepKeeps(cfg, s, s');
  }
}
