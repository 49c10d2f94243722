/**
 * Why each part of `Restart.SafeToRun` is needed: whatever else an engine's directory holds, where that part fails a
 * power loss takes, or outranks, what the engine serves or acknowledges next.
 */
module UnsafeToRun {
  import opened Bytes
  import opened Types
  import opened Frames
  import opened LogMerge
  import opened Disk
  import opened GroupCommit
  import opened FlushIndex
  import opened Flusher
  import opened DiskView
  import opened FrameSets
  import CrashSafety

  // ---------- A pending removal comes back ----------

  /** Everything is found, and the removal of segment `x` is undone. */
  function WithBack(d: Disk, x: nat): Disk
    requires Segment(x) in d.unlinks
  {
    var dir := d.dir[Segment(x) := d.unlinks[Segment(x)]];
    Disk(dir, map p | p in dir :: |dir[p]|, {}, map[])
  }

  /**
   * Whatever else the directory holds: a commit that is live afterwards, acknowledged and durable, is not what is found
   * if a pending removal holds another frame of its key that is not older, and the power loss brings that back.
   */
  lemma {:induction false} ReturnedFrameWins(cfg: Config, db: Db, view: map<string, Record>, plan: Plan, x: nat, g: Record, r: Record)
    requires WellFormed(db.disk) && Segment(db.activeId) in db.disk.dir && db.fileOpen
    requires db.activeSize + |EncodeAll(cfg.codec, plan.records)| <= cfg.maxSegmentSize
    requires Segment(x) in db.disk.unlinks && Segment(x) !in db.disk.dir && g in FramesIn(cfg.codec, db.disk.unlinks[Segment(x)])
    requires r.Compound() in Fold(view, plan.records) && Fold(view, plan.records)[r.Compound()] == r
    requires g.Compound() == r.Compound() && r.seqId <= g.seqId && g != r
    ensures
      var c, o := cfg.codec, Commit(cfg, db, plan, NoFault);
      o.ok && exists d' :: CrashOf(o.db.disk, d') && !(Consistent(OnDisk(c, d')) && LiveView(OnDisk(c, d')) == Fold(view, plan.records))
  {
    hide EncodeAll, OnDiskExcept, LiveView, FramesIn, Fold;
    var c, o := cfg.codec, Commit(cfg, db, plan, NoFault);
    assert g in OnDisk(c, WithBack(o.db.disk, x)) by {
      assert InFile(c, WithBack(o.db.disk, x), x, g);
      OnDiskIff(c, WithBack(o.db.disk, x), {}, g);
    }
    var d' := WithBack(o.db.disk, x);
    if Consistent(OnDisk(c, d')) && LiveView(OnDisk(c, d')) == Fold(view, plan.records) {
      LiveViewSound(OnDisk(c, d'));
      assert false;
    }
  }

  // ---------- A pending segment vanishes ----------

  lemma {:induction false} NowhereElse(c: Codec, d: Disk, d': Disk, r: Record)
    requires forall id: nat :: Segment(id) in d'.dir ==> Segment(id) in d.dir && d'.dir[Segment(id)] == d.dir[Segment(id)]
    requires forall id: nat :: Segment(id) in d'.dir ==> !InFile(c, d, id, r)
    ensures r !in OnDisk(c, d')
  {
    hide FramesIn, OnDiskExcept;
    OnDiskIff(c, d', {}, r);
    assert forall id: nat :: Segment(id) in d'.dir ==> (InFile(c, d', id, r) <==> InFile(c, d, id, r));
  }

  /**
   * Whatever else the directory holds: a record that is acknowledged and durable in a segment whose directory entry is
   * pending, and is nowhere else, is lost with the segment.
   */
  lemma {:induction false} PendingSegmentLost(cfg: Config, db: Db, plan: Plan, r: Record)
    requires WellFormed(db.disk) && Segment(db.activeId) in db.disk.creates && db.fileOpen
    requires db.activeSize + |EncodeAll(cfg.codec, plan.records)| <= cfg.maxSegmentSize
    requires r in plan.records && forall id: nat :: id != db.activeId ==> !InFile(cfg.codec, db.disk, id, r)
    ensures Segment(db.activeId) in db.disk.dir
    ensures
      var o := Commit(cfg, db, plan, NoFault);
      o.ok && exists d' :: CrashOf(o.db.disk, d') && r !in OnDisk(cfg.codec, d')
  {
    hide EncodeAll, OnDiskExcept, InFile;
    var o, p := Commit(cfg, db, plan, NoFault), Segment(db.activeId);
    NowhereElse(cfg.codec, db.disk, CrashSafety.WithoutActive(o.db), r);
  }

  // ---------- An unsynced tail is cut ----------

  /** Segment `x` is found cut to what is durable of it, everything else whole. */
  function CutToDurable(d: Disk, x: nat): Disk
    requires Segment(x) in d.dir && Segment(x) in d.durable && d.durable[Segment(x)] <= |d.dir[Segment(x)]|
  {
    var dir := d.dir[Segment(x) := d.dir[Segment(x)][..d.durable[Segment(x)]]];
    Disk(dir, map p | p in dir :: |dir[p]|, {}, map[])
  }

  /** Whatever else the directory holds: a record found in the active segment behind what is durable, and nowhere else, may be lost. */
  lemma {:induction false} UnsyncedTailLost(c: Codec, db: Db, r: Record)
    requires WellFormed(db.disk) && Segment(db.activeId) in db.disk.dir
    requires forall id: nat :: id != db.activeId ==> !InFile(c, db.disk, id, r)
    requires
      var p := Segment(db.activeId);
      p in db.disk.durable && db.disk.durable[p] <= |db.disk.dir[p]| && r !in FramesIn(c, db.disk.dir[p][..db.disk.durable[p]])
    ensures exists d' :: CrashOf(db.disk, d') && r !in OnDisk(c, d')
  {
    hide FramesIn, OnDiskExcept;
    var d, d' := db.disk, CutToDurable(db.disk, db.activeId);
    assert CrashOf(d, d');
    OnDiskIff(c, d', {}, r);
    assert forall id: nat :: id != db.activeId ==> (InFile(c, d', id, r) <==> InFile(c, d, id, r));
  }
}
