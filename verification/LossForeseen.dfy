/**
 * Which states no power loss can harm: the condition of `CompactionCrash.CrashViewExact` on what is found after the
 * loss, turned into one on the disk before it.
 */
module LossForeseen {
  import opened Bytes
  import opened Types
  import opened Frames
  import opened LogMerge
  import opened Disk
  import opened Flusher
  import opened DiskView
  import opened FrameSets
  import opened Compaction
  import opened CompactionFrames
  import opened Survival
  import opened CompactionSteps
  import opened CompactionCrash

  /** What may be found of segment `x`, if it is found. */
  ghost predicate MayBe(d: Disk, x: nat, file: bytes)
  {
    var p := Segment(x);
    if p in d.dir then p in d.durable && d.durable[p] <= |file| && file <= d.dir[p] else p in d.unlinks && file == d.unlinks[p]
  }

  /** `q` is found after every power loss, in segment `y`. */
  ghost predicate Certain(c: Codec, d: Disk, y: nat, q: Record)
  {
    var p := Segment(y);
    p in d.dir && p !in d.creates && p in d.durable && d.durable[p] <= |d.dir[p]| && q in FramesIn(c, d.dir[p][..d.durable[p]])
  }

  /** A newer frame of the same key is in `file`, or certain to be found. */
  ghost predicate Outdone(c: Codec, d: Disk, file: bytes, g: Record)
  {
    || (exists q :: q in FramesIn(c, file) && Older(g, q))
    || (exists y: nat, q :: Certain(c, d, y, q) && Older(g, q))
  }

  /**
   * Each deleted key's active frame in a segment that is going away is outdone by one that comes back with it or is
   * certain to be found, and no frame of such a segment is newer than a live record of its key.
   */
  ghost predicate OutOfDanger(c: Codec, d: Disk, doomed: set<nat>, view: map<string, Record>)
  {
    && NoneNewer(c, Full(d), doomed, view)
    && forall x: nat, file, g :: x in doomed && MayBe(d, x, file) && g in FramesIn(c, file) && g.IsActive() && g.Compound() !in view ==>
         Outdone(c, d, file, g)
  }

  // ---------- The least that is found ----------

  /** Of segment `x` there is `file`; of everything else only what is durable. */
  function Least(d: Disk, x: nat, file: bytes): Disk
  {
    var dir := map p | p in d.dir.Keys + {Segment(x)} && (p == Segment(x) || p !in d.creates) ::
      if p == Segment(x) then file else if p in d.dir && p in d.durable && d.durable[p] <= |d.dir[p]| then d.dir[p][..d.durable[p]] else [];
    Disk(dir, map p | p in dir :: |dir[p]|, {}, map[])
  }

  // ---------- Both directions ----------

  lemma {:induction false} DangerReal(c: Codec, s: Sys) returns (d': Disk)
    requires Sane(c, s) && !OutOfDanger(c, s.db.disk, Doomed(s.phase, s.db.disk), s.view)
    ensures CrashOf(s.db.disk, d') && !Survives(c, Doomed(s.phase, s.db.disk), d', s.view)
  {
    hide CrashOf, Doomed, Outdone, MayBe, NoneNewer, Survives, FramesIn;
    var d, doomed, view := s.db.disk, Doomed(s.phase, s.db.disk), s.view;
    if !NoneNewer(c, Full(d), doomed, view) {
      d' := NewerReal(c, d, doomed, view);
    } else {
      var x: nat, file, g :| x in doomed && MayBe(d, x, file) && g in FramesIn(c, file) && g.IsActive() && g.Compound() !in view && !Outdone(c, d, file, g);
      d' := UndoneReal(c, d, doomed, view, x, file, g);
    }
  }

  lemma {:induction false} NewerReal(c: Codec, d: Disk, doomed: set<nat>, view: map<string, Record>) returns (d': Disk)
    requires WellFormed(d) && (forall p :: p in d.unlinks ==> p !in d.dir) && !NoneNewer(c, Full(d), doomed, view)
    ensures CrashOf(d, d') && !Survives(c, doomed, d', view)
  {
    hide FramesIn, OnDiskExcept, InputsGuarded;
    var x: nat, g :| x in doomed && InFile(c, Full(d), x, g) && g.Compound() in view && g.seqId > view[g.Compound()].seqId;
    var file := Full(d).dir[Segment(x)];
    d' := Least(d, x, file);
    assert CrashOf(d, Least(d, x, file));
    assert InFile(c, d', x, g);
  }

  lemma {:induction false} UndoneReal(c: Codec, d: Disk, doomed: set<nat>, view: map<string, Record>, x: nat, file: bytes, g: Record) returns (d': Disk)
    requires WellFormed(d) && x in doomed && MayBe(d, x, file)
    requires g in FramesIn(c, file) && g.IsActive() && g.Compound() !in view && !Outdone(c, d, file, g)
    ensures CrashOf(d, d') && !Survives(c, doomed, d', view)
  {
    hide FramesIn, OnDiskExcept, NoneNewer;
    d' := Least(d, x, file);
    assert InFile(c, Least(d, x, file), x, g) && !Shadowed(OnDisk(c, Least(d, x, file)), g) by {
      assert forall q :: q in FramesIn(c, file) ==> InFile(c, Least(d, x, file), x, q);
      assert forall y: nat, q :: InFile(c, Least(d, x, file), y, q) ==> (y == x && q in FramesIn(c, file)) || Certain(c, d, y, q);
      var d' := Least(d, x, file);
      forall q | q in OnDisk(c, d')
        ensures !Older(g, q)
      {
        OnDiskIff(c, d', {}, q);
      }
    }
  }

  /** Between two steps no power loss harms the database exactly when its disk is out of danger. */
  lemma {:induction false} AlwaysKeptExact(c: Codec, s: Sys)
    requires Sane(c, s) && Complete(c, s)
    ensures (forall d' :: CrashOf(s.db.disk, d') ==> Consistent(OnDisk(c, d')) && LiveView(OnDisk(c, d')) == s.view)
      <==> OutOfDanger(c, s.db.disk, Doomed(s.phase, s.db.disk), s.view)
  {
    hide Sane, OnDiskExcept, LiveView, Consistent, Doomed;
    if OutOfDanger(c, s.db.disk, Doomed(s.phase, s.db.disk), s.view) {
      forall d' | CrashOf(s.db.disk, d')
        ensures Consistent(OnDisk(c, d')) && LiveView(OnDisk(c, d')) == s.view
      {
        CrashViewExact(c, s, d');
        assert Survives(c, Doomed(s.phase, s.db.disk), d', s.view) by {
          var d, doomed, view := s.db.disk, Doomed(s.phase, s.db.disk), s.view;
          CrashLoses(c, s, d');
          forall x: nat, g | x in doomed && InFile(c, d', x, g) && g.IsActive() && g.Compound() !in view
            ensures Shadowed(OnDisk(c, d'), g)
          {
            var file := d'.dir[Segment(x)];
            assert MayBe(d, x, d'.dir[Segment(x)]);
            assert Outdone(c, d, file, g);
            if q :| q in FramesIn(c, file) && Older(g, q) {
              assert InFile(c, d', x, q);
              OnDiskIff(c, d', {}, q);
            } else {
              var y: nat, q :| Certain(c, d, y, q) && Older(g, q);
              assert q in OnDisk(c, d') by {
                var p := Segment(y);
                assert p in d'.dir && d.dir[p][..d.durable[p]] <= d'.dir[p];
                PrefixFrames(c, d'.dir[p], d.dir[p][..d.durable[p]]);
                assert InFile(c, d', y, q);
                OnDiskIff(c, d', {}, q);
              }
            }
          }
        }
      }
    } else {
      var d' := DangerReal(c, s);
      CrashViewExact(c, s, d');
    }
  }
}
