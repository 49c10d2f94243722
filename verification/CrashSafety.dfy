/**
 * Whole runs without compaction: any sequence of opens, group commits that succeed or fail anywhere, kills and
 * power losses at any point of either. The main theorem is `RunsAreSafe`: as long as no engine is opened on an
 * active segment whose directory entry is still pending, every acknowledged write stays on disk and is served.
 * `AckedWritesSurviveExactly` says that this condition is exact, and `AcknowledgedWriteLost` gives a run.
 */
module CrashSafety {
  import opened Wrappers
  import opened Bytes
  import opened Types
  import opened Frames
  import opened Index
  import opened LogMerge
  import opened Disk
  import opened GroupCommit
  import opened FlushIndex
  import opened Flusher
  import opened Recovery
  import opened Shelves
  import opened ShelfReplay
  import opened OpenAfterCrash
  import opened CommitSafety
  import opened DiskView

  /**
   * The disk, the engine if one is running, every record a client was told is committed together with those found
   * durable when the database was opened (`acked`, in order), and what may follow them on disk: the batch whose fate
   * is not known, or the part of it that an engine has found and serves.
   */
  datatype World = World(disk: Disk, engine: Option<Db>, acked: seq<Record>, inflight: seq<Record>)

  /** A fresh data directory. */
  ghost predicate Init(w: World)
  {
    w == World(EMPTY_DISK, None, [], [])
  }

  /** The active segment is durable to its end. */
  predicate DurableToEnd(db: Db)
  {
    var p := Segment(db.activeId);
    p in db.disk.dir && p in db.disk.durable && db.disk.durable[p] == |db.disk.dir[p]|
  }

  ghost function Started(w: World, db: Db, n: nat): World
    requires n <= |w.inflight|
  {
    if DurableToEnd(db) then World(db.disk, Some(db), w.acked + w.inflight[..n], [])
    else World(db.disk, Some(db), w.acked, w.inflight[..n])
  }

  /** Recovery in Default mode: it refuses and the process exits, or an engine runs on the `n` records it found. */
  ghost predicate OpenStep(c: Codec, w: World, w': World, now: int, ids: seq<nat>)
  {
    && w.engine.None? && Listing(w.disk, ids)
    && match Open(c, Default, now, w.disk, ids)
       case Refused(disk, _) => w' == w.(disk := disk)
       case Running(db) => exists n: nat :: n <= |w.inflight| && db.nextSeq == |w.acked| + n + 1 && w' == Started(w, db, n)
  }

  /** The process is killed, or power is lost, inside recovery. */
  ghost predicate CrashInOpen(c: Codec, w: World, w': World, now: int, ids: seq<nat>, i: nat)
  {
    && w.engine.None? && Listing(w.disk, ids)
    && var points := OpenPoints(c, Default, now, w.disk, ids);
       i < |points| && Outage(points[i], w'.disk) && w' == w.(disk := w'.disk)
  }

  /** One group commit, run to its end; a failed engine takes no more batches. */
  ghost predicate FlushStep(cfg: Config, w: World, w': World, clock: Clock, batch: seq<LogEntry>, fault: Fault)
  {
    && w.engine.Some? && !w.engine.value.failed
    && var db := w.engine.value;
       var plan := PlanBatch(cfg, db, clock, batch);
       && Segment(db.activeId) in db.disk.dir
       && AllWritable(cfg.codec, plan.records)
       && var o := Commit(cfg, db, plan, fault);
          w' == if o.ok then World(o.db.disk, Some(o.db), w.acked + (w.inflight + plan.records), [])
                else World(o.db.disk, Some(o.db), w.acked, if o.db.failed then w.inflight + plan.records else w.inflight)
  }

  /** The process is killed, or power is lost, inside a group commit. */
  ghost predicate CrashInFlush(cfg: Config, w: World, w': World, clock: Clock, batch: seq<LogEntry>, fault: Fault, i: nat)
  {
    && w.engine.Some? && !w.engine.value.failed
    && var db := w.engine.value;
       var plan := PlanBatch(cfg, db, clock, batch);
       && Segment(db.activeId) in db.disk.dir
       && AllWritable(cfg.codec, plan.records)
       && var o := Commit(cfg, db, plan, fault);
          && i < |o.trace|
          && Outage(o.trace[i], w'.disk)
          && w' == World(w'.disk, None, w.acked, w.inflight + plan.records)
  }

  /** The process is killed, or power is lost, at any other time. */
  ghost predicate CrashStep(w: World, w': World)
  {
    Outage(w.disk, w'.disk) && w' == World(w'.disk, None, w.acked, w.inflight)
  }

  ghost predicate Next(cfg: Config, w: World, w': World)
  {
    || (exists now, ids :: OpenStep(cfg.codec, w, w', now, ids))
    || (exists now, ids, i :: CrashInOpen(cfg.codec, w, w', now, ids, i))
    || (exists clock, batch, fault :: FlushStep(cfg, w, w', clock, batch, fault))
    || (exists clock, batch, fault, i :: CrashInFlush(cfg, w, w', clock, batch, fault, i))
    || CrashStep(w, w')
  }

  /**
   * Safety of one moment. A healthy engine serves exactly `acked` and `inflight`, every record read back from disk
   * through the index, and `acked` is durable; otherwise the disk still holds all of `acked`.
   */
  ghost predicate Safe(c: Codec, w: World)
  {
    && (w.engine.Some? ==> w.disk == w.engine.value.disk)
    && if w.engine.Some? && !w.engine.value.failed then Serving(c, w.engine.value, w.acked, w.inflight)
       else Recoverable(c, w.disk, w.acked, w.inflight)
  }

  // ---------- Each step keeps it ----------

  lemma {:induction false} InitSafe(c: Codec, w: World)
    requires Init(w)
    ensures Safe(c, w)
  {
    assert Shelved(c, EMPTY_DISK, [], [], 0);
    assert History([]) + [] <= [] + [];
  }

  lemma {:induction false} AscendingUnique(a: seq<nat>, b: seq<nat>)
    requires forall i, j :: 0 <= i < j < |a| ==> a[i] < a[j]
    requires forall i, j :: 0 <= i < j < |b| ==> b[i] < b[j]
    requires forall x :: x in a <==> x in b
    ensures a == b
    decreases |a|
  {
    assert a == [] <==> b == [] by {
      assert a == [] || a[0] in a;
      assert b == [] || b[0] in b;
    }
    if a != [] {
      assert a[|a| - 1] == b[|b| - 1] by {
        assert a[|a| - 1] in a && b[|b| - 1] in b;
      }
      var a', b' := a[..|a| - 1], b[..|b| - 1];
      forall z
        ensures z in a' <==> z in b'
      {
        assert z in a[..|a| - 1] <==> z in a && z != a[|a| - 1];
        assert z in b[..|b| - 1] <==> z in b && z != b[|b| - 1];
      }
      AscendingUnique(a', b');
      assert a == a' + [a[|a| - 1]] && b == b' + [b[|b| - 1]];
    }
  }

  lemma {:induction false} RecoverableWitness(c: Codec, d: Disk, h: seq<Record>, inflight: seq<Record>) returns (ss: seq<Shelf>, extra: seq<Record>, t: nat)
    requires Recoverable(c, d, h, inflight)
    ensures Shelved(c, d, ss, extra, t) && h <= History(ss) && History(ss) + extra <= h + inflight
  {
    hide Shelved;
    ss, extra, t :| Shelved(c, d, ss, extra, t) && h <= History(ss) && History(ss) + extra <= h + inflight;
  }

  lemma {:induction false} ListingOfShelved(c: Codec, d: Disk, ss: seq<Shelf>, extra: seq<Record>, t: nat, ids: seq<nat>)
    requires Shelved(c, d, ss, extra, t) && Listing(d, ids)
    ensures ids == IdsOf(ss)
  {
    hide Sound, FullShelf, TopShelf;
    assert ids == IdsOf(ss) by {
      var own := IdsOf(ss);
      forall x
        ensures x in ids <==> x in own
      {
        if x in own {
          var i :| 0 <= i < |own| && own[i] == x;
          assert ss[i].id == x;
        }
        if x in ids {
          var i :| 0 <= i < |ss| && ss[i].id == x;
          assert own[i] == x;
        }
      }
      AscendingUnique(ids, own);
    }
  }

  /** What an engine has found: the acknowledged records and the first `n` of those in flight. */
  lemma {:induction false} FoundPrefix(h: seq<Record>, inflight: seq<Record>, found: seq<Record>, extra: seq<Record>, kept: seq<Record>, n: nat)
    requires h <= found && found + extra <= h + inflight && kept <= extra && |found| + |kept| == |h| + n
    ensures n <= |inflight| && found + kept == h + inflight[..n]
  {
    assert found + kept <= found + extra;
    assert h + inflight[..n] == (h + inflight)[..|h| + n];
  }

  /** A started engine is ready, and unless its active segment is pending it serves as it should. */
  lemma {:induction false} RunningSafe(c: Codec, w: World, db: Db, ss: seq<Shelf>, extra: seq<Record>, t: nat, n: nat)
    requires Shelved(c, w.disk, ss, extra, t) && w.acked <= History(ss) && History(ss) + extra <= w.acked + w.inflight
    requires Outcomes(c, w.disk, Running(db), ss, extra, t) && db.nextSeq == |w.acked| + n + 1
    ensures n <= |w.inflight|
    ensures
      var w' := Started(w, db, n);
      && (!Exposed(db) ==> Serving(c, db, w'.acked, w'.inflight))
      && exists ss', extra' :: Ready(c, db, ss', extra') && History(ss') + extra' == w'.acked + w'.inflight
  {
    hide Shelved, Exposed, WholeFrames;
    var kept := extra[..WholeFrames(c, extra, t)];
    if db.disk == w.disk && Ready(c, db, ss, kept) {
      FoundPrefix(w.acked, w.inflight, History(ss), extra, kept, n);
      assert w.acked + w.inflight[..n] + [] == w.acked + w.inflight[..n];
      if DurableToEnd(db) && !Exposed(db) {
        assert Serving(c, db, History(ss) + kept, []) by {
          var ss' := ReadyIdle(c, db, ss, kept);
        }
      }
    } else {
      var ss' :| Idle(c, db, ss') && History(ss') == History(ss) + kept;
      FoundPrefix(w.acked, w.inflight, History(ss), extra, kept, n);
      assert History(ss') + [] == w.acked + w.inflight[..n];
      assert w.acked + w.inflight[..n] + [] == w.acked + w.inflight[..n];
    }
  }

  lemma {:induction false} OpenSafe(c: Codec, w: World, w': World, now: int, ids: seq<nat>)
    requires c.Lawful() && Safe(c, w) && OpenStep(c, w, w', now, ids)
    ensures w'.engine.Some? ==> !w'.engine.value.failed
    ensures (w'.engine.Some? ==> !Exposed(w'.engine.value)) ==> Safe(c, w')
    ensures w'.engine.Some? ==>
      && w'.disk == w'.engine.value.disk
      && exists ss, extra :: Ready(c, w'.engine.value, ss, extra) && History(ss) + extra == w'.acked + w'.inflight
  {
    hide Shelved;
    var ss, extra, t := RecoverableWitness(c, w.disk, w.acked, w.inflight);
    ListingOfShelved(c, w.disk, ss, extra, t, ids);
    OpenShelved(c, now, w.disk, ss, extra, t);
    match Open(c, Default, now, w.disk, ids)
    case Refused(disk, e) =>
      if disk != w.disk {
        assert Recoverable(c, disk, History(ss), extra) by {
          WayRecoverable(c, disk, w.disk, ss, extra, t);
        }
        Weaken(c, disk, History(ss), extra, w.acked, w.inflight);
      }
    case Running(db) =>
      var n: nat :| n <= |w.inflight| && db.nextSeq == |w.acked| + n + 1 && w' == Started(w, db, n);
      RunningSafe(c, w, db, ss, extra, t, n);
      assert !db.failed;
  }

  lemma {:induction false} CrashInOpenSafe(c: Codec, w: World, w': World, now: int, ids: seq<nat>, i: nat)
    requires c.Lawful() && Safe(c, w) && CrashInOpen(c, w, w', now, ids, i)
    ensures Safe(c, w')
  {
    hide Open, OpenPoints, Recoverable, Shelved, Outage, Outcomes;
    var ss, extra, t := RecoverableWitness(c, w.disk, w.acked, w.inflight);
    ListingOfShelved(c, w.disk, ss, extra, t, ids);
    OpenShelved(c, now, w.disk, ss, extra, t);
    var point := OpenPoints(c, Default, now, w.disk, ids)[i];
    Weaken(c, point, History(ss), extra, w.acked, w.inflight);
    OutageRecoverable(c, point, w'.disk, w.acked, w.inflight);
  }

  lemma {:induction false} ServingPlan(cfg: Config, db: Db, clock: Clock, batch: seq<LogEntry>, h: seq<Record>, inflight: seq<Record>, fault: Fault)
    requires cfg.codec.Lawful() && Serving(cfg.codec, db, h, inflight)
    requires AllWritable(cfg.codec, PlanBatch(cfg, db, clock, batch).records)
    ensures Segment(db.activeId) in db.disk.dir
    ensures
      var c, plan := cfg.codec, PlanBatch(cfg, db, clock, batch);
      var o := Commit(cfg, db, plan, fault);
      && AllRecoverable(c, o.trace, h, inflight + plan.records)
      && Recoverable(c, o.db.disk, h, inflight + plan.records)
      && (!o.ok && !o.db.failed ==> Serving(c, o.db, h, inflight))
      && (o.ok ==> Serving(c, o.db, h + (inflight + plan.records), []) && !o.db.failed)
  {
    hide Recoverable, Commit, PlanAll, AllWritable, AllRecoverable;
    PlanWrites(cfg, db, clock, batch);
    CommitSafe(cfg, db, h, inflight, PlanBatch(cfg, db, clock, batch), fault);
    var o := Commit(cfg, db, PlanBatch(cfg, db, clock, batch), fault);
  }

  lemma {:induction false} CrashInFlushSafe(cfg: Config, w: World, w': World, clock: Clock, batch: seq<LogEntry>, fault: Fault, i: nat)
    requires cfg.codec.Lawful() && Safe(cfg.codec, w) && CrashInFlush(cfg, w, w', clock, batch, fault, i)
    ensures Safe(cfg.codec, w')
  {
    hide Serving, Recoverable, Commit, PlanAll, AllWritable, Outage;
    ServingPlan(cfg, w.engine.value, clock, batch, w.acked, w.inflight, fault);
    var plan := PlanBatch(cfg, w.engine.value, clock, batch);
    OutageRecoverable(cfg.codec, Commit(cfg, w.engine.value, plan, fault).trace[i], w'.disk, w.acked, w.inflight + plan.records);
  }

  lemma {:induction false} ServingRecoverable(c: Codec, db: Db, h: seq<Record>, inflight: seq<Record>)
    requires Serving(c, db, h, inflight)
    ensures Recoverable(c, db.disk, h, inflight)
  {
    hide Shelved, Indexes;
    var ss, extra :| Ready(c, db, ss, extra) && !Exposed(db) && h <= History(ss) && History(ss) + extra == h + inflight;
    assert Shelved(c, db.disk, ss, extra, |EncodeAll(c, extra)|);
  }

  ghost predicate Opens(w: World, w': World)
  {
    w.engine.None? && w'.engine.Some?
  }

  lemma {:induction false} StepSafe(cfg: Config, w: World, w': World)
    requires cfg.codec.Lawful() && Safe(cfg.codec, w) && Next(cfg, w, w')
    requires Opens(w, w') ==> !Exposed(w'.engine.value)
    ensures Safe(cfg.codec, w')
  {
    hide OpenStep, CrashInOpen, CrashInFlush, Exposed;
    if now, ids :| OpenStep(cfg.codec, w, w', now, ids) {
      OpenSafe(cfg.codec, w, w', now, ids);
      assert w.engine.None? by { OpenOf(cfg.codec, w, w', now, ids); }
    } else if now, ids, i :| CrashInOpen(cfg.codec, w, w', now, ids, i) {
      CrashInOpenSafe(cfg.codec, w, w', now, ids, i);
    } else if clock, batch, fault :| FlushStep(cfg, w, w', clock, batch, fault) {
      assert Safe(cfg.codec, w') by {
        ServingPlan(cfg, w.engine.value, clock, batch, w.acked, w.inflight, fault);
      }
    } else if clock, batch, fault, i :| CrashInFlush(cfg, w, w', clock, batch, fault, i) {
      CrashInFlushSafe(cfg, w, w', clock, batch, fault, i);
    } else {
      if w.engine.Some? && !w.engine.value.failed {
        ServingRecoverable(cfg.codec, w.engine.value, w.acked, w.inflight);
      }
      OutageRecoverable(cfg.codec, w.disk, w'.disk, w.acked, w.inflight);
    }
  }

  lemma {:induction false} OpenOf(c: Codec, w: World, w': World, now: int, ids: seq<nat>)
    requires OpenStep(c, w, w', now, ids)
    ensures w.engine.None?
  {
    hide Open;
  }

  ghost predicate Run(cfg: Config, ws: seq<World>)
  {
    && ws != [] && Init(ws[0])
    && forall i :: 0 <= i < |ws| - 1 ==> Next(cfg, ws[i], ws[i + 1])
  }

  /** No engine is opened on an active segment whose directory entry is pending. */
  ghost predicate OpensSafely(ws: seq<World>)
  {
    forall i :: 0 <= i < |ws| - 1 && Opens(ws[i], ws[i + 1]) ==> !Exposed(ws[i + 1].engine.value)
  }

  /** Every state of every such run is safe. */
  lemma {:induction false} RunsAreSafe(cfg: Config, ws: seq<World>)
    requires cfg.codec.Lawful() && Run(cfg, ws) && OpensSafely(ws)
    ensures forall i :: 0 <= i < |ws| ==> Safe(cfg.codec, ws[i])
    decreases |ws|
  {
    hide Safe, Next, Exposed;
    if |ws| == 1 {
      InitSafe(cfg.codec, ws[0]);
    } else {
      var prefix := ws[..|ws| - 1];
      forall i | 0 <= i < |prefix| - 1
        ensures Next(cfg, prefix[i], prefix[i + 1])
        ensures Opens(prefix[i], prefix[i + 1]) ==> !Exposed(prefix[i + 1].engine.value)
      {
        assert prefix[i] == ws[i] && prefix[i + 1] == ws[i + 1];
        assert Next(cfg, ws[i], ws[i + 1]);
      }
      RunsAreSafe(cfg, prefix);
      assert Safe(cfg.codec, ws[|ws| - 2]) by {
        assert prefix[|prefix| - 1] == ws[|ws| - 2];
      }
      assert Next(cfg, ws[|ws| - 2], ws[|ws| - 2 + 1]);
      StepSafe(cfg, ws[|ws| - 2], ws[|ws| - 1]);
      forall i | 0 <= i < |ws|
        ensures Safe(cfg.codec, ws[i])
      {
        if i < |prefix| {
          assert prefix[i] == ws[i];
        }
      }
    }
  }

  /** What safety means for readers: lookups through the index return exactly the plain map of the writes. */
  lemma {:induction false} SafeReads(c: Codec, w: World, k: string)
    requires Safe(c, w) && w.engine.Some? && !w.engine.value.failed
    ensures
      var db, view := w.engine.value, Fold(map[], w.acked + w.inflight);
      && (k in db.idx.primary <==> k in view)
      && (k in view ==> ReadRecord(c, db.disk, db.idx.primary[k]) == Some(view[k]))
      && db.nextSeq == |w.acked| + |w.inflight| + 1
      && Accounted(c, db.idx)
  {
    hide Shelved, ReadRecord, Accounted;
    RepresentsKeys(w.engine.value.idx, Fold(map[], w.acked + w.inflight));
  }

  /**
   * Opening after any outage: recovery refuses with everything acknowledged still on disk, and the disk untouched
   * unless segment ids ran out; or the database is exactly the plain map of the acknowledged writes and of some
   * prefix of what was in flight.
   */
  lemma {:induction false} OpenAfterAnyOutage(c: Codec, w: World, now: int, ids: seq<nat>)
    requires c.Lawful() && Safe(c, w) && w.engine.None? && Listing(w.disk, ids)
    ensures
      match Open(c, Default, now, w.disk, ids)
      case Refused(disk, e) => (e.RecoveryRequired? && disk == w.disk) || (e == OutOfSegmentIds && Recoverable(c, disk, w.acked, w.inflight))
      case Running(db) =>
        exists n: nat ::
          && n <= |w.inflight|
          && Represents(db.idx, Fold(map[], w.acked + w.inflight[..n]))
          && Reads(c, db.disk, db.idx, Fold(map[], w.acked + w.inflight[..n]))
          && Accounted(c, db.idx)
          && db.nextSeq == |w.acked| + n + 1
  {
    hide Open, Represents, Reads, Accounted, OpenPoints;
    hide Shelved, Recoverable;
    var ss, extra, t := RecoverableWitness(c, w.disk, w.acked, w.inflight);
    ListingOfShelved(c, w.disk, ss, extra, t, ids);
    OpenShelved(c, now, w.disk, ss, extra, t);
    match Open(c, Default, now, w.disk, ids)
    case Refused(disk, e) =>
      if disk != w.disk {
        assert Recoverable(c, disk, History(ss), extra) by {
          WayRecoverable(c, disk, w.disk, ss, extra, t);
        }
        Weaken(c, disk, History(ss), extra, w.acked, w.inflight);
      }
    case Running(db) =>
      var kept := extra[..WholeFrames(c, extra, t)];
      var n: nat := |History(ss)| + |kept| - |w.acked|;
      FoundPrefix(w.acked, w.inflight, History(ss), extra, kept, n);
      assert
        var found := History(ss) + extra[..WholeFrames(c, extra, t)];
        && Represents(db.idx, Fold(map[], found)) && Reads(c, db.disk, db.idx, Fold(map[], found)) && Accounted(c, db.idx)
        && db.nextSeq == |found| + 1 by {
        var kept := extra[..WholeFrames(c, extra, t)];
        if !(db.disk == w.disk && Ready(c, db, ss, kept)) {
          var ss' :| Idle(c, db, ss') && History(ss') == History(ss) + kept;
          assert History(ss') + [] == History(ss) + kept;
        }
      }
  }

  // ---------- The condition is exact ----------

  /** `r` is a whole frame of some segment. */
  ghost predicate Kept(c: Codec, d: Disk, rs: seq<Record>)
  {
    forall i :: 0 <= i < |rs| ==> rs[i] in OnDisk(c, d)
  }

  lemma {:induction false} ShelfOf(ss: seq<Shelf>, r: Record) returns (i: nat)
    requires r in History(ss)
    ensures i < |ss| && r in ss[i].recs
  {
    if r in ss[|ss| - 1].recs {
      i := |ss| - 1;
    } else {
      i := ShelfOf(ss[..|ss| - 1], r);
    }
  }

  lemma {:induction false} ShelfWritable(c: Codec, ss: seq<Shelf>, i: nat)
    requires i < |ss| && AllWritable(c, History(ss))
    ensures AllWritable(c, ss[i].recs) && forall r :: r in ss[i].recs ==> r in History(ss)
  {
    hide AllWritable;
    var init, top := ss[..|ss| - 1], ss[|ss| - 1];
    WritableConcat(c, History(init), top.recs);
    if i < |ss| - 1 {
      ShelfWritable(c, init, i);
    }
  }

  /** Everything of the history is found by replay. */
  lemma {:induction false} ShelvedKept(c: Codec, d: Disk, ss: seq<Shelf>, extra: seq<Record>, t: nat)
    requires c.Lawful() && Shelved(c, d, ss, extra, t)
    ensures Kept(c, d, History(ss))
  {
    hide EncodeAll, AllWritable, Scan;
    WritableConcat(c, History(ss), extra);
    var h := History(ss);
    forall k | 0 <= k < |h|
      ensures h[k] in OnDisk(c, d)
    {
      var i := ShelfOf(ss, h[k]);
      ShelfWritable(c, ss, i);
      assert Segment(ss[i].id) in d.dir && forall r :: r in ss[i].recs ==> r in FramesIn(c, d.dir[Segment(ss[i].id)]) by {
        AppendFrames(c, [], ss[i].recs);
        assert [] + EncodeAll(c, ss[i].recs) == EncodeAll(c, ss[i].recs);
        var log := EncodeAll(c, ss[i].recs);
        if i < |ss| - 1 {
          assert FullShelf(c, d, ss[i]);
        } else {
          assert FramesIn(c, log) <= FramesIn(c, log + EncodeAll(c, extra)[..t]) by {
            CutFrames(c, log, EncodeAll(c, extra)[..t], 0);
          }
        }
      }
      SegmentIdsIff(d, ss[i].id);
    }
  }

  lemma {:induction false} RecoverableKept(c: Codec, d: Disk, h: seq<Record>, inflight: seq<Record>)
    requires c.Lawful() && Recoverable(c, d, h, inflight)
    ensures Kept(c, d, h)
  {
    hide Shelved, OnDiskExcept;
    var ss, extra, t := RecoverableWitness(c, d, h, inflight);
    ShelvedKept(c, d, ss, extra, t);
    assert forall i :: 0 <= i < |h| ==> h[i] == History(ss)[i];
  }

  /** The directory a power loss leaves if the pending active segment is gone and everything else is whole. */
  function WithoutActive(db: Db): Disk
  {
    var dir := db.disk.dir - {Segment(db.activeId)};
    Disk(dir, map p | p in dir :: |dir[p]|, {}, map[])
  }

  /** No older segment holds a frame of a newer batch. */
  lemma {:induction false} NotInOlder(c: Codec, d: Disk, ss: seq<Shelf>, extra: seq<Record>, t: nat, d': Disk, r: Record)
    requires c.Lawful() && ss != [] && Shelved(c, d, ss, extra, t) && r.seqId > |History(ss)|
    requires forall id: nat :: Segment(id) in d'.dir ==> id != ss[|ss| - 1].id && Segment(id) in d.dir && d'.dir[Segment(id)] == d.dir[Segment(id)]
    ensures r !in OnDisk(c, d')
  {
    WritableConcat(c, History(ss), extra);
    if r in OnDisk(c, d') {
      var id :| id in SegmentIds(d') && Segment(id) in d'.dir && r in FramesIn(c, d'.dir[Segment(id)]);
      var i :| 0 <= i < |ss| && ss[i].id == id;
      assert FullShelf(c, d, ss[i]);
      ShelfWritable(c, ss, i);
      assert FramesIn(c, EncodeAll(c, ss[i].recs)) == SetOf(ss[i].recs) by {
        AppendFrames(c, [], ss[i].recs);
        assert [] + EncodeAll(c, ss[i].recs) == EncodeAll(c, ss[i].recs);
      }
      OldSeqs(History(ss), extra, r);
      assert false;
    }
  }

  lemma {:induction false} OldSeqs(h: seq<Record>, extra: seq<Record>, r: Record)
    requires Consecutive(h + extra, 1) && r in h
    ensures r.seqId <= |h|
  {
    var i :| 0 <= i < |h| && h[i] == r;
    assert (h + extra)[i] == r;
  }

  lemma {:induction false} ExposedLoses(cfg: Config, db: Db, ss: seq<Shelf>, extra: seq<Record>, plan: Plan)
    requires cfg.codec.Lawful() && Ready(cfg.codec, db, ss, extra) && Exposed(db) && Writes(cfg.codec, db, plan) && plan.records != []
    requires db.fileOpen && db.activeSize + |EncodeAll(cfg.codec, plan.records)| <= cfg.maxSegmentSize
    ensures Segment(db.activeId) in db.disk.dir
    ensures
      var c, o := cfg.codec, Commit(cfg, db, plan, NoFault);
      o.ok && exists d' :: CrashOf(o.db.disk, d') && plan.records[0] !in OnDisk(c, d')
  {
    hide EncodeAll, Indexes, OnDiskExcept;
    var c := cfg.codec;
    ActiveFile(c, db, ss, extra);
    var o := Commit(cfg, db, plan, NoFault);
    NotInOlder(c, db.disk, ss, extra, |EncodeAll(c, extra)|, WithoutActive(o.db), plan.records[0]);
  }

  /** The engine as if its active segment's directory entry were durable. */
  function Anchored(db: Db): Db
  {
    db.(disk := db.disk.(creates := db.disk.creates - {Segment(db.activeId)}))
  }

  lemma {:induction false} AnchoredReady(c: Codec, db: Db, ss: seq<Shelf>, extra: seq<Record>)
    requires Ready(c, db, ss, extra)
    ensures Ready(c, Anchored(db), ss, extra) && !Exposed(Anchored(db))
  {
    hide EncodeAll, Represents, Accounted, FreshFrom, ReadRecord;
    var t := |EncodeAll(c, extra)|;
    assert SameShelves(db.disk, Anchored(db).disk);
    hide SameShelves;
    SameShelved(c, db.disk, Anchored(db).disk, ss, extra, t);
    assert forall p :: ReadRecord(c, Anchored(db).disk, p) == ReadRecord(c, db.disk, p) by { SameReads(c, db.disk, Anchored(db).disk); }
  }

  lemma {:induction false} SameReads(c: Codec, d: Disk, d': Disk)
    requires d'.dir == d.dir
    ensures forall p :: ReadRecord(c, d', p) == ReadRecord(c, d, p)
  {
    hide ReadAt;
  }

  /** A rollover makes the pending directory entry durable before anything is written to the new segment. */
  lemma {:induction false} RollOverAnchors(cfg: Config, db: Db, plan: Plan)
    requires Segment(db.activeId) in db.disk.dir && db.activeSize + |EncodeAll(cfg.codec, plan.records)| > cfg.maxSegmentSize
    ensures
      var o, o' := Commit(cfg, db, plan, NoFault), Commit(cfg, Anchored(db), plan, NoFault);
      o.ok ==> o'.ok && o'.db == o.db
  {
    hide EncodeAll, ApplyAll, WriteStage;
    var r, r' := RollOver(db, NoFault), RollOver(Anchored(db), NoFault);
    if r.ok {
      assert r'.ok && r'.db == r.db;
    }
  }

  /**
   * The first batch after opening, whether it fits into the active segment or not: once acknowledged it survives every
   * power loss if and only if the active segment's directory entry was not pending when the engine was opened, or the
   * batch rolls the segment over.
   */
  lemma {:induction false} AckedWritesSurviveExactly(cfg: Config, w: World, w': World, now: int, ids: seq<nat>, clock: Clock, batch: seq<LogEntry>)
    requires cfg.codec.Lawful() && Safe(cfg.codec, w) && OpenStep(cfg.codec, w, w', now, ids) && w'.engine.Some?
    requires
      var plan := PlanBatch(cfg, w'.engine.value, clock, batch);
      AllWritable(cfg.codec, plan.records) && plan.records != []
    ensures Segment(w'.engine.value.activeId) in w'.disk.dir
    ensures
      var db := w'.engine.value;
      var plan := PlanBatch(cfg, db, clock, batch);
      var o, fits := Commit(cfg, db, plan, NoFault), db.activeSize + |EncodeAll(cfg.codec, plan.records)| <= cfg.maxSegmentSize;
      && (fits ==> o.ok)
      && (o.ok ==> ((forall d' :: CrashOf(o.db.disk, d') ==> Kept(cfg.codec, d', w'.acked + (w'.inflight + plan.records))) <==> !Exposed(db) || !fits))
  {
    hide Safe, Ready, Exposed, PlanAll, AllWritable, EncodeAll, CrashOf, OnDiskExcept, Anchored;
    var c, db := cfg.codec, w'.engine.value;
    var plan := PlanBatch(cfg, db, clock, batch);
    OpenSafe(c, w, w', now, ids);
    PlanWrites(cfg, db, clock, batch);
    var ss, extra :| Ready(c, db, ss, extra) && History(ss) + extra == w'.acked + w'.inflight;
    ActiveFile(c, db, ss, extra);
    if db.activeSize + |EncodeAll(c, plan.records)| <= cfg.maxSegmentSize {
      if Exposed(db) {
        ExposedLoses(cfg, db, ss, extra, plan);
        var o, all := Commit(cfg, db, plan, NoFault), w'.acked + (w'.inflight + plan.records);
        var d' :| CrashOf(o.db.disk, d') && plan.records[0] !in OnDisk(cfg.codec, d');
        assert all[|w'.acked| + |w'.inflight|] == plan.records[0];
      } else {
        assert Serving(c, db, w'.acked, w'.inflight) by { SafeServing(c, w'); }
        ServedSurvives(cfg, db, w'.acked, w'.inflight, plan);
      }
    } else if Exposed(db) {
      AnchoredReady(c, db, ss, extra);
      AnchoredSame(db);
      RollOverAnchors(cfg, db, plan);
      ServedSurvives(cfg, Anchored(db), w'.acked, w'.inflight, plan);
    } else {
      assert Serving(c, db, w'.acked, w'.inflight) by { SafeServing(c, w'); }
      ServedSurvives(cfg, db, w'.acked, w'.inflight, plan);
    }
  }

  lemma {:induction false} AnchoredSame(db: Db)
    ensures Anchored(db).nextSeq == db.nextSeq && Anchored(db).idx == db.idx && Anchored(db).activeId == db.activeId
    ensures Anchored(db).disk.dir == db.disk.dir
  {
  }

  lemma {:induction false} ServedSurvives(cfg: Config, db: Db, h: seq<Record>, inflight: seq<Record>, plan: Plan)
    requires cfg.codec.Lawful() && Writes(cfg.codec, db, plan)
    requires exists h', i' :: Serving(cfg.codec, db, h', i') && h' + i' == h + inflight
    ensures Segment(db.activeId) in db.disk.dir
    ensures
      var o := Commit(cfg, db, plan, NoFault);
      o.ok ==> forall d' :: CrashOf(o.db.disk, d') ==> Kept(cfg.codec, d', h + (inflight + plan.records))
  {
    hide Serving, Commit, CrashOf, Kept, Writes, Recoverable;
    var c := cfg.codec;
    var h', i' :| Serving(c, db, h', i') && h' + i' == h + inflight;
    CommitSafe(cfg, db, h', i', plan, NoFault);
    var o, all := Commit(cfg, db, plan, NoFault), h + (inflight + plan.records);
    assert h' + (i' + plan.records) == (h' + i') + plan.records == all;
    if o.ok {
      ServingRecoverable(c, o.db, all, []);
      forall d' | CrashOf(o.db.disk, d')
        ensures Kept(c, d', all)
      {
        OutageRecoverable(c, o.db.disk, d', all, []);
        RecoverableKept(c, d', all, []);
      }
    }
  }

  lemma {:induction false} SafeServing(c: Codec, w: World)
    requires Safe(c, w) && w.engine.Some? && !w.engine.value.failed
    ensures Serving(c, w.engine.value, w.acked, w.inflight)
  {
    hide Serving;
  }

  // ---------- How an engine comes to be opened on a pending segment ----------

  /** Where there is no tear, recovery changes nothing on disk. */
  lemma {:induction false} OpenWhole(c: Codec, now: int, d: Disk, ss: seq<Shelf>)
    requires c.Lawful() && ss != [] && Shelved(c, d, ss, [], 0)
    ensures forall i :: 0 <= i < |ss| ==> Segment(IdsOf(ss)[i]) in d.dir
    ensures
      match Open(c, Default, now, d, IdsOf(ss))
      case Refused(disk, e) => disk == d && e == OutOfSegmentIds
      case Running(db) => db.disk == d && db.activeId == ss[|ss| - 1].id
  {
    hide EncodeAll, PassAll, AllPlaces, ChooseActive, MergeFrom, Found, WholeFrames, Sound, FullShelf, OnlySegments;
    PassShelved(c, d, ss, [], 0);
    FoundActive(c, d, ss, [], 0);
    NoTear(c, ss);
  }

  lemma {:induction false} NoTear(c: Codec, ss: seq<Shelf>)
    ensures TearsOf(c, ss, [], 0) == []
  {
    if ss != [] {
      assert ss[|ss| - 1].recs + [] == ss[|ss| - 1].recs;
      var none: seq<Record> := [];
      assert none[..WholeFrames(c, none, 0)] == [];
    }
  }

  /**
   * A rollover killed between creating the new segment and syncing the directory: the next opening runs on the
   * new, empty segment, the disk as it was, so its directory entry is still pending.
   */
  lemma {:induction false} KilledRollOverExposes(c: Codec, db: Db, h: seq<Record>, inflight: seq<Record>, now: int, ids: seq<nat>)
    requires c.Lawful() && Serving(c, db, h, inflight) && db.fileOpen && db.segmentCounter < COMPACTION_ID_BASE
    ensures Segment(db.activeId) in db.disk.dir && |RollOver(db, NoFault).trace| == 3
    ensures
      var d := RollOver(db, NoFault).trace[1];
      Listing(d, ids) ==>
        match Open(c, Default, now, d, ids)
        case Refused(disk, e) => disk == d && e == OutOfSegmentIds
        case Running(next) => next.disk == d && next.activeId == db.segmentCounter && Exposed(next)
  {
    hide Shelved, Indexes, EncodeAll, Open, History, Appended;
    var ss, extra :| Ready(c, db, ss, extra) && !Exposed(db) && h <= History(ss) && History(ss) + extra == h + inflight;
    SealedOld(c, db, ss, extra);
    var id, ss1, d1 := db.segmentCounter, Appended(ss, extra), Sync(db.disk, Segment(db.activeId));
    NewShelf(c, d1, ss1, id);
    var d, ss2 := Create(d1, Segment(id)), ss1 + [Shelf(id, [])];
    assert RollOver(db, NoFault).trace[1] == d;
    OpenWhole(c, now, d, ss2);
    if Listing(d, ids) {
      ListingOfShelved(c, d, ss2, [], 0, ids);
    }
  }

  const FIRST_FILE: Disk := Create(EMPTY_DISK, Segment(1))
  const FIRST_ENGINE: Db := Db(FIRST_FILE, EMPTY_INDEX, 1, 1, 0, true, false, 2, COMPACTION_ID_BASE)

  /** The very first opening, killed before the directory sync, and the second. */
  lemma {:induction false} FirstOpenKilled(c: Codec, now: int)
    ensures Listing(EMPTY_DISK, []) && Listing(FIRST_FILE, [1])
    ensures OpenPoints(c, Default, now, EMPTY_DISK, []) == [FIRST_FILE, DirSync(FIRST_FILE)]
    ensures Open(c, Default, now, FIRST_FILE, [1]) == Running(FIRST_ENGINE) && Exposed(FIRST_ENGINE)
  {
    OpenNothing(c, Default, now, EMPTY_DISK);
    FirstFileOpens(c, now);
    hide Open, OpenPoints, Scan;
  }

  lemma {:induction false} FirstFileOpens(c: Codec, now: int)
    ensures Open(c, Default, now, FIRST_FILE, [1]) == Running(FIRST_ENGINE)
  {
    assert Scan(c, [], 0) == Replay([], 0, None, 0, false);
    hide Scan, FrameAt, Settle;
    var pass := PassAll(c, FIRST_FILE, [1]);
    assert [1][..0] == [];
    assert PassAll(c, FIRST_FILE, []) == START_PASS;
    assert pass == Pass(EMPTY_MERGE, [Summary(1, 0, false)], []);
    hide PassAll;
    assert ChooseActive(pass.summaries) == 1 && MaxNormalId([1]) == 1 && MaxId([1]) == 1;
  }

  /** A run from a fresh directory in which an acknowledged write is lost: kill, open, commit, power loss. */
  lemma {:induction false} AcknowledgedWriteLost(cfg: Config, now: int, clock: Clock, batch: seq<LogEntry>)
    requires cfg.codec.Lawful()
    requires
      var plan := PlanBatch(cfg, FIRST_ENGINE, clock, batch);
      && AllWritable(cfg.codec, plan.records) && plan.records != [] && |EncodeAll(cfg.codec, plan.records)| <= cfg.maxSegmentSize
    ensures exists ws: seq<World> ::
      && Run(cfg, ws) && |ws| == 5
      && ws[3].engine.Some? && ws[4].acked == ws[3].acked == PlanBatch(cfg, FIRST_ENGINE, clock, batch).records
      && !Kept(cfg.codec, ws[4].disk, ws[4].acked)
  {
    hide Open, OpenPoints, Commit, PlanAll, AllWritable, EncodeAll, CrashOf, OnDiskExcept, Listing, Exposed, Safe, DurableToEnd, Kept;
    var c, plan := cfg.codec, PlanBatch(cfg, FIRST_ENGINE, clock, batch);
    var w0, w1, w2 := World(EMPTY_DISK, None, [], []), World(FIRST_FILE, None, [], []), World(FIRST_FILE, Some(FIRST_ENGINE), [], []);
    FirstOpenKilled(c, now);
    assert Outage(FIRST_FILE, FIRST_FILE);
    assert CrashInOpen(c, w0, w1, now, [], 0);
    var none: seq<Record> := [];
    assert none[..0] == none && none + none == none;
    assert OpenStep(c, w1, w2, now, [1]) by { assert w2 == Started(w1, FIRST_ENGINE, 0); }
    InitSafe(c, w0);
    CrashInOpenSafe(c, w0, w1, now, [], 0);
    AckedWritesSurviveExactly(cfg, w1, w2, now, [1], clock, batch);
    var o := Commit(cfg, FIRST_ENGINE, plan, NoFault);
    var d' :| CrashOf(o.db.disk, d') && !Kept(c, d', [] + ([] + plan.records));
    assert [] + ([] + plan.records) == plan.records;
    var w3, w4 := World(o.db.disk, Some(o.db), plan.records, []), World(d', None, plan.records, []);
    assert FlushStep(cfg, w2, w3, clock, batch, NoFault);
    assert CrashStep(w3, w4);
    var ws := [w0, w1, w2, w3, w4];
    assert Run(cfg, ws);
  }
}
