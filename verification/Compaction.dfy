/**
 * Compaction running beside the flusher, as a state machine: group commits interleave freely with
 * the listing, the walk over the index, each copied record, the pointer swap and each unlink.
 */
module Compaction {
  import opened Wrappers
  import opened Bytes
  import opened Types
  import opened Frames
  import opened Index
  import opened LogMerge
  import opened Disk
  import opened GroupCommit
  import opened FlushIndex
  import opened Flusher
  import opened ShelfReplay
  import opened CommitSafety

  /** A record's old frame and its copy. */
  datatype Move = Move(from: LogPointer, to: LogPointer)

  datatype Phase =
    | NoCompaction
      // walking the index: `unseen` are the keys present at the start and not met yet
    | Walking(active: nat, inputs: set<nat>, unseen: set<string>, picked: map<string, LogPointer>)
    | Copying(inputs: set<nat>, out: nat, todo: map<string, LogPointer>, moved: map<string, Move>)
    | Sealed(inputs: set<nat>, out: nat, moved: map<string, Move>)
    | Unlinking(inputs: set<nat>, left: set<nat>)

  /** `view` is the plain map of writes. */
  datatype Sys = Sys(db: Db, view: map<string, Record>, phase: Phase)

  // ---------- Steps ----------

  ghost predicate FlushStep(cfg: Config, s: Sys, s': Sys, clock: Clock, batch: seq<LogEntry>, fault: Fault)
  {
    && !s.db.failed && Segment(s.db.activeId) in s.db.disk.dir
    && var plan := PlanBatch(cfg, s.db, clock, batch);
       && AllWritable(cfg.codec, plan.records)
       && var o := Commit(cfg, s.db, plan, fault);
          s' == Sys(o.db, if o.ok then Fold(s.view, plan.records) else s.view, s.phase)
  }

  /** The active id is read and the directory listed; everything else on disk is an input. */
  ghost predicate BeginStep(s: Sys, s': Sys)
  {
    var inputs := SegmentIds(s.db.disk) - {s.db.activeId};
    && s.phase.NoCompaction? && inputs != {}
    && s' == s.(phase := Walking(s.db.activeId, inputs, s.db.idx.primary.Keys, map[]))
  }

  function Visited(idx: Index, active: nat, picked: map<string, LogPointer>, k: string): map<string, LogPointer>
  {
    if k in idx.primary && idx.primary[k].segmentId != active then picked[k := idx.primary[k]] else picked
  }

  /** One step of the walk: any key may be met, those present from the start are met before it ends. */
  ghost predicate VisitStep(s: Sys, s': Sys, k: string)
  {
    && s.phase.Walking?
    && s' == s.(phase := s.phase.(unseen := s.phase.unseen - {k}, picked := Visited(s.db.idx, s.phase.active, s.phase.picked, k)))
  }

  ghost predicate CreateStep(s: Sys, s': Sys)
  {
    var out := s.db.compactionCounter;
    && s.phase.Walking? && s.phase.unseen == {}
    && Segment(out) !in s.db.disk.dir
    && s' == s.(db := s.db.(disk := Create(s.db.disk, Segment(out)), compactionCounter := out + 1),
                phase := Copying(s.phase.inputs, out, s.phase.picked, map[]))
  }

  /** One record is read through its old pointer and written to the end of the output. */
  ghost predicate CopyStep(c: Codec, s: Sys, s': Sys, k: string)
  {
    && s.phase.Copying? && k in s.phase.todo
    && var from, out := s.phase.todo[k], Segment(s.phase.out);
       var r := ReadRecord(c, s.db.disk, from);
       && r.Some? && out in s.db.disk.dir
       && var to := PointerTo(s.phase.out, |s.db.disk.dir[out]|, r.value);
          s' == s.(db := s.db.(disk := Append(s.db.disk, out, EncodeFrame(c, r.value))),
                   phase := s.phase.(todo := s.phase.todo - {k}, moved := s.phase.moved[k := Move(from, to)]))
  }

  /** A write that fails, or that the process dies in, leaves part of a frame; compaction gives up. */
  ghost predicate CopyFailStep(c: Codec, s: Sys, s': Sys, k: string, t: nat)
  {
    && s.phase.Copying? && k in s.phase.todo
    && var r, out := ReadRecord(c, s.db.disk, s.phase.todo[k]), Segment(s.phase.out);
       && r.Some? && out in s.db.disk.dir && t <= |EncodeFrame(c, r.value)|
       && s' == s.(db := s.db.(disk := Append(s.db.disk, out, EncodeFrame(c, r.value)[..t])), phase := NoCompaction)
  }

  /** The output is made durable, its directory entry still pending. */
  ghost predicate SyncOutStep(s: Sys, s': Sys)
  {
    && s.phase.Copying? && s.phase.todo == map[] && Segment(s.phase.out) in s.db.disk.dir
    && s' == s.(db := s.db.(disk := Sync(s.db.disk, Segment(s.phase.out))))
  }

  /** The directory entry too; a sync of the file before it that was done already changes nothing. */
  ghost predicate SealStep(s: Sys, s': Sys)
  {
    && s.phase.Copying? && s.phase.todo == map[] && Segment(s.phase.out) in s.db.disk.dir
    && s' == s.(db := s.db.(disk := DirSync(Sync(s.db.disk, Segment(s.phase.out)))),
                phase := Sealed(s.phase.inputs, s.phase.out, s.phase.moved))
  }

  /** Re-point one key, unless it moved on since it was picked. */
  function SwapOne(idx: Index, k: string, stream: string, m: Move): Index
  {
    if k in idx.primary && idx.primary[k] == m.from then
      var times := if stream in idx.times
                   then idx.times[stream := idx.times[stream][(m.to.timestamp, m.to.seqId) := m.to]]
                   else idx.times;
      idx.(primary := idx.primary[k := m.to], times := times)
    else
      idx
  }

  /** The swap of all keys, under the flusher's lock. `order` is the order in which the keys are taken. */
  function SwapAll(c: Codec, d: Disk, idx: Index, moved: map<string, Move>, order: seq<string>): Index
    requires forall i :: 0 <= i < |order| ==> order[i] in moved
  {
    if order == [] then idx else
    var k := order[|order| - 1];
    var r := ReadRecord(c, d, moved[k].to);
    SwapOne(SwapAll(c, d, idx, moved, order[..|order| - 1]), k, if r.Some? then r.value.stream else "", moved[k])
  }

  ghost predicate SwapStep(c: Codec, s: Sys, s': Sys, order: seq<string>)
  {
    && s.phase.Sealed?
    && (forall k :: k in order <==> k in s.phase.moved)
    && s' == s.(db := s.db.(idx := SwapAll(c, s.db.disk, s.db.idx, s.phase.moved, order)),
                phase := Unlinking(s.phase.inputs, s.phase.inputs))
  }

  /** The inputs are removed one by one, in ascending order of their ids. */
  ghost predicate UnlinkStep(s: Sys, s': Sys, id: nat)
  {
    && s.phase.Unlinking? && id in s.phase.left && (forall j :: j in s.phase.left ==> id <= j)
    && Segment(id) in s.db.disk.dir
    && s' == s.(db := s.db.(disk := Unlink(s.db.disk, Segment(id))), phase := s.phase.(left := s.phase.left - {id}))
  }

  /** `let _ = fs::remove_file(path)`: a file that cannot be removed stays. */
  ghost predicate UnlinkFailStep(s: Sys, s': Sys, id: nat)
  {
    && s.phase.Unlinking? && id in s.phase.left
    && s' == s.(phase := s.phase.(left := s.phase.left - {id}))
  }

  /** A failed create, read, write or sync makes compaction give up before anything is removed. */
  ghost predicate AbortStep(s: Sys, s': Sys)
  {
    !s.phase.Unlinking? && s' == s.(phase := NoCompaction)
  }

  ghost predicate FinishStep(s: Sys, s': Sys)
  {
    && s.phase.Unlinking? && s.phase.left == {}
    && s' == s.(db := s.db.(disk := DirSync(s.db.disk)), phase := NoCompaction)
  }

  /** `let _ = sync_data_dir(..)`: when the last directory sync fails, the removals stay pending. */
  ghost predicate FinishFailStep(s: Sys, s': Sys)
  {
    s.phase.Unlinking? && s.phase.left == {} && s' == s.(phase := NoCompaction)
  }

  ghost predicate Next(cfg: Config, s: Sys, s': Sys)
  {
    || (exists clock, batch, fault :: FlushStep(cfg, s, s', clock, batch, fault))
    || BeginStep(s, s')
    || (exists k :: VisitStep(s, s', k))
    || CreateStep(s, s')
    || (exists k :: CopyStep(cfg.codec, s, s', k))
    || (exists k, t :: CopyFailStep(cfg.codec, s, s', k, t))
    || SyncOutStep(s, s')
    || SealStep(s, s')
    || (exists order :: SwapStep(cfg.codec, s, s', order))
    || (exists id :: UnlinkStep(s, s', id))
    || (exists id :: UnlinkFailStep(s, s', id))
    || FinishStep(s, s')
    || FinishFailStep(s, s')
    || AbortStep(s, s')
  }

  // ---------- What every interleaving keeps ----------

  /** The index serves exactly the plain map of writes. */
  ghost predicate Serves(c: Codec, d: Disk, idx: Index, view: map<string, Record>)
  {
    && Represents(idx, view)
    && Accounted(c, idx)
    && Reads(c, d, idx, view)
    && (forall k :: k in view ==> Writable(c, view[k]))
  }

  /** Segment ids: the active one is normal, and both counters are above every id in their range. */
  ghost predicate IdsOk(db: Db)
  {
    && 1 <= db.activeId < COMPACTION_ID_BASE
    && db.activeId < db.segmentCounter
    && COMPACTION_ID_BASE <= db.compactionCounter
    && (forall id: nat :: Segment(id) in db.disk.dir ==>
          if id < COMPACTION_ID_BASE then id < db.segmentCounter else id < db.compactionCounter)
    && (!db.fileOpen && !db.failed ==> db.segmentCounter >= COMPACTION_ID_BASE)
  }

  ghost predicate ActiveOk(db: Db)
  {
    !db.failed ==>
      Segment(db.activeId) in db.disk.dir && db.activeSize == |db.disk.dir[Segment(db.activeId)]|
  }

  /** A pointer that reads the frame it was made for. */
  ghost predicate Leads(c: Codec, d: Disk, k: string, p: LogPointer)
  {
    var r := ReadRecord(c, d, p);
    && r.Some? && Writable(c, r.value)
    && r.value.Compound() == k
    && p.seqId == r.value.seqId && p.timestamp == r.value.timestamp
  }

  ghost predicate Copied(c: Codec, d: Disk, out: nat, k: string, m: Move)
  {
    && Leads(c, d, k, m.from) && Leads(c, d, k, m.to)
    && ReadRecord(c, d, m.from) == ReadRecord(c, d, m.to)
    && m.to.segmentId == out
  }

  ghost predicate PhaseOk(c: Codec, db: Db, phase: Phase)
  {
    match phase
    case NoCompaction => true
    case Walking(active, inputs, unseen, picked) =>
      && InputsOk(db, inputs)
      && active !in inputs && active < COMPACTION_ID_BASE
      && (forall k :: k in picked ==> Leads(c, db.disk, k, picked[k]))
      && (forall k :: k in db.idx.primary && db.idx.primary[k].segmentId in inputs && k !in unseen ==>
            k in picked && picked[k] == db.idx.primary[k])
    case Copying(inputs, out, todo, moved) =>
      && InputsOk(db, inputs)
      && OutOk(db, inputs, out)
      && todo.Keys !! moved.Keys
      && (forall k :: k in todo ==> Leads(c, db.disk, k, todo[k]))
      && (forall k :: k in moved ==> Copied(c, db.disk, out, k, moved[k]))
      && (forall k :: k in db.idx.primary && db.idx.primary[k].segmentId in inputs ==>
            (k in todo && todo[k] == db.idx.primary[k]) || (k in moved && moved[k].from == db.idx.primary[k]))
    case Sealed(inputs, out, moved) =>
      && InputsOk(db, inputs)
      && OutOk(db, inputs, out)
      && (forall k :: k in moved ==> Copied(c, db.disk, out, k, moved[k]))
      && (forall k :: k in db.idx.primary && db.idx.primary[k].segmentId in inputs ==>
            k in moved && moved[k].from == db.idx.primary[k])
    case Unlinking(inputs, left) =>
      && InputsOk(db, inputs) && left <= inputs
      && (forall k :: k in db.idx.primary ==> db.idx.primary[k].segmentId !in inputs)
  }

  /** The inputs are segments the flusher will never write to again. */
  ghost predicate InputsOk(db: Db, inputs: set<nat>)
  {
    && db.activeId !in inputs
    && (forall id :: id in inputs ==>
          if id < COMPACTION_ID_BASE then id < db.segmentCounter else id < db.compactionCounter)
  }

  ghost predicate OutOk(db: Db, inputs: set<nat>, out: nat)
  {
    && COMPACTION_ID_BASE <= out < db.compactionCounter
    && out !in inputs
    && Segment(out) in db.disk.dir
  }

  ghost predicate SysOk(c: Codec, s: Sys)
  {
    && Serves(c, s.db.disk, s.db.idx, s.view)
    && FreshFrom(s.db.idx, s.db.nextSeq)
    && IdsOk(s.db)
    && ActiveOk(s.db)
    && PhaseOk(c, s.db, s.phase)
  }

  // ---------- Growing disks ----------

  ghost predicate Grows(d: Disk, d': Disk)
  {
    forall id :: Segment(id) in d.dir ==> Segment(id) in d'.dir && d.dir[Segment(id)] <= d'.dir[Segment(id)]
  }

  lemma {:induction false} ReadGrows(c: Codec, d: Disk, d': Disk, p: LogPointer)
    requires Grows(d, d') && ReadRecord(c, d, p).Some?
    ensures ReadRecord(c, d', p) == ReadRecord(c, d, p)
  {
    hide ReadAt;
    var s := Segment(p.segmentId);
    var file, file' := d.dir[s], d'.dir[s];
    AppendKeepsReads(c, file, file'[|file|..], p.fileOffset);
    assert file + file'[|file|..] == file';
  }

  lemma {:induction false} ServesGrows(c: Codec, d: Disk, d': Disk, idx: Index, view: map<string, Record>)
    requires Grows(d, d') && Serves(c, d, idx, view)
    ensures Serves(c, d', idx, view)
  {
    hide Represents, Accounted, Writable;
    ReadsGrow(c, d, d', idx, view);
  }

  /** The phase only depends on what the disk keeps and on which pointers may have changed. */
  lemma {:induction false} PhaseGrows(c: Codec, db: Db, db': Db, phase: Phase)
    requires PhaseOk(c, db, phase) && Grows(db.disk, db'.disk)
    requires db'.segmentCounter >= db.segmentCounter && db'.compactionCounter >= db.compactionCounter
    requires db'.activeId == db.activeId || db'.activeId == db.segmentCounter < COMPACTION_ID_BASE
    requires forall k :: k in db'.idx.primary ==>
      (k in db.idx.primary && db'.idx.primary[k] == db.idx.primary[k]) || db'.idx.primary[k].segmentId == db'.activeId
    ensures PhaseOk(c, db', phase)
  {
    hide Writable, ReadRecord;
    forall k, p | Leads(c, db.disk, k, p)
      ensures Leads(c, db'.disk, k, p) && ReadRecord(c, db'.disk, p) == ReadRecord(c, db.disk, p)
    {
      ReadGrows(c, db.disk, db'.disk, p);
    }
    if !phase.NoCompaction? {
      assert InputsOk(db', phase.inputs);
    }
  }

  // ---------- Group commits ----------

  lemma {:induction false} ApplyAllPointers(c: Codec, idx: Index, segment: nat, offset: nat, rs: seq<Record>)
    ensures forall k :: k in ApplyAll(c, idx, segment, offset, rs).primary ==>
      var p := ApplyAll(c, idx, segment, offset, rs).primary[k];
      (k in idx.primary && p == idx.primary[k]) || p.segmentId == segment
    decreases |rs|
  {
    hide EncodeFrame;
    if rs != [] {
      ApplyAllPointers(c, Apply(c, idx, rs[0], PointerTo(segment, offset, rs[0])), segment, offset + |EncodeFrame(c, rs[0])|, rs[1..]);
    }
  }

  lemma {:induction false} FoldWritable(c: Codec, view: map<string, Record>, rs: seq<Record>)
    requires AllWritable(c, rs) && forall k :: k in view ==> Writable(c, view[k])
    ensures forall k :: k in Fold(view, rs) ==> Writable(c, Fold(view, rs)[k])
    decreases |rs|
  {
    hide Writable;
    if rs != [] {
      FoldWritable(c, ApplyView(view, rs[0]), rs[1..]);
    }
  }

  /** Rolling over adds at most one empty file, with an id no file has. */
  lemma {:induction false} RollOverGrows(db: Db, fault: Fault)
    requires IdsOk(db) && ActiveOk(db) && !db.failed
    ensures
      var o := RollOver(db, fault);
      && Grows(db.disk, o.db.disk)
      && IdsOk(o.db) && ActiveOk(o.db)
      && o.db.idx == db.idx && o.db.nextSeq == db.nextSeq
      && o.db.segmentCounter >= db.segmentCounter && o.db.compactionCounter == db.compactionCounter
      && (o.db.activeId == db.activeId || o.db.activeId == db.segmentCounter < COMPACTION_ID_BASE)
      && (o.ok ==> o.db.fileOpen && !o.db.failed)
      && !(Segment(db.segmentCounter) in db.disk.dir && db.segmentCounter < COMPACTION_ID_BASE)
  {
  }

  /** A durable batch is served; a failed one leaves what is served alone. */
  lemma {:induction false} WriteServes(c: Codec, db: Db, view: map<string, Record>, plan: Plan, fault: Fault)
    requires c.Lawful() && Writes(c, db, plan)
    requires Serves(c, db.disk, db.idx, view) && FreshFrom(db.idx, db.nextSeq) && IdsOk(db) && ActiveOk(db) && !db.failed
    ensures
      var o := WriteStage(c, db, EncodeAll(c, plan.records), plan, fault);
      && Serves(c, o.db.disk, o.db.idx, if o.ok then Fold(view, plan.records) else view)
      && FreshFrom(o.db.idx, o.db.nextSeq)
      && o.db.nextSeq == if o.ok then db.nextSeq + |plan.records| else db.nextSeq
  {
    hide EncodeAll, Represents, Accounted, FreshSeq, Writable, ApplyAll, ReadRecord;
    var rs, buf := plan.records, EncodeAll(c, plan.records);
    var o := WriteStage(c, db, buf, plan, fault);
    assert Grows(db.disk, o.db.disk);
    ServesGrows(c, db.disk, o.db.disk, db.idx, view);
    if o.ok {
      NewFramesRead(c, o.db.disk.dir[Segment(db.activeId)], db.activeSize, rs);
      ApplyAllReads(c, o.db.disk, db.idx, view, db.activeId, db.activeSize, rs);
      ApplyAllRepresents(c, db.idx, view, db.activeId, db.activeSize, rs, db.nextSeq);
      FoldWritable(c, view, rs);
    }
  }

  lemma {:induction false} NewFramesRead(c: Codec, file: bytes, base: nat, rs: seq<Record>)
    requires c.Lawful() && AllWritable(c, rs)
    requires base <= |file| && file[base..] == EncodeAll(c, rs)
    ensures forall i :: 0 <= i < |rs| ==>
      && ReadAt(c, file, Layout(c, rs, base)[i].offset) == Some(rs[i])
      && (rs[i].IsTombstone() || rs[i].IsActive())
  {
    hide EncodeAll, ReadAt, Layout;
    forall i | 0 <= i < |rs|
      ensures ReadAt(c, file, Layout(c, rs, base)[i].offset) == Some(rs[i])
      ensures rs[i].IsTombstone() || rs[i].IsActive()
    {
      LayoutReads(c, file, base, rs, i);
      assert Writable(c, rs[i]);
    }
  }

  lemma {:induction false} WriteIds(c: Codec, db: Db, buf: bytes, plan: Plan, fault: Fault)
    requires IdsOk(db) && ActiveOk(db) && !db.failed
    ensures
      var o := WriteStage(c, db, buf, plan, fault);
      && Grows(db.disk, o.db.disk)
      && IdsOk(o.db) && ActiveOk(o.db)
      && o.db.segmentCounter == db.segmentCounter && o.db.compactionCounter == db.compactionCounter
      && o.db.activeId == db.activeId
      && forall k :: k in o.db.idx.primary ==>
           (k in db.idx.primary && o.db.idx.primary[k] == db.idx.primary[k]) || o.db.idx.primary[k].segmentId == db.activeId
  {
    hide ApplyAll;
    ApplyAllPointers(c, db.idx, db.activeId, db.activeSize, plan.records);
  }

  lemma {:induction false} FlushOk(cfg: Config, s: Sys, s': Sys, clock: Clock, batch: seq<LogEntry>, fault: Fault)
    requires cfg.codec.Lawful() && SysOk(cfg.codec, s) && FlushStep(cfg, s, s', clock, batch, fault)
    ensures SysOk(cfg.codec, s')
  {
    hide Serves, FreshFrom, IdsOk, ActiveOk, PhaseOk, RollOver, WriteStage, Fold, PlanAll, Grows, AllWritable, EncodeAll;
    var c, db, plan := cfg.codec, s.db, PlanBatch(cfg, s.db, clock, batch);
    var buf := EncodeAll(c, plan.records);
    PlanWrites(cfg, db, clock, batch);
    RollOverGrows(db, fault);
    if db.activeSize + |buf| > cfg.maxSegmentSize {
      var rolled := RollOver(db, fault);
      ServesGrows(c, db.disk, rolled.db.disk, db.idx, s.view);
      PhaseGrows(c, db, rolled.db, s.phase);
      if rolled.ok {
        WriteServes(c, rolled.db, s.view, plan, fault);
        WriteIds(c, rolled.db, buf, plan, fault);
        var w := WriteStage(c, rolled.db, buf, plan, fault);
        PhaseGrows(c, rolled.db, w.db, s.phase);
      }
    } else {
      WriteServes(c, db, s.view, plan, fault);
      WriteIds(c, db, buf, plan, fault);
      var w := WriteStage(c, db, buf, plan, fault);
      PhaseGrows(c, db, w.db, s.phase);
    }
  }

  // ---------- Compaction's own steps ----------

  lemma {:induction false} LiveLeads(c: Codec, d: Disk, idx: Index, view: map<string, Record>, k: string)
    requires Serves(c, d, idx, view) && k in idx.primary
    ensures k in view && Leads(c, d, k, idx.primary[k]) && ReadRecord(c, d, idx.primary[k]) == Some(view[k])
  {
    hide ReadRecord, Writable, Accounted;
    assert Holds(idx, k, view[k]);
  }

  lemma {:induction false} VisitOk(c: Codec, s: Sys, s': Sys, k: string)
    requires SysOk(c, s) && VisitStep(s, s', k)
    ensures SysOk(c, s')
  {
    hide Serves, FreshFrom, ActiveOk, Leads;
    if k in s.db.idx.primary {
      LiveLeads(c, s.db.disk, s.db.idx, s.view, k);
    }
  }

  lemma {:induction false} LeadsGrows(c: Codec, d: Disk, d': Disk, k: string, p: LogPointer)
    requires Grows(d, d') && Leads(c, d, k, p)
    ensures Leads(c, d', k, p) && ReadRecord(c, d', p) == ReadRecord(c, d, p)
  {
    ReadGrows(c, d, d', p);
  }

  /** The copy reads back as the record it was made from. */
  lemma {:induction false} CopyReads(c: Codec, file: bytes, r: Record)
    requires c.Lawful() && Writable(c, r)
    ensures ReadAt(c, file + EncodeFrame(c, r), |file|) == Some(r)
  {
    hide ReadAt, EncodeFrame;
    var file', f := file + EncodeFrame(c, r), EncodeFrame(c, r);
    assert file'[|file|..|file| + |f|] == f;
    FrameRoundTrip(c, r, file', |file|);
  }

  lemma {:induction false} CopyOk(c: Codec, s: Sys, s': Sys, k: string)
    requires c.Lawful() && SysOk(c, s) && CopyStep(c, s, s', k)
    ensures SysOk(c, s')
  {
    hide Serves, FreshFrom, Leads, ReadRecord, EncodeFrame;
    var d, d' := s.db.disk, s'.db.disk;
    assert Grows(d, d');
    ServesGrows(c, d, d', s.db.idx, s.view);
    assert
      && (forall j :: j in s'.phase.todo ==> Leads(c, s'.db.disk, j, s'.phase.todo[j]))
      && (forall j :: j in s'.phase.moved ==> Copied(c, s'.db.disk, s.phase.out, j, s'.phase.moved[j])) by {
      var d, d' := s.db.disk, s'.db.disk;
      forall j | j in s.phase.todo
        ensures Leads(c, d', j, s.phase.todo[j])
      {
        LeadsGrows(c, d, d', j, s.phase.todo[j]);
      }
      forall j | j in s.phase.moved
        ensures Copied(c, d', s.phase.out, j, s.phase.moved[j])
      {
        assert Copied(c, d', s.phase.out, j, s.phase.moved[j]) by {
          LeadsGrows(c, d, d', j, s.phase.moved[j].from);
          LeadsGrows(c, d, d', j, s.phase.moved[j].to);
        }
      }
      NewCopy(c, s, s', k);
    }
  }

  lemma {:induction false} NewCopy(c: Codec, s: Sys, s': Sys, k: string)
    requires c.Lawful() && CopyStep(c, s, s', k) && Grows(s.db.disk, s'.db.disk)
    requires Leads(c, s.db.disk, k, s.phase.todo[k])
    ensures Copied(c, s'.db.disk, s.phase.out, k, s'.phase.moved[k])
  {
    hide Writable, ReadAt, EncodeFrame;
    var d, out := s.db.disk, Segment(s.phase.out);
    CopyReads(c, d.dir[out], ReadRecord(c, d, s.phase.todo[k]).value);
    LeadsGrows(c, d, s'.db.disk, k, s.phase.todo[k]);
  }

  lemma {:induction false} SealOk(c: Codec, s: Sys, s': Sys)
    requires SysOk(c, s) && (SealStep(s, s') || SyncOutStep(s, s'))
    ensures SysOk(c, s')
  {
    hide Serves, FreshFrom, Leads;
    var d, d' := s.db.disk, s'.db.disk;
    assert Grows(d, d');
    ServesGrows(c, d, d', s.db.idx, s.view);
    forall j | j in s.phase.moved
      ensures Copied(c, d', s.phase.out, j, s.phase.moved[j])
    {
      assert Copied(c, d', s.phase.out, j, s.phase.moved[j]) by {
        LeadsGrows(c, d, d', j, s.phase.moved[j].from);
        LeadsGrows(c, d, d', j, s.phase.moved[j].to);
      }
    }
  }

  // ---------- The swap ----------

  /** Swapping one key changes where its record is read from, and nothing else. */
  lemma {:induction false} SwapOneServes(c: Codec, d: Disk, idx: Index, view: map<string, Record>, k: string, out: nat, m: Move)
    requires Serves(c, d, idx, view) && Copied(c, d, out, k, m)
    ensures
      var idx' := SwapOne(idx, k, ReadRecord(c, d, m.to).value.stream, m);
      && Serves(c, d, idx', view)
      && (forall q :: FreshSeq(idx, q) ==> FreshSeq(idx', q))
      && idx'.primary.Keys == idx.primary.Keys
      && (forall j :: j in idx.primary && j != k ==> idx'.primary[j] == idx.primary[j])
      && (k in idx.primary ==> idx'.primary[k] == if idx.primary[k] == m.from then m.to else idx.primary[k])
  {
    hide ReadRecord, Writable, TimeEntries, Accounted;
    if k in idx.primary && idx.primary[k] == m.from {
      LiveLeads(c, d, idx, view, k);
      assert Holds(idx, k, view[k]);
      SwapKeepsCount(c, idx, k, view[k], m);
      var idx' := SwapOne(idx, k, view[k].stream, m);
      forall j | j in view
        ensures Holds(idx', j, view[j])
      {
        assert Holds(idx, j, view[j]);
      }
      assert idx'.primary.Keys == idx.primary.Keys;
    }
  }

  /** A re-pointed time entry replaces the old one under the same timestamp and sequence id. */
  lemma {:induction false} SwapKeepsCount(c: Codec, idx: Index, k: string, r: Record, m: Move)
    requires Holds(idx, k, r) && idx.primary[k] == m.from
    requires m.to.seqId == r.seqId && m.to.timestamp == r.timestamp
    ensures
      var idx' := SwapOne(idx, k, r.stream, m);
      && TimeEntries(idx'.times) == TimeEntries(idx.times)
      && (Accounted(c, idx) ==> Accounted(c, idx'))
  {
    hide SumCharge;
    var idx' := SwapOne(idx, k, r.stream, m);
    forall s: string, e: (int, nat)
      ensures (s, e) in TimeEntries(idx'.times) <==> (s, e) in TimeEntries(idx.times)
    {
      assert s in idx'.times <==> s in idx.times;
      assert s in idx.times ==> (e in idx'.times[s] <==> e in idx.times[s]);
    }
    assert idx'.primary.Keys == idx.primary.Keys;
  }

  /** After the swap of `order`, every key is served as before and no key of `order` needs an input. */
  lemma {:induction false} SwapAllServes(c: Codec, d: Disk, idx: Index, view: map<string, Record>, moved: map<string, Move>, out: nat, order: seq<string>, next: nat)
    requires Serves(c, d, idx, view) && FreshFrom(idx, next)
    requires forall k :: k in moved ==> Copied(c, d, out, k, moved[k])
    requires forall i :: 0 <= i < |order| ==> order[i] in moved
    ensures
      var idx' := SwapAll(c, d, idx, moved, order);
      && Serves(c, d, idx', view) && FreshFrom(idx', next)
      && idx'.primary.Keys == idx.primary.Keys
      && (forall j :: j in idx.primary ==>
            idx'.primary[j] == if j in order && idx.primary[j] == moved[j].from then moved[j].to else idx.primary[j])
    decreases |order|
  {
    hide Serves, FreshSeq, Copied, SwapOne, ReadRecord;
    if order != [] {
      var init, k := order[..|order| - 1], order[|order| - 1];
      SwapAllServes(c, d, idx, view, moved, out, init, next);
      CopiedStream(c, d, out, k, moved[k]);
      SwapOneServes(c, d, SwapAll(c, d, idx, moved, init), view, k, out, moved[k]);
      assert order == init + [k];
      assert forall j :: j in order <==> j in init || j == k;
    }
  }

  lemma {:induction false} CopiedStream(c: Codec, d: Disk, out: nat, k: string, m: Move)
    requires Copied(c, d, out, k, m)
    ensures ReadRecord(c, d, m.to).Some? && m.to.segmentId == out
  {
  }

  lemma {:induction false} SwapOk(c: Codec, s: Sys, s': Sys, order: seq<string>)
    requires SysOk(c, s) && SwapStep(c, s, s', order)
    ensures SysOk(c, s')
  {
    hide Serves, FreshSeq, Copied, SwapAll;
    SwapAllServes(c, s.db.disk, s.db.idx, s.view, s.phase.moved, s.phase.out, order, s.db.nextSeq);
    forall k | k in s'.db.idx.primary
      ensures s'.db.idx.primary[k].segmentId !in s.phase.inputs
    {
      if k in s.phase.moved {
        CopiedStream(c, s.db.disk, s.phase.out, k, s.phase.moved[k]);
      }
    }
  }

  // ---------- Unlinks ----------

  /** Removing a file no live pointer leads to changes nothing that is served. */
  lemma {:induction false} UnlinkOk(c: Codec, s: Sys, s': Sys, id: nat)
    requires SysOk(c, s) && UnlinkStep(s, s', id)
    ensures SysOk(c, s')
  {
    hide Represents, Accounted, Writable, FreshFrom, ReadAt;
    forall k | k in s.view
      ensures ReadRecord(c, s'.db.disk, s.db.idx.primary[k]) == Some(s.view[k])
    {
      assert s.db.idx.primary[k].segmentId != id;
    }
  }

  lemma {:induction false} OtherStepsOk(c: Codec, s: Sys, s': Sys)
    requires SysOk(c, s)
    requires (exists id :: UnlinkFailStep(s, s', id)) || FinishStep(s, s') || FinishFailStep(s, s') || AbortStep(s, s')
    ensures SysOk(c, s')
  {
    hide FreshFrom;
    assert Grows(s.db.disk, s'.db.disk);
    ServesGrows(c, s.db.disk, s'.db.disk, s.db.idx, s.view);
    hide Serves;
  }

  lemma {:induction false} CopyFailOk(c: Codec, s: Sys, s': Sys, k: string, t: nat)
    requires SysOk(c, s) && CopyFailStep(c, s, s', k, t)
    ensures SysOk(c, s')
  {
    hide FreshFrom, EncodeFrame, ReadRecord, Copied, Leads;
    assert Grows(s.db.disk, s'.db.disk);
    ServesGrows(c, s.db.disk, s'.db.disk, s.db.idx, s.view);
    hide Serves;
  }

  // ---------- Every interleaving ----------

  lemma {:induction false} StepOk(cfg: Config, s: Sys, s': Sys)
    requires cfg.codec.Lawful() && SysOk(cfg.codec, s) && Next(cfg, s, s')
    ensures SysOk(cfg.codec, s')
  {
    var c := cfg.codec;
    if clock, batch, fault :| FlushStep(cfg, s, s', clock, batch, fault) {
      FlushOk(cfg, s, s', clock, batch, fault);
    } else if BeginStep(s, s') {
    } else if k :| VisitStep(s, s', k) {
      VisitOk(c, s, s', k);
    } else if CreateStep(s, s') {
      assert SysOk(c, s') by {
        var d, d' := s.db.disk, s'.db.disk;
        assert Grows(d, d');
        ServesGrows(c, d, d', s.db.idx, s.view);
        forall k | k in s.phase.picked
          ensures Leads(c, d', k, s.phase.picked[k])
        {
          LeadsGrows(c, d, d', k, s.phase.picked[k]);
        }
      }
    } else if k :| CopyStep(c, s, s', k) {
      CopyOk(c, s, s', k);
    } else if k, t :| CopyFailStep(c, s, s', k, t) {
      CopyFailOk(c, s, s', k, t);
    } else if SealStep(s, s') || SyncOutStep(s, s') {
      SealOk(c, s, s');
    } else if order :| SwapStep(c, s, s', order) {
      SwapOk(c, s, s', order);
    } else if id :| UnlinkStep(s, s', id) {
      UnlinkOk(c, s, s', id);
    } else {
      OtherStepsOk(c, s, s');
    }
  }

  ghost predicate Run(cfg: Config, ss: seq<Sys>)
  {
    ss != [] && forall i :: 0 <= i < |ss| - 1 ==> Next(cfg, ss[i], ss[i + 1])
  }

  /**
   * In every interleaving of group commits with compaction, at every moment: each key reads, through
   * the index, exactly what the plain map of writes holds, and no pointer leads into a removed file.
   */
  lemma {:induction false} InterleavingsServe(cfg: Config, ss: seq<Sys>, i: nat)
    requires cfg.codec.Lawful() && Run(cfg, ss) && SysOk(cfg.codec, ss[0]) && i < |ss|
    ensures SysOk(cfg.codec, ss[i])
    ensures
      var idx, d, view := ss[i].db.idx, ss[i].db.disk, ss[i].view;
      && idx.primary.Keys == view.Keys
      && forall k :: k in view ==>
           && Segment(idx.primary[k].segmentId) in d.dir
           && ReadRecord(cfg.codec, d, idx.primary[k]) == Some(view[k])
  {
    hide Next, ReadAt, Holds;
    if i > 0 {
      InterleavingsServe(cfg, ss, i - 1);
      assert Next(cfg, ss[i - 1], ss[i - 1 + 1]);
      hide SysOk;
      StepOk(cfg, ss[i - 1], ss[i]);
    }
  }

  /** Compaction never has to give up because a live record cannot be read, nor for want of a free id. */
  lemma {:induction false} CompactionProceeds(c: Codec, s: Sys)
    requires SysOk(c, s)
    ensures s.phase.Copying? ==> forall k :: k in s.phase.todo ==>
      Segment(s.phase.out) in s.db.disk.dir && ReadRecord(c, s.db.disk, s.phase.todo[k]).Some?
    ensures Segment(s.db.compactionCounter) !in s.db.disk.dir
    ensures s.db.segmentCounter < COMPACTION_ID_BASE ==> Segment(s.db.segmentCounter) !in s.db.disk.dir
  {
    hide Serves, FreshFrom, ReadRecord;
  }
}
