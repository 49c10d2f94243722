/**
 * The flusher's write stage: roll the segment over when the batch does not fit, write, sync, apply
 * to the indexes, acknowledge. Every step may fail, and `trace` lists the disk at each point where
 * the process may die.
 */
module Flusher {
  import opened Bytes
  import opened Types
  import opened Frames
  import opened Index
  import opened Disk
  import opened GroupCommit
  import opened FlushIndex

  /** `u64::MAX / 2`: ids from here on are reserved for compaction output. */
  const COMPACTION_ID_BASE: nat := 0x7FFF_FFFF_FFFF_FFFF

  datatype Db = Db(
    disk: Disk,
    idx: Index,
    nextSeq: nat,
    activeId: nat,
    activeSize: nat,
    fileOpen: bool,
    failed: bool,
    segmentCounter: nat,
    compactionCounter: nat)

  datatype Config = Config(codec: Codec, maxSegmentSize: nat, budget: nat)

  /** What the environment does to one flush. */
  datatype Fault =
    | NoFault
    | OldSyncFails
    | CreateFails
    | DirSyncFails
    | WriteFails(written: nat)
    | SyncFails

  datatype Outcome = Outcome(db: Db, ok: bool, trace: seq<Disk>)

  /** `OpenOptions::create(true).append(true)`: an existing file keeps its bytes. */
  function OpenAppend(d: Disk, p: Path): Disk
  {
    if p in d.dir then d.(creates := d.creates + {p}) else Create(d, p)
  }

  function RollOver(db: Db, fault: Fault): Outcome
    requires Segment(db.activeId) in db.disk.dir
  {
    if db.fileOpen && fault.OldSyncFails? then Outcome(db.(fileOpen := false, failed := true), false, []) else
    var d1 := if db.fileOpen then Sync(db.disk, Segment(db.activeId)) else db.disk;
    var newId := db.segmentCounter;
    var db1 := db.(disk := d1, fileOpen := false, segmentCounter := newId + 1);
    if newId >= COMPACTION_ID_BASE then Outcome(db1, false, [d1]) else
    if fault.CreateFails? then Outcome(db1.(activeId := newId, failed := true), false, [d1]) else
    var d2 := OpenAppend(d1, Segment(newId));
    var db2 := db1.(disk := d2, activeId := newId);
    if fault.DirSyncFails? then Outcome(db2.(failed := true), false, [d1, d2]) else
    var d3 := DirSync(d2);
    Outcome(db2.(disk := d3, fileOpen := true, activeSize := 0), true, [d1, d2, d3])
  }

  function Prefix(buf: bytes, n: nat): bytes
  {
    if n < |buf| then buf[..n] else buf
  }

  function WriteStage(c: Codec, db: Db, buf: bytes, plan: Plan, fault: Fault): Outcome
    requires db.fileOpen ==> Segment(db.activeId) in db.disk.dir
  {
    if !db.fileOpen then Outcome(db.(failed := true), false, []) else
    var p := Segment(db.activeId);
    if fault.WriteFails? then Outcome(db.(disk := Append(db.disk, p, Prefix(buf, fault.written)), failed := true), false, []) else
    var d1 := Append(db.disk, p, buf);
    if fault.SyncFails? then Outcome(db.(disk := d1, failed := true), false, [d1]) else
    var d2 := Sync(d1, p);
    Outcome(
      db.(disk := d2,
          idx := ApplyAll(c, db.idx, db.activeId, db.activeSize, plan.records),
          activeSize := db.activeSize + |buf|,
          nextSeq := plan.nextSeq),
      true, [d1, d2])
  }

  function Commit(cfg: Config, db: Db, plan: Plan, fault: Fault): Outcome
    requires Segment(db.activeId) in db.disk.dir
  {
    var buf := EncodeAll(cfg.codec, plan.records);
    if db.activeSize + |buf| > cfg.maxSegmentSize then
      var rolled := RollOver(db, fault);
      if !rolled.ok then rolled else
      var w := WriteStage(cfg.codec, rolled.db, buf, plan, fault);
      Outcome(w.db, w.ok, rolled.trace + w.trace)
    else
      WriteStage(cfg.codec, db, buf, plan, fault)
  }

  function PlanBatch(cfg: Config, db: Db, clock: Clock, batch: seq<LogEntry>): Plan
  {
    PlanAll(cfg.codec, db.idx.primary.Keys, cfg.budget, clock, StartPlan(db.nextSeq, db.idx.ram), batch)
  }

  function Flush(cfg: Config, db: Db, clock: Clock, batch: seq<LogEntry>, fault: Fault): Outcome
    requires Segment(db.activeId) in db.disk.dir
  {
    Commit(cfg, db, PlanBatch(cfg, db, clock, batch), fault)
  }

  /** After an error every entry is answered with the failure, unless its rejection was already sent. */
  function FailAck(a: Ack, e: LogEntry): Ack
  {
    if a.IndexRam? || e.Shutdown? then a else Failed
  }

  function Answer(plan: Plan, ok: bool, batch: seq<LogEntry>): (acks: seq<Ack>)
    requires |plan.acks| == |batch|
    ensures |acks| == |batch|
  {
    if ok then plan.acks
    else seq(|batch|, i requires 0 <= i < |batch| => FailAck(plan.acks[i], batch[i]))
  }

  /** A failed write, sync or rollover is never followed by a successful acknowledgement. */
  lemma {:induction false} NoAckAfterFailure(cfg: Config, db: Db, clock: Clock, batch: seq<LogEntry>, fault: Fault)
    requires Segment(db.activeId) in db.disk.dir
    requires |PlanBatch(cfg, db, clock, batch).acks| == |batch|
    ensures
      var o := Flush(cfg, db, clock, batch, fault);
      var acks := Answer(PlanBatch(cfg, db, clock, batch), o.ok, batch);
      && (!o.ok ==> forall i :: 0 <= i < |acks| ==> !acks[i].Committed? || batch[i].Shutdown?)
      && (fault.WriteFails? || fault.SyncFails? ==> !o.ok)
      && (o.db.failed && !db.failed ==> !o.ok)
      && (o.ok ==> |o.trace| > 0 && o.trace[|o.trace| - 1] == o.db.disk)
  {
  }
}
