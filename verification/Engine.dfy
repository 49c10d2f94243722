/**
 * The storage engine as an object: its files, its two indexes with their byte count, and its counters,
 * updated in place by the flusher, by recovery and by compaction.
 */
module Engine {
  import opened Wrappers
  import opened Bytes
  import opened Types
  import opened Frames
  import opened Index
  import opened LogMerge
  import opened Disk
  import opened GroupCommit
  import opened FlushIndex
  import opened Flusher
  import opened Resync
  import opened Recovery
  import opened Shelves
  import opened ShelfReplay
  import opened TimeIndex
  import opened QueryPaths
  import opened Compaction
  import opened CompactionFrames
  import opened Survival
  import opened CompactionSteps
  import opened CompactionCrash
  import opened Reopen
  import DiskView

  // ---------- Loop steps of the specification ----------

  lemma {:induction false} PlanSnoc(c: Codec, primary: set<string>, budget: nat, clock: Clock, p: Plan, done: seq<LogEntry>, e: LogEntry)
    ensures PlanAll(c, primary, budget, clock, p, done + [e]) ==
      PlanEntry(c, primary, budget, clock, PlanAll(c, primary, budget, clock, p, done), e)
    decreases |done|
  {
    hide PlanEntry;
    if done == [] {
      assert done + [e] == [e] && [e][1..] == [];
    } else {
      assert (done + [e])[1..] == done[1..] + [e];
      PlanSnoc(c, primary, budget, clock, PlanEntry(c, primary, budget, clock, p, done[0]), done[1..], e);
    }
  }

  lemma {:induction false} ApplyAllSnoc(c: Codec, idx: Index, segment: nat, offset: nat, rs: seq<Record>, r: Record)
    ensures ApplyAll(c, idx, segment, offset, rs + [r]) ==
      Apply(c, ApplyAll(c, idx, segment, offset, rs), r, PointerTo(segment, offset + |EncodeAll(c, rs)|, r))
    decreases |rs|
  {
    hide EncodeFrame, Apply;
    if rs == [] {
      assert rs + [r] == [r] && [r][1..] == [];
    } else {
      assert (rs + [r])[1..] == rs[1..] + [r];
      ApplyAllSnoc(c, Apply(c, idx, rs[0], PointerTo(segment, offset, rs[0])), segment, offset + |EncodeFrame(c, rs[0])|, rs[1..], r);
    }
  }

  lemma {:induction false} EncodeSnoc(c: Codec, rs: seq<Record>, r: Record)
    ensures EncodeAll(c, rs + [r]) == EncodeAll(c, rs) + EncodeFrame(c, r)
  {
    hide EncodeFrame;
    EncodeAllConcat(c, rs, [r]);
    assert [r][1..] == [];
    assert EncodeFrame(c, r) + [] == EncodeFrame(c, r);
  }

  /** The writes that frame one record: header fields, then the payload they describe. */
  method FrameRecord(c: Codec, frameBuf: bytes, r: Record) returns (buf: bytes)
    ensures buf == frameBuf + EncodeFrame(c, r)
  {
    hide BE, Payload;
    var localBuf := Payload(c, r.stream, r.key, r.value);
    buf := frameBuf + BE(r.seqId, 8);
    buf := buf + BE(I64ToU64(r.timestamp), 8);
    buf := buf + [r.typeTag];
    buf := buf + [r.flags];
    buf := buf + BE(|localBuf|, 4);
    buf := buf + BE(c.crc(localBuf), 4);
    buf := buf + localBuf;
    FieldsInOrder(frameBuf, BE(r.seqId, 8), BE(I64ToU64(r.timestamp), 8), r.typeTag, r.flags, BE(|localBuf|, 4), BE(c.crc(localBuf), 4), localBuf);
  }

  lemma {:induction false} FieldsInOrder(buf: bytes, seqId: bytes, time: bytes, tag: byte, flags: byte, len: bytes, crc: bytes, payload: bytes)
    ensures buf + seqId + time + [tag] + [flags] + len + crc + payload == buf + ((seqId + time + [tag, flags] + len + crc) + payload)
  {
    assert [tag, flags] == [tag] + [flags];
    var head := seqId + time + [tag] + [flags] + len + crc;
    assert buf + seqId + time + [tag] + [flags] + len + crc == buf + head;
  }

  class StorageEngine {
    const cfg: Config
    var disk: Disk
    var primary: map<string, LogPointer>
    var times: map<string, TimeMap>
    var ram: int
    var currentSeq: nat
    var activeId: nat
    var activeSize: nat
    var fileOpen: bool
    var failed: bool
    var segmentCounter: nat
    var compactionCounter: nat
    /** The disk at every point where the process could have died so far. */
    ghost var trace: seq<Disk>

    constructor (cfg: Config, disk: Disk)
      ensures this.cfg == cfg && this.disk == disk
      ensures Idx() == EMPTY_INDEX && trace == []
    {
      this.cfg := cfg;
      this.disk := disk;
      primary, times, ram := map[], map[], 0;
      currentSeq, activeId, activeSize := 1, 1, 0;
      fileOpen, failed := false, false;
      segmentCounter, compactionCounter := 2, COMPACTION_ID_BASE;
      trace := [];
    }

    function Idx(): Index
      reads this
    {
      Index(primary, times, ram)
    }

    function State(): Db
      reads this
    {
      Db(disk, Idx(), currentSeq, activeId, activeSize, fileOpen, failed, segmentCounter, compactionCounter)
    }

    // ---------- Index updates ----------

    /** `prune_timestamp_entry`. */
    method PruneTimestampEntry(stream: string, compound: string)
      modifies this`times, this`ram
      ensures Idx() == PruneTime(old(Idx()), stream, compound)
    {
      if compound !in primary || stream !in times {
        return;
      }
      var p := primary[compound];
      var entries := times[stream];
      if (p.timestamp, p.seqId) in entries {
        times := times[stream := entries - {(p.timestamp, p.seqId)}];
        ram := ram - TIME_NODE_BYTES;
      }
    }

    /** What is done with a frame that wins: prune, then remove or insert with the charges. */
    method ApplyFrame(r: Record, pointer: LogPointer)
      modifies this`primary, this`times, this`ram
      ensures Idx() == Apply(cfg.codec, old(Idx()), r, pointer)
    {
      var compound := r.Compound();
      var overhead := PrimaryCharge(cfg.codec, compound);
      if r.IsTombstone() {
        PruneTimestampEntry(r.stream, compound);
        if compound in primary {
          primary := primary - {compound};
          ram := ram - overhead;
        }
      } else if r.IsActive() {
        PruneTimestampEntry(r.stream, compound);
        var existed := compound in primary;
        primary := primary[compound := pointer];
        if !existed {
          ram := ram + overhead;
        }
        ram := ram + TIME_NODE_BYTES;
        var entries := if r.stream in times then times[r.stream] else map[];
        times := times[r.stream := entries[(pointer.timestamp, pointer.seqId) := pointer]];
      }
    }

    // ---------- Group commit ----------

    /** The budget check of one entry. */
    method ChargeEntry(items: seq<Item>, spent: int, newKeys: set<string>) returns (charge: Charge)
      ensures charge == ChargeItems(cfg.codec, primary.Keys, cfg.budget, spent, newKeys, items)
    {
      var projected, localNew := spent, newKeys;
      var i := 0;
      while i < |items|
        invariant i <= |items|
        invariant ChargeItems(cfg.codec, primary.Keys, cfg.budget, spent, newKeys, items) ==
                  ChargeItems(cfg.codec, primary.Keys, cfg.budget, projected, localNew, items[i..])
      {
        assert items[i..][1..] == items[i + 1..];
        var compound := items[i].Compound();
        if compound !in primary && compound !in localNew {
          var size := NewKeyCharge(cfg.codec, compound);
          if projected + size > cfg.budget {
            return Rejected(compound, projected + size);
          }
          projected := projected + size;
          localNew := localNew + {compound};
        }
        i := i + 1;
      }
      return Admitted(projected, localNew);
    }

    /** Frames of one admitted entry, appended to the frame buffer. */
    method FrameItems(clock: Clock, first: nat, items: seq<Item>, deletes: bool, frameBuf: bytes)
      returns (records: seq<Record>, buf: bytes)
      ensures records == Stamp(clock, first, items, deletes)
      ensures buf == frameBuf + EncodeAll(cfg.codec, records)
    {
      hide EncodeAll;
      records, buf := [], frameBuf;
      NothingEncoded(cfg.codec, frameBuf);
      for i := 0 to |items|
        invariant records == Stamp(clock, first, items, deletes)[..i]
        invariant buf == frameBuf + EncodeAll(cfg.codec, records)
      {
        var r := StampOne(clock, first + i, items[i], deletes);
        EncodeSnoc(cfg.codec, records, r);
        buf := FrameRecord(cfg.codec, buf, r);
        records := records + [r];
      }
    }

    /** Seals the old segment and opens a new one, in the order the original does. */
    method RollOverSegment(fault: Fault) returns (ok: bool)
      requires Segment(activeId) in disk.dir
      modifies this
      ensures
        var o := RollOver(old(State()), fault);
        State() == o.db && ok == o.ok && trace == old(trace) + o.trace
    {
      hide Sync, OpenAppend, DirSync;
      var wasOpen := fileOpen;
      fileOpen := false;
      if wasOpen && fault.OldSyncFails? {
        failed := true;
        return false;
      }
      if wasOpen {
        disk := Sync(disk, Segment(activeId));
      }
      trace := trace + [disk];
      var newId := segmentCounter;
      segmentCounter := segmentCounter + 1;
      if newId >= COMPACTION_ID_BASE {
        return false;
      }
      ok := CreateSegment(newId, fault);
    }

    /** Creates the new active file and makes its directory entry durable. */
    method CreateSegment(newId: nat, fault: Fault) returns (ok: bool)
      modifies this
      ensures ok == !(fault.CreateFails? || fault.DirSyncFails?)
      ensures
        var db := old(State());
        var d2 := OpenAppend(db.disk, Segment(newId));
        if fault.CreateFails? then
          State() == db.(activeId := newId, failed := true) && trace == old(trace)
        else if fault.DirSyncFails? then
          State() == db.(disk := d2, activeId := newId, failed := true) && trace == old(trace) + [d2]
        else
          && State() == db.(disk := DirSync(d2), activeId := newId, fileOpen := true, activeSize := 0)
          && trace == old(trace) + [d2, DirSync(d2)]
    {
      hide OpenAppend, DirSync;
      activeId := newId;
      if fault.CreateFails? {
        failed := true;
        return false;
      }
      disk := OpenAppend(disk, Segment(newId));
      trace := trace + [disk];
      if fault.DirSyncFails? {
        failed := true;
        return false;
      }
      disk := DirSync(disk);
      trace := trace + [disk];
      fileOpen := true;
      activeSize := 0;
      return true;
    }

    /** Writes and syncs the frame buffer, then applies its frames to the indexes in order. */
    method WriteBatch(frameBuf: bytes, plan: Plan, fault: Fault) returns (ok: bool)
      requires fileOpen ==> Segment(activeId) in disk.dir
      requires frameBuf == EncodeAll(cfg.codec, plan.records)
      modifies this
      ensures
        var o := WriteStage(cfg.codec, old(State()), frameBuf, plan, fault);
        State() == o.db && ok == o.ok && trace == old(trace) + o.trace
    {
      hide EncodeAll, ApplyAll, Sync, Prefix;
      if !fileOpen {
        failed := true;
        return false;
      }
      var path := Segment(activeId);
      if fault.WriteFails? {
        disk := Append(disk, path, Prefix(frameBuf, fault.written));
        failed := true;
        return false;
      }
      disk := Append(disk, path, frameBuf);
      trace := trace + [disk];
      if fault.SyncFails? {
        failed := true;
        return false;
      }
      disk := Sync(disk, path);
      trace := trace + [disk];
      var end := ApplyRecords(plan.records);
      activeSize := end;
      currentSeq := plan.nextSeq;
      return true;
    }

    /** Applies the frames just written, which start at `activeSize`, and finds where they end. */
    method ApplyRecords(rs: seq<Record>) returns (end: nat)
      modifies this`primary, this`times, this`ram
      ensures Idx() == ApplyAll(cfg.codec, old(Idx()), activeId, activeSize, rs)
      ensures end == activeSize + |EncodeAll(cfg.codec, rs)|
    {
      hide EncodeAll, EncodeFrame, Apply, ApplyAll;
      end := activeSize;
      NothingApplied(cfg.codec, Idx(), activeId, activeSize);
      for i := 0 to |rs|
        invariant end == activeSize + |EncodeAll(cfg.codec, rs[..i])|
        invariant Idx() == ApplyAll(cfg.codec, old(Idx()), activeId, activeSize, rs[..i])
      {
        assert rs[..i + 1] == rs[..i] + [rs[i]];
        ApplyAllSnoc(cfg.codec, old(Idx()), activeId, activeSize, rs[..i], rs[i]);
        EncodeSnoc(cfg.codec, rs[..i], rs[i]);
        ApplyFrame(rs[i], PointerTo(activeId, end, rs[i]));
        end := end + |EncodeFrame(cfg.codec, rs[i])|;
      }
      assert rs[..|rs|] == rs;
    }

    /**
     * `execute_batch_append`: admit and frame the entries, roll the segment over if the buffer does not
     * fit, write, sync, apply, answer.
     */
    method ExecuteBatchAppend(batch: seq<LogEntry>, clock: Clock, fault: Fault) returns (acks: seq<Ack>)
      requires Segment(activeId) in disk.dir
      modifies this
      ensures
        var o := Flush(cfg, old(State()), clock, batch, fault);
        && State() == o.db && trace == old(trace) + o.trace
        && var plan := PlanBatch(cfg, old(State()), clock, batch);
           && |plan.acks| == |batch|
           && acks == Answer(plan, o.ok, batch)
    {
      hide EncodeAll, PlanEntry, RollOver, WriteStage, ChargeItems, Stamp;
      var plan := StartPlan(currentSeq, ram);
      var frameBuf: bytes := [];
      NothingPlanned(cfg.codec, primary.Keys, cfg.budget, clock, plan);
      for i := 0 to |batch|
        invariant plan == PlanAll(cfg.codec, primary.Keys, cfg.budget, clock, StartPlan(currentSeq, ram), batch[..i])
        invariant frameBuf == EncodeAll(cfg.codec, plan.records) && |plan.acks| == i
        invariant State() == old(State()) && trace == old(trace)
      {
        assert batch[..i + 1] == batch[..i] + [batch[i]];
        PlanSnoc(cfg.codec, primary.Keys, cfg.budget, clock, StartPlan(currentSeq, ram), batch[..i], batch[i]);
        plan, frameBuf := AdmitEntry(plan, frameBuf, clock, batch[i]);
      }
      assert batch[..|batch|] == batch;
      var ok := true;
      if activeSize + |frameBuf| > cfg.maxSegmentSize {
        ok := RollOverSegment(fault);
      }
      if ok {
        OpenHasFile(old(State()), fault);
        ok := WriteBatch(frameBuf, plan, fault);
      }
      acks := SendAnswers(plan, ok, batch);
    }

    method AdmitEntry(plan: Plan, frameBuf: bytes, clock: Clock, e: LogEntry) returns (next: Plan, buf: bytes)
      requires frameBuf == EncodeAll(cfg.codec, plan.records)
      ensures next == PlanEntry(cfg.codec, primary.Keys, cfg.budget, clock, plan, e)
      ensures buf == EncodeAll(cfg.codec, next.records) && |next.acks| == |plan.acks| + 1
    {
      hide EncodeAll, ChargeItems, Stamp;
      if plan.stopped || e.Shutdown? {
        return plan.(acks := plan.acks + [NoReply], stopped := true), frameBuf;
      }
      var items := Items(e);
      var charge := Admitted(plan.spent, plan.newKeys);
      if !Deletes(e) {
        charge := ChargeEntry(items, plan.spent, plan.newKeys);
      }
      match charge {
        case Rejected(k, current) =>
          next := plan.(acks := plan.acks + [IndexRam(if e.Batch? then Some(k) else None, current)]);
          buf := frameBuf;
        case Admitted(spent, newKeys) =>
          var rs;
          rs, buf := FrameItems(clock, plan.nextSeq, items, Deletes(e), frameBuf);
          EncodeAllConcat(cfg.codec, plan.records, rs);
          next := Plan(plan.nextSeq + |items|, spent, newKeys, plan.records + rs, plan.acks + [Committed(rs)], false);
      }
    }

    method SendAnswers(plan: Plan, ok: bool, batch: seq<LogEntry>) returns (acks: seq<Ack>)
      requires |plan.acks| == |batch|
      ensures acks == Answer(plan, ok, batch)
    {
      if ok {
        return plan.acks;
      }
      acks := [];
      for i := 0 to |batch|
        invariant |acks| == i && forall j :: 0 <= j < i ==> acks[j] == FailAck(plan.acks[j], batch[j])
      {
        acks := acks + [FailAck(plan.acks[i], batch[i])];
      }
    }

    // ---------- Recovery ----------

    /** The merge rule on one replayed frame. */
    method ReplayFrame(r: Record, pointer: LogPointer, marks: map<string, nat>, highest: nat)
      returns (marks': map<string, nat>, highest': nat)
      modifies this`primary, this`times, this`ram
      ensures Merge(Idx(), marks', highest') == MergeStep(cfg.codec, Merge(old(Idx()), marks, highest), Placed(pointer, r))
    {
      hide Apply;
      var compound := r.Compound();
      highest' := if r.seqId > highest then r.seqId else highest;
      var newer := true;
      if compound in marks {
        newer := r.seqId > marks[compound];
      } else if compound in primary {
        newer := r.seqId > primary[compound].seqId;
      }
      marks' := marks;
      if newer {
        marks' := marks[compound := r.seqId];
        ApplyFrame(r, pointer);
      }
    }

    /** One segment of the replay pass: read frame after frame until the end or the first tear. */
    method ReplaySegment(id: nat, marks: map<string, nat>, highest: nat)
      returns (marks': map<string, nat>, highest': nat, summary: Summary, tear: Option<Tear>)
      requires Segment(id) in disk.dir
      modifies this`primary, this`times, this`ram
      ensures
        var r := Scan(cfg.codec, disk.dir[Segment(id)], 0);
        && Merge(Idx(), marks', highest') == MergeFrom(cfg.codec, Merge(old(Idx()), marks, highest), Places(id, r.frames))
        && summary == Summary(id, r.maxSeq, r.hasFrame)
        && tear == if r.tear.Some? then Some(Tear(id, r.stop, PrefixMax(r.frames), r.tear.value)) else None
    {
      hide Scan, FrameAt, MergeStep, MergeFrom, Places, PrefixMax;
      var c, file := cfg.codec, disk.dir[Segment(id)];
      ghost var start := Merge(Idx(), marks, highest);
      ghost var done: seq<Located> := [];
      marks', highest', tear := marks, highest, None;
      var offset: nat, segMaxSeq: nat, segHasFrame, maxPrefix: nat := 0, 0, false, 0;
      ReplayStart(c, start, id, file);
      while offset + HEADER_LEN <= |file|
        invariant offset <= |file|
        invariant Merge(Idx(), marks', highest') == MergeFrom(c, start, Places(id, done))
        invariant Halfway(c, file, offset, done, segMaxSeq, segHasFrame) && maxPrefix == PrefixMax(done)
        invariant tear.None?
        decreases |file| - offset
      {
        var frame := FrameAt(c, file, offset);
        ReplayTurn(c, file, offset, done, segMaxSeq, segHasFrame);
        match frame {
          case Bad(kind, seqId) =>
            if !kind.PayloadTear? {
              segMaxSeq := Max(segMaxSeq, seqId);
              segHasFrame := true;
            }
            tear := Some(Tear(id, offset, maxPrefix, kind));
            summary := Summary(id, segMaxSeq, segHasFrame);
            return;
          case Good(rec, len) =>
            var l := Located(offset, rec);
            PlacesSnoc(c, start, id, done, l);
            marks', highest' := ReplayFrame(rec, PointerTo(id, offset, rec), marks', highest');
            done := done + [l];
            segMaxSeq := Max(segMaxSeq, rec.seqId);
            segHasFrame := true;
            maxPrefix := Max(maxPrefix, rec.seqId);
            offset := offset + len;
        }
      }
      ReplayEnd(c, file, offset, done, segMaxSeq, segHasFrame);
      if offset < |file| {
        tear := Some(Tear(id, offset, maxPrefix, TrailingTear));
      }
      summary := Summary(id, segMaxSeq, segHasFrame);
    }

    /** The pass over all segments, in the order of the listing. */
    method ReplayAll(ids: seq<nat>) returns (highest: nat, summaries: seq<Summary>, tears: seq<Tear>)
      requires Idx() == EMPTY_INDEX && forall i :: 0 <= i < |ids| ==> Segment(ids[i]) in disk.dir
      modifies this`primary, this`times, this`ram
      ensures
        var pass := PassAll(cfg.codec, disk, ids);
        && Idx() == pass.merge.idx && highest == pass.merge.highest
        && summaries == pass.summaries && tears == pass.tears
    {
      hide Scan, MergeFrom, Places, PrefixMax;
      var marks: map<string, nat> := map[];
      highest, summaries, tears := 0, [], [];
      for i := 0 to |ids|
        invariant Pass(Merge(Idx(), marks, highest), summaries, tears) == PassAll(cfg.codec, disk, ids[..i])
      {
        PassSnoc(cfg.codec, disk, ids, i);
        var summary, tear;
        marks, highest, summary, tear := ReplaySegment(ids[i], marks, highest);
        summaries := summaries + (if ids[i] < COMPACTION_ID_BASE then [summary] else []);
        tears := tears + (if tear.Some? then [tear.value] else []);
      }
      assert ids[..|ids|] == ids;
    }

    /** A corrupt inactive segment: its keys leave the primary index one by one. */
    method RemoveSegmentKeys(segment: nat)
      modifies this`primary, this`ram
      ensures Idx() == DropSegmentKeys(cfg.codec, old(Idx()), segment)
    {
      hide SumCharge;
      var left := set k | k in primary && primary[k].segmentId == segment;
      ghost var gone, before, total := left, primary, ram;
      assert before - (gone - left) == before;
      while left != {}
        invariant left <= gone
        invariant primary == before - (gone - left)
        invariant ram == total - SumCharge(cfg.codec, gone) + SumCharge(cfg.codec, left)
        decreases |left|
      {
        var k :| k in left;
        SumChargeRemove(cfg.codec, left, k);
        assert gone - (left - {k}) == (gone - left) + {k};
        assert before - (gone - left) - {k} == before - ((gone - left) + {k});
        primary := primary - {k};
        ram := ram - PrimaryCharge(cfg.codec, k);
        left := left - {k};
      }
      NoCharge(cfg.codec);
      assert gone - {} == gone;
    }

    /** `next_salvage_id`. */
    method NextSalvageId(maxNormal: nat) returns (id: nat)
      ensures id == NextFree(SegmentIds(disk), maxNormal + 1)
    {
      id := maxNormal + 1;
      var ids := SegmentIds(disk);
      while id in ids
        invariant NextFree(SegmentIds(disk), maxNormal + 1) == NextFree(ids, id)
        decreases ids
      {
        ids := ids - {id};
        id := id + 1;
      }
    }

    /** A file created, written, synced, and its directory entry made durable. */
    method WriteFile(path: Path, content: bytes)
      modifies this`disk, this`trace
      ensures disk == WriteDurably(old(disk), path, content) && trace == old(trace) + DurablyPoints(old(disk), path, content)
    {
      disk := Create(disk, path);
      trace := trace + [disk];
      disk := Append(disk, path, content);
      trace := trace + [disk];
      disk := Sync(disk, path);
      trace := trace + [disk];
      disk := DirSync(disk);
      trace := trace + [disk];
    }

    /** The id in the marker of an earlier attempt, else a fresh one. */
    method ChooseTarget(marker: Path, maxNormal: nat) returns (target: nat)
      ensures target == SalvageTarget(disk, marker, maxNormal)
    {
      hide ReadMarker, NextFree;
      var existing := ReadMarker(disk, marker);
      if existing.Some? && 0 < existing.value.0 < COMPACTION_ID_BASE {
        target := existing.value.0;
      } else {
        target := NextSalvageId(maxNormal);
      }
    }

    /** The salvaged frames, unless an earlier attempt has written them. */
    method WriteTarget(marker: Path, target: nat, frames: bytes, reuse: bool)
      modifies this`disk, this`trace
      ensures disk == if reuse then old(disk) else WriteDurably(old(disk), Segment(target), frames)
      ensures trace == old(trace) + if reuse then [] else DurablyPoints(old(disk), Segment(target), frames)
    {
      hide WriteDurably, DurablyPoints;
      if !reuse {
        WriteFile(Segment(target), frames);
      }
    }

    /** Backup of the tail, truncation, marker gone. */
    method CutSource(segment: nat, offset: nat, marker: Path, tail: bytes)
      requires Segment(segment) in disk.dir && marker in disk.dir && marker == SalvageMarker(segment, offset)
      modifies this`disk, this`trace
      ensures
        var side := TornBackup(segment, offset);
        var backedUp := WriteDurably(old(disk), side, tail);
        && Segment(segment) in backedUp.dir
        && var truncated := TruncateSync(backedUp, Segment(segment), offset);
           && marker in truncated.dir
           && var removed := Unlink(truncated, marker);
              && disk == DirSync(removed)
              && trace == old(trace) + (DurablyPoints(old(disk), side, tail) + [truncated, removed, DirSync(removed)])
    {
      hide WriteDurably, DurablyPoints, SetLen;
      WrittenKeeps(disk, TornBackup(segment, offset), tail, Segment(segment));
      WrittenKeeps(disk, TornBackup(segment, offset), tail, marker);
      WriteFile(TornBackup(segment, offset), tail);
      disk := TruncateSync(disk, Segment(segment), offset);
      trace := trace + [disk];
      disk := Unlink(disk, marker);
      trace := trace + [disk];
      disk := DirSync(disk);
      trace := trace + [disk];
    }

    /** Marker, salvaged frames, backup of the tail, truncation, marker gone: each durable before the next. */
    method WriteSalvage(segment: nat, offset: nat, maxNormal: nat, frames: bytes) returns (target: nat)
      requires Segment(segment) in disk.dir && offset <= |disk.dir[Segment(segment)]|
      modifies this`disk, this`trace
      ensures
        var s := SalvageSteps(old(disk), segment, offset, maxNormal, frames);
        && target == s.target
        && disk == (if target < COMPACTION_ID_BASE then s.unmarked else old(disk))
        && trace == old(trace) + if target < COMPACTION_ID_BASE then SalvagePoints(old(disk), segment, offset, maxNormal, frames) else []
    {
      hide SalvageTarget, Reuses, SetLen, WriteDurably, DurablyPoints, TruncateSync, Unlink, DirSync, MarkerBytes;
      var source, marker := disk.dir[Segment(segment)], SalvageMarker(segment, offset);
      target := ChooseTarget(marker, maxNormal);
      if target >= COMPACTION_ID_BASE {
        return;
      }
      var reuse := Reuses(disk, marker, target, |frames|);
      ghost var d, before := disk, trace;
      WrittenKeeps(disk, marker, MarkerBytes(target, |frames|), Segment(segment));
      WriteFile(marker, MarkerBytes(target, |frames|));
      WrittenKeeps(disk, Segment(target), frames, Segment(segment));
      WrittenKeeps(disk, Segment(target), frames, marker);
      WriteTarget(marker, target, frames, reuse);
      ghost var s := SalvageSteps(d, segment, offset, maxNormal, frames);
      assert disk == s.salvaged;
      CutSource(segment, offset, marker, source[offset..]);
      JoinTraces(
        before, DurablyPoints(d, marker, MarkerBytes(target, |frames|)), if reuse then [] else DurablyPoints(s.marked, Segment(target), frames),
        DurablyPoints(s.salvaged, TornBackup(segment, offset), source[offset..]), [s.truncated, s.removed, s.unmarked]);
    }

    /** The bytes of the stranded frames, copied one by one. */
    method CopyRun(file: bytes, frames: seq<Stranded>) returns (run: bytes)
      ensures run == RunBytes(file, frames)
    {
      run := [];
      for i := 0 to |frames|
        invariant run == RunBytes(file, frames[..i])
      {
        assert frames[..i + 1][..i] == frames[..i];
        var f := frames[i];
        run := run + (if f.offset + f.len <= |file| then file[f.offset..f.offset + f.len] else []);
      }
      assert frames[..|frames|] == frames;
    }

    /** The valid frames behind a tear, up to the first break. */
    method FindStranded(file: bytes, tear: nat, now: int, minSeq: Option<nat>) returns (frames: seq<Stranded>)
      ensures frames == StrandedAfter(cfg.codec, file, tear, now, minSeq)
    {
      hide FirstCredible, Resync.Run;
      var resync := FindResync(cfg.codec, file, tear + 1, now, minSeq);
      if resync.None? {
        return [];
      }
      var end;
      frames, end := CollectStranded(cfg.codec, file, resync.value, now, minSeq);
    }

    /** A damaged segment is copied whole before Repair touches it. */
    method BackUpForRepair(segment: nat, needed: bool, file: bytes)
      requires Segment(segment) in disk.dir && disk.dir[Segment(segment)] == file
      modifies this`disk, this`trace
      ensures disk == if needed then WriteDurably(old(disk), RepairBackup(segment), file) else old(disk)
      ensures trace == old(trace) + if needed then DurablyPoints(old(disk), RepairBackup(segment), file) else []
      ensures Segment(segment) in disk.dir && disk.dir[Segment(segment)] == file
    {
      if needed {
        WriteFile(RepairBackup(segment), file);
      }
    }

    /** A torn tail is copied to its backup, then cut. */
    method CutTail(segment: nat, offset: nat, tail: bytes)
      requires Segment(segment) in disk.dir
      modifies this`disk, this`trace
      ensures
        var backedUp := WriteDurably(old(disk), TornBackup(segment, offset), tail);
        && Segment(segment) in backedUp.dir
        && disk == TruncateSync(backedUp, Segment(segment), offset)
        && trace == old(trace) + (DurablyPoints(old(disk), TornBackup(segment, offset), tail) + [disk])
    {
      hide WriteDurably, DurablyPoints, TruncateSync;
      WrittenKeeps(disk, TornBackup(segment, offset), tail, Segment(segment));
      WriteFile(TornBackup(segment, offset), tail);
      disk := TruncateSync(disk, Segment(segment), offset);
      trace := trace + [disk];
    }

    /** One deferred tear: refuse, salvage, skip or truncate. */
    method ProcessTear(mode: Mode, now: int, active: nat, t: Tear, maxNormal: nat, maxSegment: nat)
      returns (error: Option<Error>, maxNormal': nat, maxSegment': nat)
      modifies this`disk, this`primary, this`ram, this`trace
      ensures times == old(times)
      ensures Settled(Work(disk, Idx(), maxNormal', maxSegment'), error) ==
        Settle(cfg.codec, mode, now, active, Work(old(disk), old(Idx()), maxNormal, maxSegment), t)
      ensures trace == old(trace) + SettlePoints(cfg.codec, mode, now, active, Work(old(disk), old(Idx()), maxNormal, maxSegment), t)
    {
      hide SalvageSteps, SalvagePoints, SetLen, StrandedAfter, RunBytes, DropSegmentKeys, WriteDurably, DurablyPoints, TruncateSync;
      error, maxNormal', maxSegment' := None, maxNormal, maxSegment;
      if t.kind.TrailingTear? && t.segment != active {
        return;
      }
      var path := Segment(t.segment);
      if path !in disk.dir || t.offset >= |disk.dir[path]| {
        error := Some(IoError);
        return;
      }
      var file := disk.dir[path];
      var damaged := t.kind.CrcTear? || t.kind.ParseTear?;
      ghost var before := trace;
      BackUpForRepair(t.segment, mode.Repair? && damaged, file);
      ghost var first, d0 := trace[|before|..], disk;
      assert trace == before + first;
      var stranded := FindStranded(file, t.offset, now, MinSeq(t));
      if stranded != [] {
        if !mode.Repair? {
          error := Some(RecoveryRequired(t.segment, t.offset, |stranded|));
          return;
        }
        var run := CopyRun(file, stranded);
        var target := WriteSalvage(t.segment, t.offset, maxNormal, run);
        if target >= COMPACTION_ID_BASE {
          error := Some(OutOfSegmentIds);
          return;
        }
        JoinTwo(before, first, SalvagePoints(d0, t.segment, t.offset, maxNormal, run));
        maxNormal', maxSegment' := Max(maxNormal, target), Max(maxSegment, target);
        return;
      }
      if mode.Strict? && damaged {
        error := Some(StrictMismatch(t.segment, t.offset));
        return;
      }
      if t.segment != active && !t.kind.TrailingTear? {
        if damaged {
          RemoveSegmentKeys(t.segment);
        }
        return;
      }
      CutTail(t.segment, t.offset, file[t.offset..]);
      JoinThree(before, first, DurablyPoints(d0, TornBackup(t.segment, t.offset), file[t.offset..]), [disk]);
    }

    /** All deferred tears, in order; the first error ends recovery. */
    method ProcessTears(mode: Mode, now: int, active: nat, tears: seq<Tear>, maxNormal: nat, maxSegment: nat)
      returns (error: Option<Error>, maxNormal': nat, maxSegment': nat)
      modifies this`disk, this`primary, this`ram, this`trace
      ensures times == old(times)
      ensures Settled(Work(disk, Idx(), maxNormal', maxSegment'), error) ==
        SettleAll(cfg.codec, mode, now, active, Work(old(disk), old(Idx()), maxNormal, maxSegment), tears)
      ensures trace == old(trace) + SettleAllPoints(cfg.codec, mode, now, active, Work(old(disk), old(Idx()), maxNormal, maxSegment), tears)
    {
      hide Settle, SettlePoints;
      error, maxNormal', maxSegment' := None, maxNormal, maxSegment;
      ghost var start := Work(disk, Idx(), maxNormal, maxSegment);
      for i := 0 to |tears|
        invariant error.None? && times == old(times)
        invariant SettleAll(cfg.codec, mode, now, active, start, tears) ==
                  SettleAll(cfg.codec, mode, now, active, Work(disk, Idx(), maxNormal', maxSegment'), tears[i..])
        invariant old(trace) + SettleAllPoints(cfg.codec, mode, now, active, start, tears) ==
                  trace + SettleAllPoints(cfg.codec, mode, now, active, Work(disk, Idx(), maxNormal', maxSegment'), tears[i..])
      {
        assert tears[i..][1..] == tears[i + 1..];
        error, maxNormal', maxSegment' := ProcessTear(mode, now, active, tears[i], maxNormal', maxSegment');
        if error.Some? {
          return;
        }
      }
    }

    /** Creates the active file, durably, if it does not exist. */
    method OpenActiveFile(active: nat)
      modifies this`disk, this`trace
      ensures disk == OpenActive(old(disk), active) && Segment(active) in disk.dir
      ensures trace == old(trace) + OpenActivePoints(old(disk), active)
    {
      var path := Segment(active);
      if path !in disk.dir {
        disk := Create(disk, path);
        trace := trace + [disk];
        disk := DirSync(disk);
        trace := trace + [disk];
      }
    }

    /** The end of `recover`: the active segment is opened and the counters continue from what was found. */
    method SeedCounters(active: nat, highest: nat, maxNormal: nat, maxSegment: nat) returns (error: Option<Error>)
      modifies this`disk, this`trace, this`currentSeq, this`activeId, this`activeSize, this`fileOpen, this`segmentCounter, this`compactionCounter
      ensures trace == old(trace) + OpenActivePoints(old(disk), active)
      ensures disk == OpenActive(old(disk), active) && Segment(active) in disk.dir
      ensures
        var next := Max(maxNormal, active) + 1;
        if next >= COMPACTION_ID_BASE then error == Some(OutOfSegmentIds)
        else
          && error.None? && fileOpen && currentSeq == highest + 1 && activeId == active && activeSize == |disk.dir[Segment(active)]|
          && segmentCounter == next && compactionCounter == Max(maxSegment + 1, COMPACTION_ID_BASE)
    {
      currentSeq := highest + 1;
      activeId := active;
      OpenActiveFile(active);
      fileOpen := true;
      activeSize := |disk.dir[Segment(active)]|;
      var next := Max(maxNormal, active) + 1;
      if next >= COMPACTION_ID_BASE {
        return Some(OutOfSegmentIds);
      }
      segmentCounter := next;
      compactionCounter := Max(maxSegment + 1, COMPACTION_ID_BASE);
      return None;
    }

    /** `recover` and the seeding of the counters, on a sorted listing of the directory. */
    method Recover(mode: Mode, now: int, ids: seq<nat>) returns (error: Option<Error>)
      requires Idx() == EMPTY_INDEX && !failed && forall i :: 0 <= i < |ids| ==> Segment(ids[i]) in disk.dir
      modifies this
      ensures match Open(cfg.codec, mode, now, old(disk), ids)
        case Running(db) => error.None? && State() == db
        case Refused(d, e) => error == Some(e) && disk == d
      ensures trace == old(trace) + OpenPoints(cfg.codec, mode, now, old(disk), ids)
    {
      hide PassAll, SettleAll, SettleAllPoints, OpenActive, OpenActivePoints, ChooseActive, MaxId, MaxNormalId;
      var maxNormal, maxSegment := MaxIds(ids);
      var highest, summaries, tears := ReplayAll(ids);
      var active := ChooseActive(summaries);
      ghost var w := Work(disk, Idx(), maxNormal, maxSegment);
      error, maxNormal, maxSegment := ProcessTears(mode, now, active, tears, maxNormal, maxSegment);
      NoMorePoints(SettleAllPoints(cfg.codec, mode, now, active, w, tears));
      if error.Some? {
        return;
      }
      JoinTwo(old(trace), SettleAllPoints(cfg.codec, mode, now, active, w, tears), OpenActivePoints(disk, active));
      error := SeedCounters(active, highest, maxNormal, maxSegment);
    }

    method MaxIds(ids: seq<nat>) returns (maxNormal: nat, maxSegment: nat)
      ensures maxNormal == MaxNormalId(ids) && maxSegment == MaxId(ids)
    {
      maxNormal, maxSegment := 0, 0;
      for i := 0 to |ids|
        invariant maxNormal == MaxNormalId(ids[..i]) && maxSegment == MaxId(ids[..i])
      {
        assert ids[..i + 1][..i] == ids[..i];
        maxSegment := Max(maxSegment, ids[i]);
        if ids[i] < COMPACTION_ID_BASE {
          maxNormal := Max(maxNormal, ids[i]);
        }
      }
      assert ids[..|ids|] == ids;
    }

    // ---------- Reads ----------

    /** `get`: a point lookup through the primary index. */
    method Lookup(stream: string, key: string, ghost view: map<string, Record>) returns (r: Result<Option<Record>, string>)
      requires Represents(Idx(), view) && Reads(cfg.codec, disk, Idx(), view)
      ensures
        var k := CompoundKey(stream, key);
        r == Ok(if k in view then Some(view[k]) else None)
    {
      hide ReadRecord, Holds;
      var k := CompoundKey(stream, key);
      if k !in primary {
        return Ok(None);
      }
      var rec := ReadRecord(cfg.codec, disk, primary[k]);
      return if rec.Some? then Ok(rec) else Err("unreadable frame");
    }

    /**
     * `scan_by_time_range`: exactly the live records of the stream in the range, by timestamp and then
     * sequence id, whatever stale entries the time index holds.
     */
    method ScanByTimeRange(stream: string, start: int, end: int, ghost view: map<string, Record>) returns (records: seq<Record>)
      requires Represents(Idx(), view) && Reads(cfg.codec, disk, Idx(), view)
      ensures ByTime(records)
      ensures forall r :: r in records <==> LiveIn(view, stream, r) && start <= r.timestamp <= end
    {
      hide ReadRecord, LiveIn, Represents, Reads, ByTime, Lists, Accepts, Scanned;
      records := [];
      NothingRead();
      if stream !in times {
        NotTimed(Idx(), view, stream);
        return;
      }
      var pointers := RangeOf(times[stream], start, end);
      ghost var keys :| Lists(times[stream], start, end, pointers, keys);
      ghost var scan := TimeScan(cfg.codec, disk, Idx(), view, stream, start, end, pointers, keys);
      var seen: map<(string, string), nat> := map[];
      ScanStart(scan);
      for i := 0 to |pointers|
        invariant Scanned(scan, i, records)
        invariant forall d :: d in seen ==> seen[d] < |records| && (records[seen[d]].stream, records[seen[d]].key) == d
      {
        var p := pointers[i];
        var read := ReadRecord(cfg.codec, disk, p);
        if read.Some? && Accepts(Idx(), stream, start, end, p, read.value) {
          var rec := read.value;
          var d := (rec.stream, rec.key);
          TakenIsNew(scan, i, records);
          if d in seen {
            // The original overwrites the earlier copy of the key here; there never is one.
            assert false;
          } else {
            ScanPush(scan, i, records);
            seen := seen[d := |records|];
            records := records + [rec];
          }
        } else {
          ScanSkip(scan, i, records);
        }
      }
      ScanDone(scan, records);
    }

    /**
     * `scan_live_stream` without a caller's limit: all live records of the stream by sequence id, or an error
     * when there are `maxScan` of them or more.
     */
    method ScanLiveStream(stream: string, maxScan: nat, ghost view: map<string, Record>) returns (r: Result<seq<Record>, string>)
      requires Represents(Idx(), view) && Reads(cfg.codec, disk, Idx(), view)
      ensures r.Err? <==> |StreamKeys(view, stream)| >= maxScan
      ensures r.Ok? ==> BySeq(r.value) && forall x :: x in r.value <==> LiveIn(view, stream, x)
    {
      hide ReadRecord, LiveIn, Holds, BySeq, Reads;
      var left := primary.Keys;
      var records: seq<Record> := [];
      ghost var taken: set<string> := {};
      NothingRead();
      while left != {} && |records| < maxScan
        invariant left <= primary.Keys
        invariant taken == (set k | k in primary && k !in left && k in view && view[k].stream == stream)
        invariant |taken| == |records| && BySeq(records)
        invariant forall x :: x in records <==> exists k :: k in taken && view[k] == x
        decreases |left|
      {
        var k :| k in left;
        left := left - {k};
        var read := ReadRecord(cfg.codec, disk, primary[k]);
        ServedRecord(cfg.codec, disk, Idx(), view, k);
        if StartsWithStream(k, stream) && read.value.stream == stream {
          InsertNew(view, taken, k, records);
          records := InsertBySeq(records, read.value);
          taken := taken + {k};
        } else {
          OutsideStream(Idx(), view, stream, k);
        }
      }
      StreamCount(Idx(), view, stream, taken, left);
      if |records| >= maxScan {
        return Err("Scan result limit reached");
      }
      StreamMembers(view, stream, taken, records);
      return Ok(records);
    }

    // ---------- Compaction ----------

    /**
     * `compact`, run on its own: every iteration of its loops is a step of the interleaved system, so what
     * holds there holds here. On success the active segment and the output are all that is left, nothing is pending,
     * the same data is served, and no power loss from then on changes a database that is complete on disk.
     */
    method Compact(ghost view: map<string, Record>, ghost complete: bool) returns (compacted: bool)
      requires cfg.codec.Lawful() && !failed && Whole(cfg.codec, Sys(State(), view, NoCompaction), complete)
      modifies this`disk, this`primary, this`times, this`compactionCounter
      ensures Whole(cfg.codec, Sys(State(), view, NoCompaction), complete)
      ensures compacted <==> SegmentIds(old(disk)) - {activeId} != {}
      ensures compacted ==> forall id: nat :: id in SegmentIds(old(disk)) - {activeId} ==> Segment(id) !in disk.dir
      ensures compacted ==> forall id: nat :: Segment(id) in disk.dir <==> id == activeId || id == old(compactionCounter)
      ensures compacted ==> disk.creates == {} && disk.unlinks == map[]
      ensures compacted && complete ==> forall d' :: CrashOf(disk, d') ==> FoundAs(cfg.codec, d', view)
    {
      hide Whole, ReadRecord, EncodeFrame, SegmentIds, FoundAs, CrashOf;
      var inputs := SegmentIds(disk) - {activeId};
      if inputs == {} {
        return false;
      }
      InputsListed(disk, activeId);
      ActiveListed(cfg.codec, Sys(State(), view, NoCompaction), complete);
      ghost var s := Sys(State(), view, Walking(activeId, inputs, primary.Keys, map[]));
      StepKept(cfg, Sys(State(), view, NoCompaction), s, complete);
      var picked := WalkIndex(inputs, view, complete);
      s := Sys(State(), view, Walking(activeId, inputs, {}, picked));
      var out := compactionCounter;
      FreeOutput(cfg.codec, s, complete);
      compactionCounter := compactionCounter + 1;
      disk := Create(disk, Segment(out));
      StepKept(cfg, s, Sys(State(), view, Copying(inputs, out, picked, map[])), complete);
      var moved := CopyRecords(inputs, out, picked, view, complete);
      s := Sys(State(), view, Copying(inputs, out, map[], moved));
      OutputExists(cfg.codec, s, complete);
      disk := Sync(disk, Segment(out));
      disk := DirSync(disk);
      StepKept(cfg, s, Sys(State(), view, Sealed(inputs, out, moved)), complete);
      SwapPointers(inputs, out, moved, view, complete);
      UnlinkInputs(inputs, view, complete);
      s := Sys(State(), view, Unlinking(inputs, {}));
      disk := DirSync(disk);
      StepKept(cfg, s, Sys(State(), view, NoCompaction), complete);
      if complete {
        CompactedStays(cfg.codec, Sys(State(), view, NoCompaction));
      }
      return true;
    }

    /** The walk over the primary index: pointers into the listed segments. */
    method WalkIndex(ghost inputs: set<nat>, ghost view: map<string, Record>, ghost complete: bool) returns (picked: map<string, LogPointer>)
      requires cfg.codec.Lawful() && Whole(cfg.codec, Sys(State(), view, Walking(activeId, inputs, primary.Keys, map[])), complete)
      ensures Whole(cfg.codec, Sys(State(), view, Walking(activeId, inputs, {}, picked)), complete)
    {
      hide Whole;
      picked := map[];
      var left := primary.Keys;
      while left != {}
        invariant left <= primary.Keys
        invariant Whole(cfg.codec, Sys(State(), view, Walking(activeId, inputs, left, picked)), complete)
        decreases |left|
      {
        var k :| k in left;
        ghost var s := Sys(State(), view, Walking(activeId, inputs, left, picked));
        left := left - {k};
        if primary[k].segmentId != activeId {
          picked := picked[k := primary[k]];
        }
        assert VisitStep(s, Sys(State(), view, Walking(activeId, inputs, left, picked)), k);
        StepKept(cfg, s, Sys(State(), view, Walking(activeId, inputs, left, picked)), complete);
      }
    }

    /** Copies record after record to the end of the output. */
    method CopyRecords(ghost inputs: set<nat>, out: nat, picked: map<string, LogPointer>, ghost view: map<string, Record>, ghost complete: bool)
      returns (moved: map<string, Move>)
      requires cfg.codec.Lawful() && Whole(cfg.codec, Sys(State(), view, Copying(inputs, out, picked, map[])), complete)
      modifies this`disk
      ensures Whole(cfg.codec, Sys(State(), view, Copying(inputs, out, map[], moved)), complete)
      ensures disk.dir.Keys == old(disk.dir.Keys)
    {
      hide Whole, ReadRecord, EncodeFrame;
      var todo := picked;
      moved := map[];
      while todo.Keys != {}
        invariant Whole(cfg.codec, Sys(State(), view, Copying(inputs, out, todo, moved)), complete)
        invariant disk.dir.Keys == old(disk.dir.Keys)
        decreases |todo.Keys|
      {
        ghost var s := Sys(State(), view, Copying(inputs, out, todo, moved));
        var k :| k in todo.Keys;
        SourceReads(cfg.codec, s, k, complete);
        var from := todo[k];
        var record := ReadRecord(cfg.codec, disk, from).value;
        var to := PointerTo(out, |disk.dir[Segment(out)]|, record);
        disk := Append(disk, Segment(out), EncodeFrame(cfg.codec, record));
        moved := moved[k := Move(from, to)];
        todo := todo - {k};
        assert CopyStep(cfg.codec, s, Sys(State(), view, Copying(inputs, out, todo, moved)), k);
        StepKept(cfg, s, Sys(State(), view, Copying(inputs, out, todo, moved)), complete);
      }
      assert todo == map[];
    }

    /** Re-points every key that has not moved on, and its time entry. */
    method SwapPointers(ghost inputs: set<nat>, ghost out: nat, moved: map<string, Move>, ghost view: map<string, Record>, ghost complete: bool)
      requires cfg.codec.Lawful() && Whole(cfg.codec, Sys(State(), view, Sealed(inputs, out, moved)), complete)
      modifies this`primary, this`times
      ensures Whole(cfg.codec, Sys(State(), view, Unlinking(inputs, inputs)), complete)
    {
      hide Whole, ReadRecord, SwapAll;
      ghost var s := Sys(State(), view, Sealed(inputs, out, moved));
      ghost var before := Idx();
      var left := moved.Keys;
      ghost var order: seq<string> := [];
      NothingSwapped(cfg.codec, disk, before, moved);
      while left != {}
        invariant left <= moved.Keys
        invariant forall k :: k in order <==> k in moved && k !in left
        invariant Idx() == SwapAll(cfg.codec, disk, before, moved, order)
        decreases |left|
      {
        var k :| k in left;
        left := left - {k};
        var m := moved[k];
        var copy := ReadRecord(cfg.codec, disk, m.to);
        var stream := if copy.Some? then copy.value.stream else "";
        SwapSnoc(cfg.codec, disk, before, moved, order, k);
        if k in primary && primary[k] == m.from {
          if stream in times {
            times := times[stream := times[stream][(m.to.timestamp, m.to.seqId) := m.to]];
          }
          primary := primary[k := m.to];
        }
        order := order + [k];
      }
      assert SwapStep(cfg.codec, s, Sys(State(), view, Unlinking(inputs, inputs)), order);
      StepKept(cfg, s, Sys(State(), view, Unlinking(inputs, inputs)), complete);
    }

    /** Removes the listed segments in ascending order. */
    method UnlinkInputs(inputs: set<nat>, ghost view: map<string, Record>, ghost complete: bool)
      requires cfg.codec.Lawful() && Whole(cfg.codec, Sys(State(), view, Unlinking(inputs, inputs)), complete)
      requires forall id :: id in inputs ==> Segment(id) in disk.dir
      modifies this`disk
      ensures Whole(cfg.codec, Sys(State(), view, Unlinking(inputs, {})), complete)
      ensures forall id: nat :: Segment(id) in disk.dir <==> Segment(id) in old(disk.dir) && id !in inputs
    {
      hide Whole;
      var left := inputs;
      while left != {}
        invariant left <= inputs
        invariant forall id: nat :: id !in inputs ==> (Segment(id) in disk.dir <==> Segment(id) in old(disk.dir))
        invariant Whole(cfg.codec, Sys(State(), view, Unlinking(inputs, left)), complete)
        invariant forall id :: id in inputs ==> (Segment(id) in disk.dir <==> id in left)
        decreases |left|
      {
        ghost var s := Sys(State(), view, Unlinking(inputs, left));
        var id := Least(left);
        disk := Unlink(disk, Segment(id));
        left := left - {id};
        assert UnlinkStep(s, Sys(State(), view, Unlinking(inputs, left)), id);
        StepKept(cfg, s, Sys(State(), view, Unlinking(inputs, left)), complete);
      }
    }
  }

  // ---------- The loops take the steps of the interleaved system ----------

  method Least(s: set<nat>) returns (least: nat)
    requires s != {}
    ensures least in s && forall j :: j in s ==> least <= j
  {
    least :| least in s;
    var rest := s - {least};
    while rest != {}
      invariant rest <= s && least in s && forall j :: j in s && j !in rest ==> least <= j
      decreases |rest|
    {
      var j :| j in rest;
      rest := rest - {j};
      if j < least {
        least := j;
      }
    }
  }

  /** The whole invariant; and the database is all there is on disk, if that is asked. */
  ghost predicate Whole(c: Codec, s: Sys, complete: bool)
  {
    Keeps(c, s) && (complete ==> Complete(c, s))
  }

  lemma {:induction false} StepKept(cfg: Config, s: Sys, s': Sys, complete: bool)
    requires cfg.codec.Lawful() && Whole(cfg.codec, s, complete)
    requires
      || BeginStep(s, s') || (exists k :: VisitStep(s, s', k)) || CreateStep(s, s')
      || (exists k :: CopyStep(cfg.codec, s, s', k)) || SealStep(s, s')
      || (exists order :: SwapStep(cfg.codec, s, s', order)) || (exists id :: UnlinkStep(s, s', id)) || FinishStep(s, s')
    requires FinishStep(s, s') ==> forall id: nat :: id in s.phase.inputs ==> Segment(id) !in s'.db.disk.dir
    ensures Whole(cfg.codec, s', complete)
  {
    hide Keeps, Complete;
    StepKeeps(cfg, s, s');
  }

  lemma {:induction false} InputsListed(d: Disk, active: nat)
    ensures forall id :: id in SegmentIds(d) - {active} ==> Segment(id) in d.dir
  {
    hide SegmentIds;
    forall id | id in SegmentIds(d)
      ensures Segment(id) in d.dir
    {
      SegmentIdsIff(d, id);
    }
  }

  lemma {:induction false} ActiveListed(c: Codec, s: Sys, complete: bool)
    requires Whole(c, s, complete) && !s.db.failed
    ensures Segment(s.db.activeId) in s.db.disk.dir
    ensures forall id: nat :: Segment(id) in s.db.disk.dir <==> id == s.db.activeId || id in SegmentIds(s.db.disk) - {s.db.activeId}
  {
    forall id: nat
      ensures id in SegmentIds(s.db.disk) <==> Segment(id) in s.db.disk.dir
    {
      SegmentIdsIff(s.db.disk, id);
    }
    hide Serves, FreshFrom, FramesOk, Durable, Complete, IdsOk, PhaseOk, SegmentIds;
  }

  /** Replay of the directory finds the database. */
  ghost predicate FoundAs(c: Codec, d: Disk, view: map<string, Record>)
  {
    Consistent(DiskView.OnDisk(c, d)) && LiveView(DiskView.OnDisk(c, d)) == view
  }

  lemma {:induction false} CompactedStays(c: Codec, s: Sys)
    requires Whole(c, s, true) && s.phase.NoCompaction? && !s.db.failed && s.db.disk.unlinks == map[]
    ensures forall d' :: CrashOf(s.db.disk, d') ==> FoundAs(c, d', s.view)
  {
    hide SysOk, FramesOk, Durable, Complete, CrashOf, DiskView.OnDisk, LiveView, Consistent;
    forall d' | CrashOf(s.db.disk, d')
      ensures FoundAs(c, d', s.view)
    {
      CrashViewPlain(c, s, d');
    }
  }

  lemma {:induction false} FreeOutput(c: Codec, s: Sys, complete: bool)
    requires Whole(c, s, complete)
    ensures Segment(s.db.compactionCounter) !in s.db.disk.dir
  {
    hide SysOk, FramesOk, Durable, Complete;
    CompactionProceeds(c, s);
  }

  lemma {:induction false} OutputExists(c: Codec, s: Sys, complete: bool)
    requires Whole(c, s, complete) && s.phase.Copying?
    ensures Segment(s.phase.out) in s.db.disk.dir
  {
    hide Serves, FreshFrom, FramesOk, Durable, Complete, IdsOk, ActiveOk;
  }

  lemma {:induction false} SourceReads(c: Codec, s: Sys, k: string, complete: bool)
    requires Whole(c, s, complete) && s.phase.Copying? && k in s.phase.todo
    ensures Segment(s.phase.out) in s.db.disk.dir && ReadRecord(c, s.db.disk, s.phase.todo[k]).Some?
  {
    hide SysOk, FramesOk, Durable, Complete, ReadRecord;
    CompactionProceeds(c, s);
  }

  lemma {:induction false} NothingSwapped(c: Codec, d: Disk, idx: Index, moved: map<string, Move>)
    ensures SwapAll(c, d, idx, moved, []) == idx
  {
  }

  lemma {:induction false} SwapSnoc(c: Codec, d: Disk, idx: Index, moved: map<string, Move>, order: seq<string>, k: string)
    requires k in moved && forall i :: 0 <= i < |order| ==> order[i] in moved
    ensures
      var copy := ReadRecord(c, d, moved[k].to);
      SwapAll(c, d, idx, moved, order + [k]) ==
        SwapOne(SwapAll(c, d, idx, moved, order), k, if copy.Some? then copy.value.stream else "", moved[k])
  {
    hide ReadRecord, SwapOne;
    assert (order + [k])[..|order|] == order;
  }

  // ---------- Why the reads are right ----------

  predicate StartsWithStream(k: string, stream: string)
  {
    stream + ":" <= k
  }

  function InsertBySeq(rs: seq<Record>, r: Record): seq<Record>
  {
    if rs == [] || rs[|rs| - 1].seqId <= r.seqId then rs + [r] else InsertBySeq(rs[..|rs| - 1], r) + [rs[|rs| - 1]]
  }

  lemma {:induction false} InsertMember(rs: seq<Record>, r: Record)
    ensures forall x :: x in InsertBySeq(rs, r) <==> x in rs || x == r
    ensures |InsertBySeq(rs, r)| == |rs| + 1
  {
    if rs != [] && r.seqId < rs[|rs| - 1].seqId {
      InsertMember(rs[..|rs| - 1], r);
      assert rs == rs[..|rs| - 1] + [rs[|rs| - 1]];
    }
  }

  lemma {:induction false} InsertKeepsOrder(rs: seq<Record>, r: Record)
    requires BySeq(rs) && forall x :: x in rs ==> x.seqId != r.seqId
    ensures BySeq(InsertBySeq(rs, r))
  {
    if rs != [] {
      var init, last := rs[..|rs| - 1], rs[|rs| - 1];
      if r.seqId < last.seqId {
        InsertKeepsOrder(init, r);
        InsertMember(init, r);
        forall x | x in InsertBySeq(init, r)
          ensures x.seqId < last.seqId
        {
          if x in init {
            var i :| 0 <= i < |init| && init[i] == x;
            assert rs[i] == x;
          }
        }
      } else {
        forall i | 0 <= i < |rs|
          ensures rs[i].seqId < r.seqId
        {
          assert rs[i].seqId <= last.seqId;
        }
      }
    }
  }

  /** A stream without a time index has no live records. */
  lemma {:induction false} NotTimed(idx: Index, view: map<string, Record>, stream: string)
    requires Represents(idx, view) && stream !in idx.times
    ensures forall r :: !LiveIn(view, stream, r)
  {
    forall k | k in view
      ensures view[k].stream != stream
    {
      assert Holds(idx, k, view[k]);
    }
  }

  /** The checks a scan makes on a record it has read through the time index. */
  predicate Accepts(idx: Index, stream: string, start: int, end: int, p: LogPointer, r: Record)
  {
    && r.stream == stream && start <= r.timestamp <= end && !r.IsTombstone()
    && r.Compound() in idx.primary && idx.primary[r.Compound()] == p
  }

  /** What a time-range scan works on. */
  datatype TimeScan = TimeScan(c: Codec, d: Disk, idx: Index, view: map<string, Record>, stream: string, start: int, end: int,
                               pointers: seq<LogPointer>, keys: seq<TimeKey>)
  {
    ghost predicate Ready()
    {
      && Represents(idx, view) && Reads(c, d, idx, view)
      && stream in idx.times && Lists(idx.times[stream], start, end, pointers, keys)
    }

    /** The record the scan takes through pointer `i`, if any. */
    function Taken(i: nat): Option<Record>
      requires i < |pointers|
    {
      var read := ReadRecord(c, d, pointers[i]);
      if read.Some? && Accepts(idx, stream, start, end, pointers[i], read.value) then read else None
    }
  }

  /** After `i` pointers: the records taken so far, by time, each live and in the range. */
  ghost predicate Scanned(scan: TimeScan, i: nat, records: seq<Record>)
  {
    && scan.Ready() && i <= |scan.pointers|
    && ByTime(records)
    && (forall r :: r in records ==> LiveIn(scan.view, scan.stream, r) && scan.start <= r.timestamp <= scan.end)
    && (forall r :: r in records ==> exists j :: 0 <= j < i && scan.keys[j] == (r.timestamp, r.seqId))
    && (forall j :: 0 <= j < i && scan.Taken(j).Some? ==> scan.Taken(j).value in records)
  }

  lemma {:induction false} ScanStart(scan: TimeScan)
    requires scan.Ready()
    ensures Scanned(scan, 0, [])
  {
  }

  lemma {:induction false} ScanSkip(scan: TimeScan, i: nat, records: seq<Record>)
    requires Scanned(scan, i, records) && i < |scan.pointers| && scan.Taken(i).None?
    ensures Scanned(scan, i + 1, records)
  {
    hide TimeScan.Taken, TimeScan.Ready, LiveIn, ByTime;
  }

  /** A record taken is the live record of its key, filed under its own time key. */
  lemma {:induction false} TakenIsLive(scan: TimeScan, i: nat)
    requires scan.Ready() && i < |scan.pointers| && scan.Taken(i).Some?
    ensures
      var r := scan.Taken(i).value;
      LiveIn(scan.view, scan.stream, r) && scan.start <= r.timestamp <= scan.end && scan.keys[i] == (r.timestamp, r.seqId)
  {
    hide ReadRecord, Holds;
    var r := scan.Taken(i).value;
    ServedRecord(scan.c, scan.d, scan.idx, scan.view, r.Compound());
    assert Holds(scan.idx, r.Compound(), r);
    LiveFiled(scan.idx, scan.view, scan.stream, scan.keys[i], scan.pointers[i], r);
  }

  lemma {:induction false} LiveFiled(idx: Index, view: map<string, Record>, stream: string, key: TimeKey, p: LogPointer, r: Record)
    requires Represents(idx, view) && Holds(idx, r.Compound(), r) && idx.primary[r.Compound()] == p
    requires r.Compound() in view && view[r.Compound()] == r && r.stream == stream
    requires stream in idx.times && key in idx.times[stream] && idx.times[stream][key] == p
    ensures LiveIn(view, stream, r) && key == (r.timestamp, r.seqId)
  {
    assert TimesKeyed(idx);
  }

  lemma {:induction false} ScanPush(scan: TimeScan, i: nat, records: seq<Record>)
    requires Scanned(scan, i, records) && i < |scan.pointers| && scan.Taken(i).Some?
    ensures Scanned(scan, i + 1, records + [scan.Taken(i).value])
  {
    TakenIsLive(scan, i);
    assert KeysAscend(scan.keys) && |scan.keys| == |scan.pointers|;
    hide TimeScan.Taken, TimeScan.Ready, LiveIn, Lists;
    var r := scan.Taken(i).value;
    forall a | 0 <= a < |records|
      ensures TimeBefore(records[a], r)
    {
      assert records[a] in records;
      var j :| 0 <= j < i && scan.keys[j] == (records[a].timestamp, records[a].seqId);
      assert KeyBefore(scan.keys[j], scan.keys[i]);
    }
  }

  /** Time keys ascend, so no key is met twice. */
  lemma {:induction false} TakenIsNew(scan: TimeScan, i: nat, records: seq<Record>)
    requires Scanned(scan, i, records) && i < |scan.pointers| && scan.Taken(i).Some?
    ensures
      var r := scan.Taken(i).value;
      forall at :: 0 <= at < |records| ==> (records[at].stream, records[at].key) != (r.stream, r.key)
  {
    assert KeysAscend(scan.keys) && |scan.keys| == |scan.pointers|;
    hide TimeScan.Taken, TimeScan.Ready, LiveIn, Lists, ByTime;
    var r := scan.Taken(i).value;
    forall at | 0 <= at < |records|
      ensures records[at].key != r.key
    {
      assert records[at] in records;
      var j :| 0 <= j < i && scan.keys[j] == (records[at].timestamp, records[at].seqId);
      assert KeyBefore(scan.keys[j], scan.keys[i]);
    }
  }

  lemma {:induction false} ScanDone(scan: TimeScan, records: seq<Record>)
    requires Scanned(scan, |scan.pointers|, records)
    ensures ByTime(records)
    ensures forall r :: r in records <==> LiveIn(scan.view, scan.stream, r) && scan.start <= r.timestamp <= scan.end
  {
    hide TimeScan.Taken, TimeScan.Ready, LiveIn, ByTime;
    forall r | LiveIn(scan.view, scan.stream, r) && scan.start <= r.timestamp <= scan.end
      ensures r in records
    {
      var i := LiveIsTaken(scan, r);
    }
  }

  /** A live record's entry is in the range, and leads to it. */
  lemma {:induction false} LiveIsTaken(scan: TimeScan, r: Record) returns (i: nat)
    requires scan.Ready() && LiveIn(scan.view, scan.stream, r) && scan.start <= r.timestamp <= scan.end
    ensures i < |scan.pointers| && scan.Taken(i) == Some(r)
  {
    hide ReadRecord;
    var k :| k in scan.view && scan.view[k] == r && r.stream == scan.stream;
    ServedRecord(scan.c, scan.d, scan.idx, scan.view, k);
    assert (r.timestamp, r.seqId) in scan.keys;
    i :| 0 <= i < |scan.keys| && scan.keys[i] == (r.timestamp, r.seqId);
  }

  lemma {:induction false} ServedRecord(c: Codec, d: Disk, idx: Index, view: map<string, Record>, k: string)
    requires Represents(idx, view) && Reads(c, d, idx, view) && k in idx.primary
    ensures k in view && ReadRecord(c, d, idx.primary[k]) == Some(view[k]) && Holds(idx, k, view[k])
    ensures view[k].Compound() == k
  {
    hide ReadRecord;
  }

  ghost function StreamKeys(view: map<string, Record>, stream: string): set<string>
  {
    set k | k in view && view[k].stream == stream
  }

  lemma {:induction false} InsertNew(view: map<string, Record>, taken: set<string>, k: string, records: seq<Record>)
    requires k in view && k !in taken && taken <= view.Keys && BySeq(records)
    requires forall i, j :: i in view && j in view && view[i].seqId == view[j].seqId ==> i == j
    requires forall x :: x in records <==> exists j :: j in taken && view[j] == x
    ensures BySeq(InsertBySeq(records, view[k])) && |InsertBySeq(records, view[k])| == |records| + 1
    ensures forall x :: x in InsertBySeq(records, view[k]) <==> exists j :: j in taken + {k} && view[j] == x
  {
    hide BySeq, InsertBySeq;
    InsertMember(records, view[k]);
    InsertKeepsOrder(records, view[k]);
    assert k in taken + {k};
    forall x | exists j :: j in taken + {k} && view[j] == x
      ensures x in records || x == view[k]
    {
    }
    forall x | x in records
      ensures exists j :: j in taken + {k} && view[j] == x
    {
      var j :| j in taken && view[j] == x;
      assert j in taken + {k};
    }
  }

  lemma {:induction false} OutsideStream(idx: Index, view: map<string, Record>, stream: string, k: string)
    requires k in view && view[k].Compound() == k
    ensures view[k].stream == stream ==> StartsWithStream(k, stream)
  {
  }

  lemma {:induction false} StreamCount(idx: Index, view: map<string, Record>, stream: string, taken: set<string>, left: set<string>)
    requires idx.primary.Keys == view.Keys && left <= idx.primary.Keys
    requires taken == (set k | k in idx.primary && k !in left && k in view && view[k].stream == stream)
    ensures taken <= StreamKeys(view, stream) && |taken| <= |StreamKeys(view, stream)|
    ensures left == {} ==> taken == StreamKeys(view, stream)
  {
    var rest := StreamKeys(view, stream) - taken;
    assert StreamKeys(view, stream) == taken + rest;
  }

  lemma {:induction false} StreamMembers(view: map<string, Record>, stream: string, taken: set<string>, records: seq<Record>)
    requires taken == StreamKeys(view, stream) && forall x :: x in records <==> exists k :: k in taken && view[k] == x
    ensures forall x :: x in records <==> LiveIn(view, stream, x)
  {
    forall x | LiveIn(view, stream, x)
      ensures x in records
    {
      var k :| k in view && view[k] == x && x.stream == stream;
      assert k in taken;
    }
  }

  lemma {:induction false} NoCharge(c: Codec)
    ensures SumCharge(c, {}) == 0
  {
  }

  // ---------- Replay steps of the specification ----------

  /** Replay so far (`done`, and the two facts kept) and the rest of the scan make up the whole scan. */
  ghost predicate Halfway(c: Codec, file: bytes, offset: nat, done: seq<Located>, maxSeq: nat, hasFrame: bool)
    requires offset <= |file|
  {
    var all, rest := Scan(c, file, 0), Scan(c, file, offset);
    && all.frames == done + rest.frames && all.stop == rest.stop && all.tear == rest.tear
    && all.maxSeq == Max(maxSeq, rest.maxSeq) && all.hasFrame == (hasFrame || rest.hasFrame)
  }

  lemma {:induction false} ReplayStart(c: Codec, m: Merge, id: nat, file: bytes)
    ensures Halfway(c, file, 0, [], 0, false) && MergeFrom(c, m, Places(id, [])) == m && PrefixMax([]) == 0
  {
    hide Scan;
    assert [] + Scan(c, file, 0).frames == Scan(c, file, 0).frames;
  }

  lemma {:induction false} ReplayTurn(c: Codec, file: bytes, offset: nat, done: seq<Located>, maxSeq: nat, hasFrame: bool)
    requires offset + HEADER_LEN <= |file| && Halfway(c, file, offset, done, maxSeq, hasFrame)
    ensures
      var all := Scan(c, file, 0);
      match FrameAt(c, file, offset)
      case Bad(kind, seqId) =>
        && all.frames == done && all.stop == offset && all.tear == Some(kind)
        && all.maxSeq == (if kind.PayloadTear? then maxSeq else Max(maxSeq, seqId))
        && all.hasFrame == (if kind.PayloadTear? then hasFrame else true)
      case Good(rec, len) =>
        && Halfway(c, file, offset + len, done + [Located(offset, rec)], Max(maxSeq, rec.seqId), true)
        && PrefixMax(done + [Located(offset, rec)]) == Max(PrefixMax(done), rec.seqId)
  {
    hide FrameAt;
    assert done + [] == done;
    var f := FrameAt(c, file, offset);
    if f.Good? {
      var l := Located(offset, f.rec);
      var rest := Scan(c, file, offset + f.len).frames;
      assert done + ([l] + rest) == (done + [l]) + rest;
      assert (done + [l])[..|done|] == done;
    }
  }

  lemma {:induction false} ReplayEnd(c: Codec, file: bytes, offset: nat, done: seq<Located>, maxSeq: nat, hasFrame: bool)
    requires offset <= |file| < offset + HEADER_LEN && Halfway(c, file, offset, done, maxSeq, hasFrame)
    ensures
      var all := Scan(c, file, 0);
      && all.frames == done && all.stop == offset && all.maxSeq == maxSeq && all.hasFrame == hasFrame
      && all.tear == if offset < |file| then Some(TrailingTear) else None
  {
    assert done + [] == done;
  }

  lemma {:induction false} PlacesSnoc(c: Codec, m: Merge, id: nat, done: seq<Located>, l: Located)
    ensures MergeFrom(c, m, Places(id, done + [l])) ==
      MergeStep(c, MergeFrom(c, m, Places(id, done)), Placed(PointerTo(id, l.offset, l.rec), l.rec))
  {
    hide MergeStep;
    var ps := Places(id, done + [l]);
    assert ps[..|ps| - 1] == Places(id, done);
  }

  lemma {:induction false} PassSnoc(c: Codec, d: Disk, ids: seq<nat>, i: nat)
    requires i < |ids| && forall j :: 0 <= j < |ids| ==> Segment(ids[j]) in d.dir
    ensures PassAll(c, d, ids[..i + 1]) == PassSegment(c, PassAll(c, d, ids[..i]), ids[i], d.dir[Segment(ids[i])])
  {
    hide PassSegment;
    assert ids[..i + 1][..i] == ids[..i];
  }

  /** Writing a file removes no other. */
  lemma {:induction false} WrittenKeeps(d: Disk, p: Path, content: bytes, q: Path)
    ensures p in WriteDurably(d, p, content).dir && (q in d.dir ==> q in WriteDurably(d, p, content).dir)
  {
  }

  lemma {:induction false} JoinTraces(t: seq<Disk>, a: seq<Disk>, b: seq<Disk>, x: seq<Disk>, y: seq<Disk>)
    ensures ((t + a) + b) + (x + y) == t + (a + b + x + y)
  {
  }

  lemma {:induction false} JoinTwo(t: seq<Disk>, a: seq<Disk>, b: seq<Disk>)
    ensures (t + a) + b == t + (a + b)
  {
  }

  lemma {:induction false} NoMorePoints(t: seq<Disk>)
    ensures t + [] == t
  {
  }

  lemma {:induction false} JoinThree(t: seq<Disk>, a: seq<Disk>, b: seq<Disk>, x: seq<Disk>)
    ensures (t + a) + (b + x) == t + (a + b + x)
  {
  }

  lemma {:induction false} NothingEncoded(c: Codec, buf: bytes)
    ensures buf + EncodeAll(c, []) == buf && EncodeAll(c, []) == []
  {
  }

  lemma {:induction false} NothingApplied(c: Codec, idx: Index, segment: nat, offset: nat)
    ensures ApplyAll(c, idx, segment, offset, []) == idx && |EncodeAll(c, [])| == 0
  {
  }

  lemma {:induction false} NothingPlanned(c: Codec, primary: set<string>, budget: nat, clock: Clock, p: Plan)
    ensures PlanAll(c, primary, budget, clock, p, []) == p
    ensures p.records == [] ==> EncodeAll(c, p.records) == []
  {
  }

  /** After a rollover that succeeded the new active file is there. */
  lemma {:induction false} OpenHasFile(db: Db, fault: Fault)
    requires Segment(db.activeId) in db.disk.dir
    ensures RollOver(db, fault).ok ==> Segment(RollOver(db, fault).db.activeId) in RollOver(db, fault).db.disk.dir
  {
  }
}
