/**
 * Opening the database: replay every segment once, choose the active segment, settle the tears that
 * replay found, and seed the counters.
 */
module Recovery {
  import opened Wrappers
  import opened Bytes
  import opened Types
  import opened Frames
  import opened Index
  import opened LogMerge
  import opened Disk
  import opened FlushIndex
  import opened Flusher
  import opened Resync

  datatype Mode = Default | Strict | Repair

  // ---------- The replay pass ----------

  /** A tear found during replay and settled once the active segment is known. */
  datatype Tear = Tear(segment: nat, offset: nat, maxPrefix: nat, kind: TearKind)

  /** What choosing the active segment needs to know of a normal segment. */
  datatype Summary = Summary(id: nat, maxSeq: nat, hasFrame: bool)

  datatype Pass = Pass(merge: Merge, summaries: seq<Summary>, tears: seq<Tear>)

  const START_PASS: Pass := Pass(EMPTY_MERGE, [], [])

  function Places(id: nat, frames: seq<Located>): (ps: seq<Placed>)
    ensures |ps| == |frames|
  {
    seq(|frames|, i requires 0 <= i < |frames| => Placed(PointerTo(id, frames[i].offset, frames[i].rec), frames[i].rec))
  }

  function PrefixMax(frames: seq<Located>): nat
  {
    if frames == [] then 0 else Max(PrefixMax(frames[..|frames| - 1]), frames[|frames| - 1].rec.seqId)
  }

  function PassSegment(c: Codec, pass: Pass, id: nat, file: bytes): Pass
  {
    var r := Scan(c, file, 0);
    Pass(
      MergeFrom(c, pass.merge, Places(id, r.frames)),
      pass.summaries + (if id < COMPACTION_ID_BASE then [Summary(id, r.maxSeq, r.hasFrame)] else []),
      pass.tears + (if r.tear.Some? then [Tear(id, r.stop, PrefixMax(r.frames), r.tear.value)] else []))
  }

  function PassAll(c: Codec, d: Disk, ids: seq<nat>): Pass
    requires forall i :: 0 <= i < |ids| ==> Segment(ids[i]) in d.dir
  {
    if ids == [] then START_PASS else
    var id := ids[|ids| - 1];
    PassSegment(c, PassAll(c, d, ids[..|ids| - 1]), id, d.dir[Segment(id)])
  }

  /** The directory listing, sorted by id. */
  ghost predicate Listing(d: Disk, ids: seq<nat>)
  {
    && (forall i, j :: 0 <= i < j < |ids| ==> ids[i] < ids[j])
    && (forall id :: id in ids <==> Segment(id) in d.dir)
  }

  // ---------- The active segment ----------

  function Newest(ss: seq<Summary>): Option<Summary>
  {
    if ss == [] then None else
    var best, s := Newest(ss[..|ss| - 1]), ss[|ss| - 1];
    if best.Some? && s.id < best.value.id then best else Some(s)
  }

  predicate MoreRecent(a: Summary, b: Summary)
  {
    a.maxSeq > b.maxSeq || (a.maxSeq == b.maxSeq && a.id >= b.id)
  }

  function MostRecent(ss: seq<Summary>): Option<Summary>
  {
    if ss == [] then None else
    var best, s := MostRecent(ss[..|ss| - 1]), ss[|ss| - 1];
    if s.hasFrame && (best.None? || MoreRecent(s, best.value)) then Some(s) else best
  }

  /** The newest normal file if it holds no frame yet, else the one written last. */
  function ChooseActive(ss: seq<Summary>): nat
  {
    var newest, recent := Newest(ss), MostRecent(ss);
    if newest.Some? && !newest.value.hasFrame then newest.value.id
    else if recent.Some? then recent.value.id
    else 1
  }

  // ---------- Settling tears ----------

  /** Written, synced, and its directory entry made durable. */
  function WriteDurably(d: Disk, p: Path, content: bytes): Disk
  {
    DirSync(Sync(Append(Create(d, p), p, content), p))
  }

  /** The disk after each of its operations. */
  function DurablyPoints(d: Disk, p: Path, content: bytes): seq<Disk>
  {
    var created := Create(d, p);
    var written := Append(created, p, content);
    var synced := Sync(written, p);
    [created, written, synced, DirSync(synced)]
  }

  datatype Work = Work(disk: Disk, idx: Index, maxNormal: nat, maxSegment: nat)

  datatype Error =
    | RecoveryRequired(segment: nat, offset: nat, stranded: nat)
    | StrictMismatch(segment: nat, offset: nat)
    | OutOfSegmentIds
    | IoError

  function MinSeq(t: Tear): Option<nat>
  {
    if t.segment < COMPACTION_ID_BASE then Some(t.maxPrefix) else None
  }

  /** Keys of a corrupt inactive segment leave the primary index; their time entries stay behind. */
  ghost function DropSegmentKeys(c: Codec, idx: Index, segment: nat): Index
  {
    var gone := set k | k in idx.primary && idx.primary[k].segmentId == segment;
    idx.(primary := idx.primary - gone, ram := idx.ram - SumCharge(c, gone))
  }

  /** The marker that makes a salvage repeatable: the target id and length, fixed width here. */
  function MarkerBytes(target: nat, len: nat): bytes
  {
    BE(target, 8) + BE(len, 8)
  }

  function ReadMarker(d: Disk, p: Path): Option<(nat, nat)>
  {
    if p in d.dir && |d.dir[p]| == 16 then Some((FromBE(d.dir[p][..8]), FromBE(d.dir[p][8..]))) else None
  }

  /** `next_salvage_id`: the first unused id above every normal one. */
  function NextFree(ids: set<nat>, from: nat): (id: nat)
    ensures from <= id && id !in ids
    decreases ids
  {
    if from !in ids then from else NextFree(ids - {from}, from + 1)
  }

  /** Where a salvage goes: the id in its marker, if a previous attempt left one, else a fresh id. */
  function SalvageTarget(d: Disk, marker: Path, maxNormal: nat): nat
  {
    var m := ReadMarker(d, marker);
    if m.Some? && 0 < m.value.0 < COMPACTION_ID_BASE then m.value.0 else NextFree(SegmentIds(d), maxNormal + 1)
  }

  /** An earlier attempt has written this salvage file whole, says its marker. */
  predicate Reuses(d: Disk, marker: Path, target: nat, len: nat)
  {
    ReadMarker(d, marker) == Some((target, len)) && Segment(target) in d.dir && |d.dir[Segment(target)]| == len
  }

  /** The disk after each step of a salvage, in order. */
  datatype Salvage = Salvage(target: nat, marked: Disk, salvaged: Disk, backedUp: Disk, truncated: Disk, removed: Disk, unmarked: Disk)

  function SalvageSteps(d: Disk, segment: nat, offset: nat, maxNormal: nat, frames: bytes): Salvage
    requires Segment(segment) in d.dir && offset <= |d.dir[Segment(segment)]|
  {
    var source := d.dir[Segment(segment)];
    var marker := SalvageMarker(segment, offset);
    var target := SalvageTarget(d, marker, maxNormal);
    var marked := WriteDurably(d, marker, MarkerBytes(target, |frames|));
    var salvaged := if Reuses(d, marker, target, |frames|) then marked else WriteDurably(marked, Segment(target), frames);
    var backedUp := WriteDurably(salvaged, TornBackup(segment, offset), source[offset..]);
    var truncated := TruncateSync(backedUp, Segment(segment), offset);
    var removed := Unlink(truncated, marker);
    Salvage(target, marked, salvaged, backedUp, truncated, removed, DirSync(removed))
  }

  /** The disk at each point of a salvage where the process may die. */
  function SalvagePoints(d: Disk, segment: nat, offset: nat, maxNormal: nat, frames: bytes): seq<Disk>
    requires Segment(segment) in d.dir && offset <= |d.dir[Segment(segment)]|
  {
    var s := SalvageSteps(d, segment, offset, maxNormal, frames);
    var marker := SalvageMarker(segment, offset);
    DurablyPoints(d, marker, MarkerBytes(s.target, |frames|))
    + (if Reuses(d, marker, s.target, |frames|) then [] else DurablyPoints(s.marked, Segment(s.target), frames))
    + DurablyPoints(s.salvaged, TornBackup(segment, offset), d.dir[Segment(segment)][offset..])
    + [s.truncated, s.removed, s.unmarked]
  }

  function RunBytes(file: bytes, fs: seq<Stranded>): bytes
  {
    if fs == [] then [] else
    var f := fs[|fs| - 1];
    RunBytes(file, fs[..|fs| - 1]) + (if f.offset + f.len <= |file| then file[f.offset..f.offset + f.len] else [])
  }

  datatype Settled = Settled(work: Work, error: Option<Error>)

  /** `process_deferred_tears` on one tear. */
  ghost function Settle(c: Codec, mode: Mode, now: int, active: nat, w: Work, t: Tear): Settled
  {
    if t.kind.TrailingTear? && t.segment != active then Settled(w, None) else
    if Segment(t.segment) !in w.disk.dir || t.offset >= |w.disk.dir[Segment(t.segment)]| then Settled(w, Some(IoError)) else
    var file := w.disk.dir[Segment(t.segment)];
    var damaged := t.kind.CrcTear? || t.kind.ParseTear?;
    var d0 := if mode.Repair? && damaged then WriteDurably(w.disk, RepairBackup(t.segment), file) else w.disk;
    var w0 := w.(disk := d0);
    var stranded := StrandedAfter(c, file, t.offset, now, MinSeq(t));
    if stranded != [] then
      if !mode.Repair? then Settled(w0, Some(RecoveryRequired(t.segment, t.offset, |stranded|))) else
      var s := SalvageSteps(d0, t.segment, t.offset, w.maxNormal, RunBytes(file, stranded));
      if s.target >= COMPACTION_ID_BASE then Settled(w0, Some(OutOfSegmentIds)) else
      Settled(Work(s.unmarked, w.idx, Max(w.maxNormal, s.target), Max(w.maxSegment, s.target)), None)
    else if mode.Strict? && damaged then
      Settled(w0, Some(StrictMismatch(t.segment, t.offset)))
    else if t.segment != active && !t.kind.TrailingTear? then
      Settled(w0.(idx := if damaged then DropSegmentKeys(c, w.idx, t.segment) else w.idx), None)
    else
      var d1 := WriteDurably(d0, TornBackup(t.segment, t.offset), file[t.offset..]);
      Settled(w0.(disk := TruncateSync(d1, Segment(t.segment), t.offset)), None)
  }

  /** Tears are settled in order; the first error stops recovery. */
  ghost function SettleAll(c: Codec, mode: Mode, now: int, active: nat, w: Work, tears: seq<Tear>): Settled
    decreases |tears|
  {
    if tears == [] then Settled(w, None) else
    var s := Settle(c, mode, now, active, w, tears[0]);
    if s.error.Some? then s else SettleAll(c, mode, now, active, s.work, tears[1..])
  }

  /** The disk at each point of settling a tear where the process may die. */
  ghost function SettlePoints(c: Codec, mode: Mode, now: int, active: nat, w: Work, t: Tear): seq<Disk>
  {
    if t.kind.TrailingTear? && t.segment != active then [] else
    if Segment(t.segment) !in w.disk.dir || t.offset >= |w.disk.dir[Segment(t.segment)]| then [] else
    var file := w.disk.dir[Segment(t.segment)];
    var damaged := t.kind.CrcTear? || t.kind.ParseTear?;
    var backsUp := mode.Repair? && damaged;
    var d0 := if backsUp then WriteDurably(w.disk, RepairBackup(t.segment), file) else w.disk;
    var first := if backsUp then DurablyPoints(w.disk, RepairBackup(t.segment), file) else [];
    var stranded := StrandedAfter(c, file, t.offset, now, MinSeq(t));
    if stranded != [] then
      if !mode.Repair? then first else
      var run := RunBytes(file, stranded);
      if SalvageSteps(d0, t.segment, t.offset, w.maxNormal, run).target >= COMPACTION_ID_BASE then first
      else first + SalvagePoints(d0, t.segment, t.offset, w.maxNormal, run)
    else if (mode.Strict? && damaged) || (t.segment != active && !t.kind.TrailingTear?) then first
    else
      var d1 := WriteDurably(d0, TornBackup(t.segment, t.offset), file[t.offset..]);
      first + DurablyPoints(d0, TornBackup(t.segment, t.offset), file[t.offset..])
      + [TruncateSync(d1, Segment(t.segment), t.offset)]
  }

  ghost function SettleAllPoints(c: Codec, mode: Mode, now: int, active: nat, w: Work, tears: seq<Tear>): seq<Disk>
    decreases |tears|
  {
    if tears == [] then [] else
    var s := Settle(c, mode, now, active, w, tears[0]);
    SettlePoints(c, mode, now, active, w, tears[0])
    + if s.error.Some? then [] else SettleAllPoints(c, mode, now, active, s.work, tears[1..])
  }

  // ---------- Opening ----------

  function MaxId(ids: seq<nat>): nat
  {
    if ids == [] then 0 else Max(MaxId(ids[..|ids| - 1]), ids[|ids| - 1])
  }

  function MaxNormalId(ids: seq<nat>): nat
  {
    if ids == [] then 0 else
    var rest, id := MaxNormalId(ids[..|ids| - 1]), ids[|ids| - 1];
    if id < COMPACTION_ID_BASE then Max(rest, id) else rest
  }

  /** The active file is created, and its directory entry made durable, if it does not exist. */
  function OpenActive(d: Disk, active: nat): Disk
  {
    if Segment(active) in d.dir then d else DirSync(Create(d, Segment(active)))
  }

  datatype Opened =
    | Running(db: Db)
    | Refused(disk: Disk, error: Error)

  /** The end of recovery: open the active file and seed the counters. */
  function Seed(m: Merge, active: nat, s: Settled): Opened
  {
    if s.error.Some? then Refused(s.work.disk, s.error.value) else
    var disk := OpenActive(s.work.disk, active);
    var next := Max(s.work.maxNormal, active) + 1;
    if next >= COMPACTION_ID_BASE then Refused(disk, OutOfSegmentIds) else
    Running(Db(
      disk, s.work.idx, m.highest + 1, active, |disk.dir[Segment(active)]|, true, false,
      next, Max(s.work.maxSegment + 1, COMPACTION_ID_BASE)))
  }

  /** Recovery and counter seeding, on a sorted directory listing. */
  ghost function Open(c: Codec, mode: Mode, now: int, d: Disk, ids: seq<nat>): Opened
    requires forall i :: 0 <= i < |ids| ==> Segment(ids[i]) in d.dir
  {
    var pass := PassAll(c, d, ids);
    var active := ChooseActive(pass.summaries);
    Seed(pass.merge, active, SettleAll(c, mode, now, active, Work(d, pass.merge.idx, MaxNormalId(ids), MaxId(ids)), pass.tears))
  }

  function OpenActivePoints(d: Disk, active: nat): seq<Disk>
  {
    if Segment(active) in d.dir then [] else [Create(d, Segment(active)), OpenActive(d, active)]
  }

  /** The disk at each point of an opening where the process may die. */
  ghost function OpenPoints(c: Codec, mode: Mode, now: int, d: Disk, ids: seq<nat>): seq<Disk>
    requires forall i :: 0 <= i < |ids| ==> Segment(ids[i]) in d.dir
  {
    var pass := PassAll(c, d, ids);
    var active := ChooseActive(pass.summaries);
    var w := Work(d, pass.merge.idx, MaxNormalId(ids), MaxId(ids));
    var s := SettleAll(c, mode, now, active, w, pass.tears);
    SettleAllPoints(c, mode, now, active, w, pass.tears) + if s.error.Some? then [] else OpenActivePoints(s.work.disk, active)
  }
}
