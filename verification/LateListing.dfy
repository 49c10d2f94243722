/**
 * Compaction reads the active id first and lists the directory after that. If a commit rolls over in between, the
 * new active segment is listed as an input, and removed while the flusher writes to it.
 */
module LateListing {
  import opened Wrappers
  import opened Bytes
  import opened Types
  import opened Frames
  import opened Index
  import opened LogMerge
  import opened Disk
  import opened GroupCommit
  import opened FlushIndex
  import opened Flusher
  import opened ShelfReplay
  import opened CommitSafety
  import CrashSafety
  import opened Compaction

  /** The listing, with the id `a` that was read before it. */
  ghost predicate ListStep(s: Sys, s': Sys, a: nat)
  {
    var inputs := SegmentIds(s.db.disk) - {a};
    && s.phase.NoCompaction? && inputs != {}
    && s' == s.(phase := Walking(a, inputs, s.db.idx.primary.Keys, map[]))
  }

  /** Every key of the database reads as what was committed. */
  ghost predicate Answers(c: Codec, s: Sys)
  {
    forall k :: k in s.view ==> k in s.db.idx.primary && ReadRecord(c, s.db.disk, s.db.idx.primary[k]) == Some(s.view[k])
  }

  /** However it goes on. */
  ghost predicate AlwaysAnswers(cfg: Config, s: Sys)
  {
    forall ss, i :: Run(cfg, ss) && ss[0] == s && 0 <= i < |ss| ==> Answers(cfg.codec, ss[i])
  }

  ghost predicate Reaches(cfg: Config, s: Sys, t: Sys)
  {
    exists ss :: Run(cfg, ss) && ss[0] == s && ss[|ss| - 1] == t
  }

  lemma {:induction false} ReachesNext(cfg: Config, s: Sys, t: Sys, u: Sys)
    requires Reaches(cfg, s, t) && Next(cfg, t, u)
    ensures Reaches(cfg, s, u)
  {
    hide Next;
    var ss :| Run(cfg, ss) && ss[0] == s && ss[|ss| - 1] == t;
    var more := ss + [u];
    forall i | 0 <= i < |more| - 1
      ensures Next(cfg, more[i], more[i + 1])
    {
      if i < |ss| - 1 {
        assert Next(cfg, ss[i], ss[i + 1]);
      }
    }
    assert Run(cfg, more) && more[0] == s && more[|more| - 1] == u;
  }

  /** Only a rollover changes the active id. */
  lemma {:induction false} OnlyRollOver(cfg: Config, s: Sys, s': Sys)
    requires Next(cfg, s, s') && s'.db.activeId != s.db.activeId
    ensures exists clock, batch, fault ::
      FlushStep(cfg, s, s', clock, batch, fault)
      && s.db.activeSize + |EncodeAll(cfg.codec, PlanBatch(cfg, s.db, clock, batch).records)| > cfg.maxSegmentSize
  {
    hide EncodeAll, ApplyAll, SwapAll, ReadRecord, EncodeFrame, PlanAll, Fold, AllWritable, RollOver;
  }

  // ---------- From the listing to the sealed output ----------

  /** The index is met key by key. */
  lemma {:induction false} WalkAll(cfg: Config, s0: Sys, s: Sys) returns (t: Sys)
    requires Reaches(cfg, s0, s) && s.phase.Walking?
    requires forall k :: k in s.phase.picked ==> k in s.db.idx.primary && s.phase.picked[k] == s.db.idx.primary[k]
    ensures Reaches(cfg, s0, t) && t.phase.Walking? && t == s.(phase := s.phase.(unseen := {}, picked := t.phase.picked))
    ensures forall k :: k in t.phase.picked ==> k in s.db.idx.primary && t.phase.picked[k] == s.db.idx.primary[k]
    decreases |s.phase.unseen|
  {
    hide Reaches;
    if s.phase.unseen == {} {
      t := s;
    } else {
      var k :| k in s.phase.unseen;
      var u := s.(phase := s.phase.(unseen := s.phase.unseen - {k}, picked := Visited(s.db.idx, s.phase.active, s.phase.picked, k)));
      assert VisitStep(s, u, k);
      ReachesNext(cfg, s0, s, u);
      t := WalkAll(cfg, s0, u);
    }
  }

  /** The output grows; nothing else does. */
  ghost predicate OnlyOut(d: Disk, d': Disk, out: nat)
  {
    && Segment(out) !in d.dir && Segment(out) in d'.dir
    && forall j: nat :: j != out ==>
         (Segment(j) in d.dir <==> Segment(j) in d'.dir) && (Segment(j) in d.dir ==> d'.dir[Segment(j)] == d.dir[Segment(j)])
  }

  lemma {:induction false} OldReads(c: Codec, d: Disk, d': Disk, out: nat, p: LogPointer)
    requires OnlyOut(d, d', out) && ReadRecord(c, d, p).Some?
    ensures ReadRecord(c, d', p) == ReadRecord(c, d, p)
  {
    hide ReadAt;
  }

  /** Every record is copied. */
  lemma {:induction false} CopyAll(cfg: Config, s0: Sys, d: Disk, s: Sys) returns (t: Sys)
    requires Reaches(cfg, s0, s) && s.phase.Copying? && OnlyOut(d, s.db.disk, s.phase.out)
    requires forall k :: k in s.phase.todo ==> k in s.db.idx.primary && s.phase.todo[k] == s.db.idx.primary[k] && ReadRecord(cfg.codec, d, s.phase.todo[k]).Some?
    requires forall k :: k in s.phase.moved ==> k in s.db.idx.primary && s.phase.moved[k].from == s.db.idx.primary[k]
    ensures Reaches(cfg, s0, t) && t.phase == Copying(s.phase.inputs, s.phase.out, map[], if t.phase.Copying? then t.phase.moved else map[])
    ensures t == s.(db := s.db.(disk := t.db.disk), phase := t.phase) && OnlyOut(d, t.db.disk, s.phase.out)
    ensures forall k :: k in t.phase.moved ==> k in s.db.idx.primary && t.phase.moved[k].from == s.db.idx.primary[k]
    decreases |s.phase.todo.Keys|
  {
    hide Reaches, ReadRecord, EncodeFrame;
    if s.phase.todo.Keys == {} {
      assert s.phase.todo == map[];
      t := s;
    } else {
      var k :| k in s.phase.todo.Keys;
      OldReads(cfg.codec, d, s.db.disk, s.phase.out, s.phase.todo[k]);
      var u := Copied1(cfg.codec, s, k);
      assert Next(cfg, s, u) by {
        assert CopyStep(cfg.codec, s, u, k);
      }
      ReachesNext(cfg, s0, s, u);
      assert u.phase.todo.Keys == s.phase.todo.Keys - {k};
      t := CopyAll(cfg, s0, d, u);
    }
  }

  ghost function Copied1(c: Codec, s: Sys, k: string): Sys
    requires s.phase.Copying? && k in s.phase.todo && Segment(s.phase.out) in s.db.disk.dir
    requires ReadRecord(c, s.db.disk, s.phase.todo[k]).Some?
  {
    var from, out := s.phase.todo[k], Segment(s.phase.out);
    var r := ReadRecord(c, s.db.disk, from).value;
    var to := PointerTo(s.phase.out, |s.db.disk.dir[out]|, r);
    s.(db := s.db.(disk := Append(s.db.disk, out, EncodeFrame(c, r))),
       phase := s.phase.(todo := s.phase.todo - {k}, moved := s.phase.moved[k := Move(from, to)]))
  }

  /** The walk, and the new output. */
  lemma {:induction false} CreatedAfter(cfg: Config, s: Sys, s': Sys, a: nat) returns (u: Sys)
    requires SysOk(cfg.codec, s) && ListStep(s, s', a)
    ensures Reaches(cfg, s', u) && u.phase.Copying? && u.phase == Copying(s'.phase.inputs, s.db.compactionCounter, u.phase.todo, map[])
    ensures u.view == s.view && u.db == s.db.(disk := u.db.disk, compactionCounter := s.db.compactionCounter + 1)
    ensures OnlyOut(s.db.disk, u.db.disk, s.db.compactionCounter)
    ensures forall k :: k in u.phase.todo ==> k in s.db.idx.primary && u.phase.todo[k] == s.db.idx.primary[k]
  {
    hide SysOk, SegmentIds;
    CompactionProceeds(cfg.codec, s);
    assert Reaches(cfg, s', s') by {
      assert Run(cfg, [s']) && [s'][0] == s' && [s'][|[s']| - 1] == s';
    }
    var w := WalkAll(cfg, s', s');
    var out := s.db.compactionCounter;
    u := w.(db := w.db.(disk := Create(w.db.disk, Segment(out)), compactionCounter := out + 1),
            phase := Copying(w.phase.inputs, out, w.phase.picked, map[]));
    ReachesNext(cfg, s', w, u);
  }

  /** A compaction can get as far as its sealed output while nothing is committed. */
  lemma {:induction false} SealedAfter(cfg: Config, s: Sys, s': Sys, a: nat) returns (t: Sys)
    requires SysOk(cfg.codec, s) && ListStep(s, s', a)
    ensures Reaches(cfg, s', t) && t.phase.Sealed? && t.phase.inputs == s'.phase.inputs && t.phase.out == s.db.compactionCounter
    ensures t.view == s.view && t.db == s.db.(disk := t.db.disk, compactionCounter := s.db.compactionCounter + 1)
    ensures OnlyOut(s.db.disk, t.db.disk, s.db.compactionCounter)
    ensures forall k :: k in t.phase.moved ==> k in s.db.idx.primary && t.phase.moved[k].from == s.db.idx.primary[k]
  {
    assert forall k :: k in s.db.idx.primary ==> ReadRecord(cfg.codec, s.db.disk, s.db.idx.primary[k]).Some?;
    var u := CreatedAfter(cfg, s, s', a);
    var v := CopyAll(cfg, s', s.db.disk, u);
    t := v.(db := v.db.(disk := DirSync(Sync(v.db.disk, Segment(v.phase.out)))), phase := Sealed(v.phase.inputs, v.phase.out, v.phase.moved));
    SealIsNext(cfg, v, t);
    ReachesNext(cfg, s', v, t);
  }

  lemma {:induction false} SealIsNext(cfg: Config, s: Sys, u: Sys)
    requires SealStep(s, u)
    ensures Next(cfg, s, u)
  {
  }

  // ---------- A commit, and the removals ----------

  /** The pointer of a record just committed. */
  lemma {:induction false} NewPointer(c: Codec, idx: Index, view: map<string, Record>, segment: nat, offset: nat, rs: seq<Record>, next: nat, k: string)
    requires Represents(idx, view) && Accounted(c, idx) && FreshFrom(idx, next) && Consecutive(rs, next)
    requires k in Fold(view, rs) && Fold(view, rs)[k] in rs
    ensures
      var idx' := ApplyAll(c, idx, segment, offset, rs);
      k in idx'.primary && idx'.primary[k].segmentId == segment && (k in idx.primary ==> idx'.primary[k] != idx.primary[k])
  {
    ApplyAllRepresents(c, idx, view, segment, offset, rs, next);
    ApplyAllPointers(c, idx, segment, offset, rs);
    hide ApplyAll, Fold, Accounted;
    assert Holds(ApplyAll(c, idx, segment, offset, rs), k, Fold(view, rs)[k]);
    if k in idx.primary {
      assert FreshSeq(idx, Fold(view, rs)[k].seqId);
    }
  }

  /** A batch that fits, in the state `s`, and a record of it that stays. */
  ghost predicate Fits(cfg: Config, s: Sys, clock: Clock, batch: seq<LogEntry>, k: string)
  {
    var rs := PlanBatch(cfg, s.db, clock, batch).records;
    && AllWritable(cfg.codec, rs) && s.db.activeSize + |EncodeAll(cfg.codec, rs)| <= cfg.maxSegmentSize
    && k in Fold(s.view, rs) && Fold(s.view, rs)[k] in rs
  }

  lemma {:induction false} CommittedAfter(cfg: Config, s: Sys, s': Sys, t: Sys, clock: Clock, batch: seq<LogEntry>, k: string) returns (u: Sys)
    requires SysOk(cfg.codec, s) && !s.db.failed && s.db.fileOpen && Fits(cfg, s, clock, batch, k)
    requires Reaches(cfg, s', t) && t.phase.Sealed? && t.view == s.view
    requires t.db == s.db.(disk := t.db.disk, compactionCounter := s.db.compactionCounter + 1) && Segment(s.db.activeId) in t.db.disk.dir
    requires forall j :: j in t.phase.moved ==> j in s.db.idx.primary && t.phase.moved[j].from == s.db.idx.primary[j]
    ensures Reaches(cfg, s', u) && u.phase == t.phase && k in u.view && k in u.db.idx.primary
    ensures u.db.activeId == s.db.activeId && u.db.idx.primary[k].segmentId == s.db.activeId
    ensures k in t.phase.moved ==> u.db.idx.primary[k] != t.phase.moved[k].from
    ensures u.db.disk.dir.Keys == t.db.disk.dir.Keys
  {
    var c, plan := cfg.codec, PlanBatch(cfg, s.db, clock, batch);
    PlanWrites(cfg, s.db, clock, batch);
    hide SysOk, Reaches, Next, Commit, ApplyAll, EncodeAll, Fold, AllWritable, Represents, Accounted, FreshFrom, Consecutive, PlanAll;
    assert PlanBatch(cfg, t.db, clock, batch) == plan;
    var o := Commit(cfg, t.db, plan, NoFault);
    assert
      var o := Commit(cfg, t.db, plan, NoFault);
      && o.db.idx == ApplyAll(cfg.codec, t.db.idx, t.db.activeId, t.db.activeSize, plan.records)
      && o.db.disk.dir.Keys == t.db.disk.dir.Keys;
    NewPointer(c, s.db.idx, s.view, s.db.activeId, s.db.activeSize, plan.records, s.db.nextSeq, k);
    u := Sys(o.db, Fold(s.view, plan.records), t.phase);
    assert FlushStep(cfg, t, u, clock, batch, NoFault);
    ReachesNext(cfg, s', t, u);
  }

  lemma {:induction false} ElementsOf(s: set<string>) returns (order: seq<string>)
    ensures forall k :: k in order <==> k in s
    decreases |s|
  {
    if s == {} {
      order := [];
    } else {
      var k :| k in s;
      var rest := ElementsOf(s - {k});
      order := rest + [k];
    }
  }

  /** The swap leaves alone a key whose pointer has moved on. */
  lemma {:induction false} SwapLeaves(c: Codec, d: Disk, idx: Index, moved: map<string, Move>, order: seq<string>, k: string)
    requires forall i :: 0 <= i < |order| ==> order[i] in moved
    requires k in idx.primary && (k in moved ==> idx.primary[k] != moved[k].from)
    ensures
      var idx' := SwapAll(c, d, idx, moved, order);
      k in idx'.primary && idx'.primary[k] == idx.primary[k]
    decreases |order|
  {
    hide ReadRecord;
    if order != [] {
      SwapLeaves(c, d, idx, moved, order[..|order| - 1], k);
    }
  }

  lemma {:induction false} SwappedAfter(cfg: Config, s': Sys, t: Sys, k: string) returns (u: Sys)
    requires Reaches(cfg, s', t) && t.phase.Sealed? && k in t.db.idx.primary
    requires k in t.phase.moved ==> t.db.idx.primary[k] != t.phase.moved[k].from
    ensures Reaches(cfg, s', u) && u.phase == Unlinking(t.phase.inputs, t.phase.inputs) && u.view == t.view && u.db.disk == t.db.disk
    ensures k in u.db.idx.primary && u.db.idx.primary[k] == t.db.idx.primary[k]
  {
    hide Reaches, SwapAll;
    var order := ElementsOf(t.phase.moved.Keys);
    SwapLeaves(cfg.codec, t.db.disk, t.db.idx, t.phase.moved, order, k);
    u := t.(db := t.db.(idx := SwapAll(cfg.codec, t.db.disk, t.db.idx, t.phase.moved, order)), phase := Unlinking(t.phase.inputs, t.phase.inputs));
    assert SwapStep(cfg.codec, t, u, order);
    ReachesNext(cfg, s', t, u);
  }

  lemma {:induction false} LeastOf(s: set<nat>) returns (id: nat)
    requires s != {}
    ensures id in s && forall j :: j in s ==> id <= j
    decreases |s|
  {
    var first :| first in s;
    id := first;
    if s - {first} != {} {
      var least := LeastOf(s - {first});
      id := if least < first then least else first;
    }
    assert forall j :: j in s ==> j == first || j in s - {first};
  }

  /** The removals reach every input. */
  lemma {:induction false} RemovedAfter(cfg: Config, s': Sys, t: Sys, id: nat) returns (u: Sys)
    requires Reaches(cfg, s', t) && t.phase.Unlinking? && id in t.phase.left && forall j :: j in t.phase.left ==> Segment(j) in t.db.disk.dir
    ensures Reaches(cfg, s', u) && u.view == t.view && u.db.idx == t.db.idx && Segment(id) !in u.db.disk.dir
    decreases |t.phase.left|
  {
    hide Reaches;
    var least := LeastOf(t.phase.left);
    var v := t.(db := t.db.(disk := Unlink(t.db.disk, Segment(least))), phase := t.phase.(left := t.phase.left - {least}));
    assert UnlinkStep(t, v, least);
    ReachesNext(cfg, s', t, v);
    if least == id {
      u := v;
    } else {
      u := RemovedAfter(cfg, s', v, id);
    }
  }

  // ---------- When the listing is safe ----------

  /** With a stale active id, a commit that comes after the walk is lost. */
  lemma {:induction false} StaleLoses(cfg: Config, s: Sys, s': Sys, a: nat, clock: Clock, batch: seq<LogEntry>, k: string) returns (u: Sys)
    requires SysOk(cfg.codec, s) && !s.db.failed && s.db.fileOpen && ListStep(s, s', a) && a != s.db.activeId
    requires Fits(cfg, s, clock, batch, k)
    ensures Reaches(cfg, s', u) && !Answers(cfg.codec, u)
  {
    hide Reaches, ReadAt, Fits, SegmentIds;
    forall id | id in SegmentIds(s.db.disk)
      ensures Segment(id) in s.db.disk.dir
    {
      SegmentIdsIff(s.db.disk, id);
    }
    SegmentIdsIff(s.db.disk, s.db.activeId);
    var t := SealedAfter(cfg, s, s', a);
    var v := CommittedAfter(cfg, s, s', t, clock, batch, k);
    var w := SwappedAfter(cfg, s', v, k);
    u := RemovedAfter(cfg, s', w, s.db.activeId);
  }

  /**
   * An engine in order that can still commit something: whatever happens after the listing, it goes on answering,
   * if and only if the active id that was read is still the active one when the directory is listed.
   */
  lemma {:induction false} ListingExact(cfg: Config, s: Sys, s': Sys, a: nat, clock: Clock, batch: seq<LogEntry>, k: string)
    requires cfg.codec.Lawful() && SysOk(cfg.codec, s) && !s.db.failed && s.db.fileOpen && ListStep(s, s', a)
    requires Fits(cfg, s, clock, batch, k)
    ensures AlwaysAnswers(cfg, s') <==> a == s.db.activeId
  {
    if a == s.db.activeId {
      assert SysOk(cfg.codec, s');
      forall ss, i | Run(cfg, ss) && ss[0] == s' && 0 <= i < |ss|
        ensures Answers(cfg.codec, ss[i])
      {
        InterleavingsServe(cfg, ss, i);
      }
    } else {
      var u := StaleLoses(cfg, s, s', a, clock, batch, k);
      var ss :| Run(cfg, ss) && ss[0] == s' && ss[|ss| - 1] == u;
      assert !Answers(cfg.codec, ss[|ss| - 1]);
    }
  }
}
