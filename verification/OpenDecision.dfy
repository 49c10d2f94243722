/**
 * What an opening in Default or Strict mode decides, from the tears replay has found: when it refuses and over
 * which tear, what it cuts and drops when it runs, and which segment it appends to.
 */
module OpenDecision {
  import opened Wrappers
  import opened Bytes
  import opened Types
  import opened Frames
  import opened Index
  import opened LogMerge
  import opened Disk
  import opened FlushIndex
  import opened Flusher
  import opened Resync
  import opened Recovery
  import opened Repair
  import opened RepairReopen
  import opened StrandedFrames
  import RepairOutcome
  import RepairRerun
  import opened Damage

  // ---------- One tear ----------

  ghost function Behind(c: Codec, now: int, d: Disk, t: Tear): seq<Stranded>
  {
    if Segment(t.segment) in d.dir then StrandedAfter(c, d.dir[Segment(t.segment)], t.offset, now, MinSeq(t)) else []
  }

  /**
   * The tear makes the opening refuse: valid frames lie behind it or, in Strict mode, it is damage. Bytes left
   * over behind the last frame of a segment that is not active are nobody's business.
   */
  ghost predicate Blocks(c: Codec, mode: Mode, now: int, active: nat, d: Disk, t: Tear)
  {
    && !(t.kind.TrailingTear? && t.segment != active)
    && (Behind(c, now, d, t) != [] || (mode.Strict? && Damaged(t)))
  }

  ghost function Complaint(c: Codec, now: int, d: Disk, t: Tear): Error
  {
    if Behind(c, now, d, t) != [] then RecoveryRequired(t.segment, t.offset, |Behind(c, now, d, t)|) else StrictMismatch(t.segment, t.offset)
  }

  ghost predicate Within(d: Disk, t: Tear)
  {
    Segment(t.segment) in d.dir && t.offset < |d.dir[Segment(t.segment)]|
  }

  /** The segments of `d'` are those of `d`, the active one cut where it is torn. */
  ghost predicate ActiveCut(d: Disk, d': Disk, active: nat, tears: seq<Tear>)
  {
    forall id: nat ::
      && (Segment(id) in d.dir <==> Segment(id) in d'.dir)
      && (Segment(id) in d.dir && (forall t :: t in tears ==> t.segment != id || id != active) ==> d'.dir[Segment(id)] == d.dir[Segment(id)])
      && (forall t :: t in tears && t.segment == id == active && Within(d, t) ==> d'.dir[Segment(id)] == d.dir[Segment(id)][..t.offset])
  }

  /** At most the active segment has been cut, at a tear that does not block. */
  ghost predicate AtMostCut(c: Codec, mode: Mode, now: int, active: nat, d: Disk, d': Disk, tears: seq<Tear>)
  {
    forall id: nat ::
      && (Segment(id) in d.dir <==> Segment(id) in d'.dir)
      && (Segment(id) in d.dir && d'.dir[Segment(id)] != d.dir[Segment(id)] ==>
            id == active && exists t :: t in tears && t.segment == id && !Blocks(c, mode, now, active, d, t))
  }

  lemma {:induction false} WrittenBeside(d: Disk, p: Path, content: bytes)
    requires !p.Segment?
    ensures
      var d' := WriteDurably(d, p, content);
      forall id: nat :: (Segment(id) in d.dir <==> Segment(id) in d'.dir) && (Segment(id) in d.dir ==> d'.dir[Segment(id)] == d.dir[Segment(id)])
  {
  }

  lemma {:induction false} SettleDecides(c: Codec, mode: Mode, now: int, active: nat, w: Work, t: Tear)
    requires !mode.Repair? && Within(w.disk, t)
    ensures
      var s := Settle(c, mode, now, active, w, t);
      if Blocks(c, mode, now, active, w.disk, t) then s == Settled(w, Some(Complaint(c, now, w.disk, t)))
      else
        && s.error.None? && s.work.(disk := w.disk, idx := w.idx) == w
        && ActiveCut(w.disk, s.work.disk, active, [t])
        && s.work.idx == if Drops([t], active, t.segment) then DropSegmentKeys(c, w.idx, t.segment) else w.idx
  {
    hide StrandedAfter, WriteDurably, DropSegmentKeys;
    var file := w.disk.dir[Segment(t.segment)];
    WrittenBeside(w.disk, TornBackup(t.segment, t.offset), file[t.offset..]);
    assert t in [t];
  }

  // ---------- All tears ----------

  ghost predicate AllWithin(d: Disk, tears: seq<Tear>)
  {
    DistinctSegments(tears) && forall t :: t in tears ==> Within(d, t)
  }

  /** The first tear that blocks decides the error. */
  ghost predicate FirstBlock(c: Codec, mode: Mode, now: int, active: nat, d: Disk, tears: seq<Tear>, e: Error)
  {
    exists i :: 0 <= i < |tears|
      && (forall j :: 0 <= j < i ==> !Blocks(c, mode, now, active, d, tears[j]))
      && Blocks(c, mode, now, active, d, tears[i]) && e == Complaint(c, now, d, tears[i])
  }

  lemma {:induction false} OthersWithin(d: Disk, d': Disk, active: nat, t: Tear, rest: seq<Tear>)
    requires AllWithin(d, [t] + rest) && ActiveCut(d, d', active, [t])
    ensures AllWithin(d', rest) && forall x :: x in rest ==> Segment(x.segment) in d.dir && d'.dir[Segment(x.segment)] == d.dir[Segment(x.segment)]
  {
    var ts := [t] + rest;
    assert ts[0] == t && forall i :: 0 <= i < |rest| ==> rest[i] == ts[i + 1];
    forall x | x in rest
      ensures Within(d', x) && Segment(x.segment) in d.dir && d'.dir[Segment(x.segment)] == d.dir[Segment(x.segment)]
    {
      assert x in ts && Within(d, x);
      var i :| 0 <= i < |rest| && rest[i] == x;
      assert ts[0].segment != ts[i + 1].segment;
    }
  }

  lemma {:induction false} CutTwice(d: Disk, d1: Disk, d2: Disk, active: nat, t: Tear, rest: seq<Tear>)
    requires AllWithin(d, [t] + rest) && ActiveCut(d, d1, active, [t]) && ActiveCut(d1, d2, active, rest)
    ensures ActiveCut(d, d2, active, [t] + rest)
  {
    OthersWithin(d, d1, active, t, rest);
    var ts := [t] + rest;
    assert t in ts && t in [t] && forall x :: x in ts <==> x == t || x in rest;
    forall id: nat
      ensures Segment(id) in d.dir <==> Segment(id) in d2.dir
      ensures Segment(id) in d.dir && (forall x :: x in ts ==> x.segment != id || id != active) ==> d2.dir[Segment(id)] == d.dir[Segment(id)]
      ensures forall x :: x in ts && x.segment == id == active && Within(d, x) ==> d2.dir[Segment(id)] == d.dir[Segment(id)][..x.offset]
    {
      assert Segment(id) in d.dir <==> Segment(id) in d1.dir;
      if t.segment == id {
        assert forall x :: x in rest ==> x.segment != id by {
          assert ts[0] == t && forall i :: 0 <= i < |rest| ==> rest[i] == ts[i + 1];
        }
      }
    }
  }

  lemma {:induction false} NothingCut(d: Disk, active: nat)
    ensures ActiveCut(d, d, active, [])
  {
  }

  lemma {:induction false} SameBlocks(c: Codec, mode: Mode, now: int, active: nat, d: Disk, d': Disk, t: Tear)
    requires Segment(t.segment) in d.dir && Segment(t.segment) in d'.dir && d'.dir[Segment(t.segment)] == d.dir[Segment(t.segment)]
    ensures Blocks(c, mode, now, active, d', t) <==> Blocks(c, mode, now, active, d, t)
    ensures Complaint(c, now, d', t) == Complaint(c, now, d, t)
  {
  }

  /** The tears are settled as they were found: whether each blocks does not depend on those before it. */
  lemma {:induction false} SettleAllDecides(c: Codec, mode: Mode, now: int, active: nat, w: Work, tears: seq<Tear>)
    requires !mode.Repair? && AllWithin(w.disk, tears)
    ensures
      var s := SettleAll(c, mode, now, active, w, tears);
      && AtMostCut(c, mode, now, active, w.disk, s.work.disk, tears)
      && if s.error.Some? then FirstBlock(c, mode, now, active, w.disk, tears, s.error.value)
      else
        && (forall t :: t in tears ==> !Blocks(c, mode, now, active, w.disk, t))
        && s.work.(disk := w.disk, idx := w.idx) == w
        && ActiveCut(w.disk, s.work.disk, active, tears)
        && DroppedFrom(w.idx, s.work.idx, tears, active)
    decreases |tears|
  {
    hide Settle, Blocks, Complaint, ActiveCut, AtMostCut, DropSegmentKeys, Drops, DroppedFrom;
    if tears == [] {
      NothingCut(w.disk, active);
      CutByAll(c, mode, now, active, w.disk, w.disk, tears);
      NothingDrops(w.idx, active);
    } else {
      var t, rest := tears[0], tears[1..];
      assert tears == [t] + rest;
      SettleDecides(c, mode, now, active, w, t);
      var s1 := Settle(c, mode, now, active, w, t);
      if s1.error.None? {
        OthersWithin(w.disk, s1.work.disk, active, t, rest);
        SettleAllDecides(c, mode, now, active, s1.work, rest);
        var s := SettleAll(c, mode, now, active, s1.work, rest);
        forall x | x in rest
          ensures Blocks(c, mode, now, active, s1.work.disk, x) <==> Blocks(c, mode, now, active, w.disk, x)
          ensures Complaint(c, now, s1.work.disk, x) == Complaint(c, now, w.disk, x)
        {
          SameBlocks(c, mode, now, active, w.disk, s1.work.disk, x);
        }
        CutMore(c, mode, now, active, w.disk, s1.work.disk, s.work.disk, t, rest);
        if s.error.Some? {
          FirstBlockLater(c, mode, now, active, w.disk, s1.work.disk, t, rest, s.error.value);
        } else {
          CutTwice(w.disk, s1.work.disk, s.work.disk, active, t, rest);
          BothDrop(w.idx, s1.work.idx, s.work.idx, t, rest, active, c);
        }
      } else {
        CutByAll(c, mode, now, active, w.disk, w.disk, tears);
        assert Blocks(c, mode, now, active, w.disk, tears[0]) && s1.error.value == Complaint(c, now, w.disk, tears[0]);
      }
    }
  }

  lemma {:induction false} CutByAll(c: Codec, mode: Mode, now: int, active: nat, d: Disk, d': Disk, tears: seq<Tear>)
    requires d' == d
    ensures AtMostCut(c, mode, now, active, d, d', tears)
  {
  }

  lemma {:induction false} CutMore(c: Codec, mode: Mode, now: int, active: nat, d: Disk, d1: Disk, d2: Disk, t: Tear, rest: seq<Tear>)
    requires ActiveCut(d, d1, active, [t]) && !Blocks(c, mode, now, active, d, t)
    requires AtMostCut(c, mode, now, active, d1, d2, rest)
    requires forall x :: x in rest ==> (Blocks(c, mode, now, active, d1, x) <==> Blocks(c, mode, now, active, d, x))
    ensures AtMostCut(c, mode, now, active, d, d2, [t] + rest)
  {
    hide Blocks;
    var ts := [t] + rest;
    assert t in ts && t in [t] && forall x :: x in rest ==> x in ts;
    forall id: nat | Segment(id) in d.dir && d2.dir[Segment(id)] != d.dir[Segment(id)]
      ensures id == active && exists x :: x in ts && x.segment == id && !Blocks(c, mode, now, active, d, x)
    {
      if d1.dir[Segment(id)] != d.dir[Segment(id)] {
        assert t.segment == id && id == active;
      } else {
        var x :| x in rest && x.segment == id && !Blocks(c, mode, now, active, d1, x);
      }
    }
  }

  lemma {:induction false} FirstBlockLater(c: Codec, mode: Mode, now: int, active: nat, d: Disk, d': Disk, t: Tear, rest: seq<Tear>, e: Error)
    requires AllWithin(d, [t] + rest) && AllWithin(d', rest) && FirstBlock(c, mode, now, active, d', rest, e)
    requires !Blocks(c, mode, now, active, d, t)
    requires forall x :: x in rest ==>
      (Blocks(c, mode, now, active, d', x) <==> Blocks(c, mode, now, active, d, x)) && Complaint(c, now, d', x) == Complaint(c, now, d, x)
    ensures FirstBlock(c, mode, now, active, d, [t] + rest, e)
  {
    hide Blocks, Complaint;
    var ts := [t] + rest;
    var i :| 0 <= i < |rest|
      && (forall j :: 0 <= j < i ==> !Blocks(c, mode, now, active, d', rest[j]))
      && Blocks(c, mode, now, active, d', rest[i]) && e == Complaint(c, now, d', rest[i]);
    assert ts[i + 1] == rest[i] && rest[i] in rest;
    forall j | 0 <= j < i + 1
      ensures !Blocks(c, mode, now, active, d, ts[j])
    {
      if j > 0 {
        assert ts[j] == rest[j - 1] && rest[j - 1] in rest;
      }
    }
  }

  // ---------- The opening ----------

  lemma {:induction false} TearsWithin(c: Codec, d: Disk, ids: seq<nat>)
    requires Listing(d, ids)
    ensures AllWithin(d, PassAll(c, d, ids).tears)
  {
    PassFindsTears(c, d, ids);
    hide PassAll;
    forall t | t in PassAll(c, d, ids).tears
      ensures Within(d, t)
    {
      assert t.segment in ids;
    }
  }

  lemma {:induction false} SeedDecides(m: Merge, active: nat, s: Settled)
    ensures
      var disk, next := OpenActive(s.work.disk, active), Max(s.work.maxNormal, active) + 1;
      match Seed(m, active, s)
      case Refused(d, e) =>
        if s.error.Some? then d == s.work.disk && e == s.error.value else e == OutOfSegmentIds && next >= COMPACTION_ID_BASE
      case Running(db) =>
        && s.error.None? && next < COMPACTION_ID_BASE && db.idx == s.work.idx
        && db.activeId == active && db.nextSeq == m.highest + 1
        && db.segmentCounter == next && db.compactionCounter == Max(s.work.maxSegment + 1, COMPACTION_ID_BASE)
        && db.disk == disk && Segment(active) in disk.dir && db.activeSize == |disk.dir[Segment(active)]|
  {
  }

  /**
   * An opening in Default or Strict mode refuses exactly over the first tear that blocks, or for want of ids.
   * Otherwise it runs on the same segments, the active one cut where it is torn or created if there is none, with
   * all replayed keys but those of damaged segments that are not active.
   */
  lemma {:induction false} OpenDecides(c: Codec, mode: Mode, now: int, d: Disk, ids: seq<nat>)
    requires !mode.Repair? && Listing(d, ids)
    ensures AllWithin(d, PassAll(c, d, ids).tears)
    ensures
      var pass := PassAll(c, d, ids);
      var active := ChooseActive(pass.summaries);
      var outOfIds := Max(MaxNormalId(ids), active) + 1 >= COMPACTION_ID_BASE;
      match Open(c, mode, now, d, ids)
      case Refused(d', e) =>
        if FirstBlock(c, mode, now, active, d, pass.tears, e) then AtMostCut(c, mode, now, active, d, d', pass.tears)
        else outOfIds && e == OutOfSegmentIds && forall t :: t in pass.tears ==> !Blocks(c, mode, now, active, d, t)
      case Running(db) =>
        && !outOfIds && (forall t :: t in pass.tears ==> !Blocks(c, mode, now, active, d, t))
        && db.activeId == active && db.nextSeq == pass.merge.highest + 1
        && db.segmentCounter == Max(MaxNormalId(ids), active) + 1 && db.compactionCounter == Max(MaxId(ids) + 1, COMPACTION_ID_BASE)
        && DroppedFrom(pass.merge.idx, db.idx, pass.tears, active)
        && (exists d1 :: ActiveCut(d, d1, active, pass.tears) && db.disk == OpenActive(d1, active))
        && Segment(active) in db.disk.dir && db.activeSize == |db.disk.dir[Segment(active)]|
  {
    TearsWithin(c, d, ids);
    hide PassAll, ChooseActive, SettleAll, Blocks, ActiveCut, AtMostCut, DroppedFrom, MaxNormalId, MaxId, OpenActive, FirstBlock, AllWithin;
    var pass := PassAll(c, d, ids);
    var active := ChooseActive(pass.summaries);
    var w := Work(d, pass.merge.idx, MaxNormalId(ids), MaxId(ids));
    SettleAllDecides(c, mode, now, active, w, pass.tears);
    var s := SettleAll(c, mode, now, active, w, pass.tears);
    SeedDecides(pass.merge, active, s);
    assert Open(c, mode, now, d, ids) == Seed(pass.merge, active, s);
    hide Open, Seed;
    if s.error.None? {
      assert ActiveCut(d, s.work.disk, active, pass.tears);
    }
  }

  // ---------- Strict mode ----------

  lemma {:induction false} StrictSettlesOne(c: Codec, now: int, active: nat, w: Work, t: Tear)
    requires !Damaged(t)
    ensures Settle(c, Strict, now, active, w, t) == Settle(c, Default, now, active, w, t)
  {
    hide StrandedAfter, WriteDurably, TruncateSync, DropSegmentKeys;
  }

  lemma {:induction false} StrictSettles(c: Codec, now: int, active: nat, w: Work, tears: seq<Tear>)
    requires forall t :: t in tears ==> !Damaged(t)
    ensures SettleAll(c, Strict, now, active, w, tears) == SettleAll(c, Default, now, active, w, tears)
    decreases |tears|
  {
    if tears != [] {
      var t := tears[0];
      StrictSettlesOne(c, now, active, w, t);
      hide Settle, Damaged;
      var s := Settle(c, Default, now, active, w, t);
      if s.error.None? {
        StrictSettles(c, now, active, s.work, tears[1..]);
      }
    }
  }

  /** Strict mode opens what Default mode opens, in the same way, unless some segment is damaged; then it refuses. */
  lemma {:induction false} StrictExact(c: Codec, now: int, d: Disk, ids: seq<nat>)
    requires Listing(d, ids)
    ensures
      var strict, default := Open(c, Strict, now, d, ids), Open(c, Default, now, d, ids);
      && (default.Refused? ==> strict.Refused?)
      && (default.Running? ==>
            if exists t :: t in PassAll(c, d, ids).tears && Damaged(t) then strict.Refused? && strict.error.StrictMismatch?
            else strict == default)
  {
    OpenDecides(c, Strict, now, d, ids);
    OpenDecides(c, Default, now, d, ids);
    hide PassAll, ChooseActive, Blocks, MaxNormalId, MaxId, OpenActive, SettleAll, ActiveCut, AtMostCut, DroppedFrom, Damaged;
    var pass := PassAll(c, d, ids);
    var active := ChooseActive(pass.summaries);
    forall t
      ensures Blocks(c, Default, now, active, d, t) ==> Blocks(c, Strict, now, active, d, t)
      ensures Damaged(t) ==> Blocks(c, Strict, now, active, d, t)
      ensures Blocks(c, Strict, now, active, d, t) && !Blocks(c, Default, now, active, d, t) ==> Complaint(c, now, d, t).StrictMismatch?
    {
      StrictBlocks(c, now, active, d, t);
    }
    hide Complaint;
    var strict, default := Open(c, Strict, now, d, ids), Open(c, Default, now, d, ids);
    if default.Running? {
      if t :| t in pass.tears && Damaged(t) {
        assert strict.Refused?;
      } else {
        StrictSettles(c, now, active, Work(d, pass.merge.idx, MaxNormalId(ids), MaxId(ids)), pass.tears);
      }
    }
  }

  lemma {:induction false} StrictBlocks(c: Codec, now: int, active: nat, d: Disk, t: Tear)
    ensures Blocks(c, Default, now, active, d, t) ==> Blocks(c, Strict, now, active, d, t)
    ensures Damaged(t) ==> Blocks(c, Strict, now, active, d, t)
    ensures Blocks(c, Strict, now, active, d, t) && !Blocks(c, Default, now, active, d, t) ==> Complaint(c, now, d, t).StrictMismatch?
  {
    hide Behind;
  }

  // ---------- Valid frames behind damage ----------

  lemma {:induction false} LayoutMax(c: Codec, rs: seq<Record>, base: nat)
    ensures PrefixMax(Layout(c, rs, base)) == MaxSeq(rs)
    decreases |rs|
  {
    hide EncodeFrame;
    if rs != [] {
      var next := base + |EncodeFrame(c, rs[0])|;
      LayoutMax(c, rs[1..], next);
      PrefixMaxCons(Located(base, rs[0]), Layout(c, rs[1..], next));
      hide PrefixMax;
    }
  }

  lemma {:induction false} PrefixMaxCons(l: Located, ls: seq<Located>)
    ensures PrefixMax([l] + ls) == Max(l.rec.seqId, PrefixMax(ls))
    decreases |ls|
  {
    var all := [l] + ls;
    if ls == [] {
      assert all[..0] == [] && PrefixMax([]) == 0;
    } else {
      PrefixMaxCons(l, ls[..|ls| - 1]);
      assert all[..|all| - 1] == [l] + ls[..|ls| - 1];
    }
  }

  /** The tear a damaged segment is listed with. */
  lemma {:induction false} DamageListed(c: Codec, d: Disk, ids: seq<nat>, id: nat, before: seq<Record>, r: Record, p: bytes) returns (t: Tear)
    requires Listing(d, ids) && id in ids
    requires c.Lawful() && AllWritable(c, before) && EncodeAll(c, before) <= d.dir[Segment(id)]
    requires DamagedAt(c, d.dir[Segment(id)], |EncodeAll(c, before)|, r, p)
    ensures t in PassAll(c, d, ids).tears && t == Tear(id, |EncodeAll(c, before)|, MaxSeq(before), CrcTear)
  {
    hide PassAll, Scan, EncodeAll, EncodeFrame, DamagedAt, AllWritable, Layout, ReadAt, MaxSeq;
    DamageStopsReplay(c, d.dir[Segment(id)], before, r, p);
    LayoutMax(c, before, 0);
    RepairRerun.PassListed(c, d, ids);
    t :| t in PassAll(c, d, ids).tears && t.segment == id;
    assert RepairOutcome.IsTear(c, d, t);
  }

  /** In Strict mode a damaged payload is never opened over, whatever lies behind it. */
  lemma {:induction false} StrictRefusesDamage(c: Codec, now: int, d: Disk, ids: seq<nat>, id: nat, before: seq<Record>, r: Record, p: bytes)
    requires Listing(d, ids) && id in ids
    requires c.Lawful() && AllWritable(c, before) && EncodeAll(c, before) <= d.dir[Segment(id)]
    requires DamagedAt(c, d.dir[Segment(id)], |EncodeAll(c, before)|, r, p)
    ensures Open(c, Strict, now, d, ids).Refused?
  {
    hide Open, PassAll, Blocks, ChooseActive, AllWithin, MaxNormalId, FirstBlock, AtMostCut, EncodeAll, DamagedAt, AllWritable, ActiveCut, DroppedFrom;
    var t := DamageListed(c, d, ids, id, before, r, p);
    OpenDecides(c, Strict, now, d, ids);
    StrictBlocks(c, now, ChooseActive(PassAll(c, d, ids).summaries), d, t);
  }

  /**
   * A log of plausible records behind a damaged one is never passed over: Default and Strict mode refuse, and
   * leave that segment as it is; where it is the only torn one, the error counts exactly those records.
   */
  lemma {:induction false} StrandedRefused(c: Codec, mode: Mode, now: int, d: Disk, ids: seq<nat>, id: nat, before: seq<Record>, r: Record, p: bytes,
                                           off: nat, behind: seq<Record>, end: bytes)
    requires !mode.Repair? && Listing(d, ids) && id in ids
    requires c.Lawful() && AllWritable(c, before) && EncodeAll(c, before) <= d.dir[Segment(id)]
    requires DamagedAt(c, d.dir[Segment(id)], |EncodeAll(c, before)|, r, p)
    requires AllWritable(c, behind) && AllPlausible(c, now, behind) && TornEnd(c, now, end) && behind != []
    requires |EncodeAll(c, before)| < off <= |d.dir[Segment(id)]| && d.dir[Segment(id)][off..] == EncodeAll(c, behind) + end
    requires id < COMPACTION_ID_BASE ==> AscendFrom(MaxSeq(before), behind)
    requires
      var minSeq := if id < COMPACTION_ID_BASE then Some(MaxSeq(before)) else None;
      forall q :: |EncodeAll(c, before)| < q < off ==> !Credible(c, d.dir[Segment(id)], q, now, minSeq)
    ensures
      var o := Open(c, mode, now, d, ids);
      && o.Refused?
      && Segment(id) in o.disk.dir && o.disk.dir[Segment(id)] == d.dir[Segment(id)]
      && (|PassAll(c, d, ids).tears| == 1 ==> o.error == RecoveryRequired(id, |EncodeAll(c, before)|, |behind|))
  {
    var t := DamageListed(c, d, ids, id, before, r, p);
    StrandedExact(c, d.dir[Segment(id)], t.offset, off, now, MinSeq(t), behind, end);
    assert Behind(c, now, d, t) == Reported(c, behind, off);
    var active := ChooseActive(PassAll(c, d, ids).summaries);
    assert Blocks(c, mode, now, active, d, t);
    assert Complaint(c, now, d, t) == RecoveryRequired(id, |EncodeAll(c, before)|, |behind|);
    OpenDecides(c, mode, now, d, ids);
    BlockedStays(c, mode, now, d, ids, t);
    hide Open, PassAll, Blocks, ChooseActive, AllWithin, MaxNormalId, AtMostCut, Complaint;
  }

  lemma {:induction false} BlockedStays(c: Codec, mode: Mode, now: int, d: Disk, ids: seq<nat>, t: Tear)
    requires !mode.Repair? && Listing(d, ids) && t in PassAll(c, d, ids).tears && Segment(t.segment) in d.dir
    requires Blocks(c, mode, now, ChooseActive(PassAll(c, d, ids).summaries), d, t)
    ensures
      var o := Open(c, mode, now, d, ids);
      o.Refused? && Segment(t.segment) in o.disk.dir && o.disk.dir[Segment(t.segment)] == d.dir[Segment(t.segment)]
  {
    OpenDecides(c, mode, now, d, ids);
    hide Open, PassAll, Blocks, ChooseActive, MaxNormalId, Complaint, DroppedFrom, ActiveCut;
    var pass := PassAll(c, d, ids);
    var active := ChooseActive(pass.summaries);
    var o := Open(c, mode, now, d, ids);
    assert AtMostCut(c, mode, now, active, d, o.disk, pass.tears);
    OneTear(d, pass.tears, t);
    hide FirstBlock;
  }

  lemma {:induction false} OneTear(d: Disk, tears: seq<Tear>, t: Tear)
    requires AllWithin(d, tears) && t in tears
    ensures forall x :: x in tears && x.segment == t.segment ==> x == t
  {
    forall x | x in tears && x.segment == t.segment
      ensures x == t
    {
      var i :| 0 <= i < |tears| && tears[i] == x;
      var j :| 0 <= j < |tears| && tears[j] == t;
      assert i == j;
    }
  }

  /** In a segment that is not compacted only newer frames count: their ids lie above all before the tear, and increase. */
  lemma {:induction false} BehindIsNewer(c: Codec, now: int, d: Disk, t: Tear)
    requires t.segment < COMPACTION_ID_BASE
    ensures forall i :: 0 <= i < |Behind(c, now, d, t)| ==> Behind(c, now, d, t)[i].seqId > t.maxPrefix
    ensures forall i :: 0 < i < |Behind(c, now, d, t)| ==> Behind(c, now, d, t)[i - 1].seqId < Behind(c, now, d, t)[i].seqId
  {
    if Segment(t.segment) in d.dir {
      var file := d.dir[Segment(t.segment)];
      var resync := FirstCredible(c, file, t.offset + 1, now, MinSeq(t));
      if resync.Some? {
        RunAscends(c, file, resync.value, now, t.maxPrefix, t.maxPrefix);
      }
    }
  }

  lemma {:induction false} RunAscends(c: Codec, file: bytes, pos: nat, now: int, min: nat, last: nat)
    ensures
      var fs := Resync.Run(c, file, pos, now, Some(min), last);
      && (forall i :: 0 <= i < |fs| ==> fs[i].seqId > min)
      && (fs != [] ==> fs[0].seqId > last)
      && (forall i :: 0 < i < |fs| ==> fs[i - 1].seqId < fs[i].seqId)
    decreases |file| - pos
  {
    hide ValidFrame;
    var f := ValidFrame(c, file, pos, now);
    var fs := Resync.Run(c, file, pos, now, Some(min), last);
    if fs != [] {
      RunAscends(c, file, pos + f.value.len, now, min, f.value.seqId);
      assert fs[1..] == Resync.Run(c, file, pos + f.value.len, now, Some(min), f.value.seqId);
      forall i | 0 < i < |fs|
        ensures fs[i].seqId > min && fs[i - 1].seqId < fs[i].seqId
      {
        assert fs[i] == fs[1..][i - 1];
        assert i > 1 ==> fs[i - 1] == fs[1..][i - 2];
      }
    }
  }

  // ---------- The active segment ----------

  /** Written later: by the greatest sequence id, and of two with the same the one with the higher segment id. */
  predicate NotAfter(q: Summary, s: Summary)
  {
    q.maxSeq < s.maxSeq || (q.maxSeq == s.maxSeq && q.id <= s.id)
  }

  /**
   * Of segments in ascending order, the last one is active if it holds no frame, and else the one written last;
   * without segments it is segment 1.
   */
  lemma {:induction false} ActiveExact(ss: seq<Summary>, s: Summary)
    requires forall i, j :: 0 <= i < j < |ss| ==> ss[i].id < ss[j].id
    ensures ss == [] ==> ChooseActive(ss) == 1
    ensures ss != [] && !ss[|ss| - 1].hasFrame ==> ChooseActive(ss) == ss[|ss| - 1].id
    ensures ss != [] && ss[|ss| - 1].hasFrame && s in ss && s.hasFrame && (forall q :: q in ss && q.hasFrame ==> NotAfter(q, s)) ==>
      ChooseActive(ss) == s.id
  {
    NewestIsLast(ss);
    MostRecentIs(ss);
  }

  lemma {:induction false} NewestIsLast(ss: seq<Summary>)
    requires forall i, j :: 0 <= i < j < |ss| ==> ss[i].id < ss[j].id
    ensures Newest(ss) == if ss == [] then None else Some(ss[|ss| - 1])
  {
    if ss != [] {
      NewestIsLast(ss[..|ss| - 1]);
    }
  }

  lemma {:induction false} MostRecentIs(ss: seq<Summary>)
    requires forall i, j :: 0 <= i < j < |ss| ==> ss[i].id < ss[j].id
    ensures MostRecent(ss).None? <==> forall q :: q in ss ==> !q.hasFrame
    ensures MostRecent(ss).Some? ==>
      var s := MostRecent(ss).value;
      s in ss && s.hasFrame && forall q :: q in ss && q.hasFrame ==> NotAfter(q, s)
  {
    if ss != [] {
      var init, last := ss[..|ss| - 1], ss[|ss| - 1];
      MostRecentIs(init);
      assert ss == init + [last];
      assert forall q :: q in ss <==> q in init || q == last;
      hide NotAfter, MoreRecent;
      var best := MostRecent(init);
      if best.Some? && last.hasFrame {
        Later(best.value, last);
        forall q | q in init && NotAfter(q, best.value) && MoreRecent(last, best.value)
          ensures NotAfter(q, last)
        {
          LaterStill(q, best.value, last);
        }
      }
    }
  }

  lemma {:induction false} Later(best: Summary, last: Summary)
    ensures MoreRecent(last, best) <==> NotAfter(best, last)
    ensures MoreRecent(last, best) || NotAfter(last, best)
    ensures NotAfter(best, best) && NotAfter(last, last)
  {
  }

  lemma {:induction false} LaterStill(q: Summary, best: Summary, last: Summary)
    requires NotAfter(q, best) && MoreRecent(last, best)
    ensures NotAfter(q, last)
  {
  }
}
