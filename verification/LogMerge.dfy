/**
 * Recovery's merge: frames are replayed in file order, which is not sequence order (a compacted
 * segment has a high id but old frames), so a per-key watermark decides which frame wins.
 */
module LogMerge {
  import opened Bytes
  import opened Types
  import opened Frames
  import opened Index

  datatype Placed = Placed(ptr: LogPointer, rec: Record)

  /** The state of the replay loop: both indexes, `seq_watermarks` and `highest_seq`. */
  datatype Merge = Merge(idx: Index, marks: map<string, nat>, highest: nat)

  const EMPTY_MERGE: Merge := Merge(EMPTY_INDEX, map[], 0)

  predicate IsNewer(m: Merge, r: Record)
  {
    var k := r.Compound();
    if k in m.marks then r.seqId > m.marks[k]
    else if k in m.idx.primary then r.seqId > m.idx.primary[k].seqId
    else true
  }

  function MergeStep(c: Codec, m: Merge, p: Placed): Merge
  {
    var high: nat := Max(p.rec.seqId, m.highest);
    if IsNewer(m, p.rec) then
      Merge(Apply(c, m.idx, p.rec, p.ptr), m.marks[p.rec.Compound() := p.rec.seqId], high)
    else
      m.(highest := high)
  }

  function MergeFrom(c: Codec, m: Merge, ps: seq<Placed>): Merge
  {
    if ps == [] then m else MergeStep(c, MergeFrom(c, m, ps[..|ps| - 1]), ps[|ps| - 1])
  }

  function MergeAll(c: Codec, ps: seq<Placed>): Merge
  {
    MergeFrom(c, EMPTY_MERGE, ps)
  }

  lemma {:induction false} MergeConcat(c: Codec, m: Merge, ps: seq<Placed>, qs: seq<Placed>)
    ensures MergeFrom(c, m, ps + qs) == MergeFrom(c, MergeFrom(c, m, ps), qs)
    decreases |qs|
  {
    if qs == [] {
      assert ps + qs == ps;
    } else {
      MergeConcat(c, m, ps, qs[..|qs| - 1]);
      assert (ps + qs)[..|ps + qs| - 1] == ps + qs[..|qs| - 1];
    }
  }

  // ---------- The database a set of frames stands for ----------

  ghost predicate Flagged(r: Record)
  {
    r.IsTombstone() || r.IsActive()
  }

  /** Sequence ids are never reused: frames that share one are copies of each other. */
  ghost predicate Consistent(s: set<Record>)
  {
    && (forall a, b :: a in s && b in s && a.seqId == b.seqId ==> a == b)
    && (forall a :: a in s ==> Flagged(a))
  }

  /** `r` is the newest frame of its key. */
  ghost predicate IsTop(s: set<Record>, r: Record)
  {
    r in s && forall q :: q in s && q.Compound() == r.Compound() ==> q.seqId <= r.seqId
  }

  /** Each key maps to its newest frame if that frame is active, and to nothing if it is a tombstone. */
  ghost function LiveView(s: set<Record>): map<string, Record>
    requires Consistent(s)
  {
    map r | r in s && IsTop(s, r) && r.IsActive() :: r.Compound() := r
  }

  ghost function RecordsOf(ps: seq<Placed>): set<Record>
  {
    set p | p in ps :: p.rec
  }

  ghost predicate Placing(p: Placed)
  {
    p.ptr.seqId == p.rec.seqId && p.ptr.timestamp == p.rec.timestamp
  }

  ghost predicate WellPlaced(ps: seq<Placed>)
  {
    (forall p :: p in ps ==> Placing(p)) && Consistent(RecordsOf(ps))
  }

  lemma {:induction false} RecordsSnoc(ps: seq<Placed>, p: Placed)
    ensures RecordsOf(ps + [p]) == RecordsOf(ps) + {p.rec}
  {
    forall r
      ensures r in RecordsOf(ps + [p]) <==> r in RecordsOf(ps) + {p.rec}
    {
      if r in RecordsOf(ps) {
        var q :| q in ps && q.rec == r;
        assert q in ps + [p];
      }
      assert p in ps + [p];
    }
  }

  /** Adding a frame newer than every frame of its key is applying it to the database. */
  lemma {:induction false} LiveViewNewer(s: set<Record>, r: Record)
    requires Consistent(s + {r})
    requires forall q :: q in s && q.Compound() == r.Compound() ==> q.seqId < r.seqId
    ensures LiveView(s + {r}) == ApplyView(LiveView(s), r)
  {
    hide LiveView;
    var s' := s + {r};
    LiveViewSound(s);
    LiveViewSound(s');
    assert IsTop(s', r);
    assert forall q :: q in s && q.Compound() != r.Compound() ==> (IsTop(s', q) <==> IsTop(s, q));
    var v, v', w := LiveView(s), LiveView(s'), ApplyView(LiveView(s), r);
    forall k
      ensures k in v' ==> k in w && v'[k] == w[k]
      ensures k in w ==> k in v'
    {
      if k in v' && k != r.Compound() {
        assert IsTop(s, v'[k]);
      }
      if k in w && k != r.Compound() {
        assert IsTop(s', v[k]);
      }
    }
  }

  /** Adding a frame that is not newer than some frame of its key changes nothing. */
  lemma {:induction false} LiveViewOlder(s: set<Record>, r: Record, w: Record)
    requires Consistent(s + {r})
    requires w in s && w.Compound() == r.Compound() && r.seqId <= w.seqId
    ensures LiveView(s + {r}) == LiveView(s)
  {
    var s' := s + {r};
    if r.seqId == w.seqId {
      assert r in s';
      assert s' == s;
    } else {
      forall q | q in s'
        ensures IsTop(s', q) <==> q in s && IsTop(s, q)
      {
        if q in s && IsTop(s, q) && q.Compound() == r.Compound() {
          assert w.seqId <= q.seqId;
        }
      }
    }
  }

  // ---------- The merge computes it ----------

  ghost predicate MarksMatch(marks: map<string, nat>, s: set<Record>)
  {
    && (forall r :: r in s ==> r.Compound() in marks && r.seqId <= marks[r.Compound()])
    && (forall k :: k in marks ==> exists r :: r in s && r.Compound() == k && r.seqId == marks[k])
  }

  ghost predicate SeqsFrom(idx: Index, s: set<Record>)
  {
    forall q :: (forall r :: r in s ==> r.seqId != q) ==> FreshSeq(idx, q)
  }

  /** Every primary pointer leads to a copy of the record it stands for. */
  ghost predicate PointsInto(idx: Index, view: map<string, Record>, ps: seq<Placed>)
  {
    forall k :: k in view && k in idx.primary ==> Placed(idx.primary[k], view[k]) in ps
  }

  ghost predicate Merged(c: Codec, m: Merge, ps: seq<Placed>)
    requires WellPlaced(ps)
  {
    var s := RecordsOf(ps);
    && Represents(m.idx, LiveView(s))
    && Accounted(c, m.idx)
    && PointsInto(m.idx, LiveView(s), ps)
    && MarksMatch(m.marks, s)
    && SeqsFrom(m.idx, s)
    && (forall r :: r in s ==> r.seqId <= m.highest)
  }

  lemma {:induction false} MergeNewer(c: Codec, m: Merge, ps: seq<Placed>, p: Placed)
    requires WellPlaced(ps + [p]) && WellPlaced(ps) && Merged(c, m, ps)
    requires IsNewer(m, p.rec)
    ensures Merged(c, MergeStep(c, m, p), ps + [p])
  {
    hide Represents, Accounted, FreshSeq, Apply;
    var s, r := RecordsOf(ps), p.rec;
    RecordsSnoc(ps, p);
    assert Placing(p) by { assert p in ps + [p]; }
    assert forall q :: q in s ==> q.seqId != r.seqId by {
      assert forall q :: q in s && q.seqId == r.seqId ==> q == r;
    }
    assert forall q :: q in s && q.Compound() == r.Compound() ==> q.seqId < r.seqId;
    assert FreshSeq(m.idx, r.seqId);
    LiveViewNewer(s, r);
    ApplyRepresents(c, m.idx, LiveView(s), r, p.ptr);
    FreshNotFiled(m.idx, r.stream, r.timestamp, r.seqId);
    ApplyAccounted(c, m.idx, r, p.ptr);
    RepresentsKeys(m.idx, LiveView(s));
    ApplyPointsInto(c, m.idx, LiveView(s), ps, p);
    MarksSnoc(m.marks, s, r);
  }

  lemma {:induction false} FreshNotFiled(idx: Index, stream: string, t: int, q: nat)
    requires FreshSeq(idx, q)
    ensures (t, q) !in TimesOf(idx, stream)
  {
  }

  lemma {:induction false} MarksSnoc(marks: map<string, nat>, s: set<Record>, r: Record)
    requires MarksMatch(marks, s)
    requires r.Compound() in marks ==> marks[r.Compound()] < r.seqId
    ensures MarksMatch(marks[r.Compound() := r.seqId], s + {r})
  {
    var marks', s' := marks[r.Compound() := r.seqId], s + {r};
    forall k | k in marks'
      ensures exists q :: q in s' && q.Compound() == k && q.seqId == marks'[k]
    {
      if k == r.Compound() {
        assert r in s';
      } else {
        var q :| q in s && q.Compound() == k && q.seqId == marks[k];
        assert q in s';
      }
    }
  }

  lemma {:induction false} ApplyPointsInto(c: Codec, idx: Index, view: map<string, Record>, ps: seq<Placed>, p: Placed)
    requires PointsInto(idx, view, ps) && idx.primary.Keys == view.Keys
    ensures PointsInto(Apply(c, idx, p.rec, p.ptr), ApplyView(view, p.rec), ps + [p])
  {
    var idx', view' := Apply(c, idx, p.rec, p.ptr), ApplyView(view, p.rec);
    forall k | k in view' && k in idx'.primary
      ensures Placed(idx'.primary[k], view'[k]) in ps + [p]
    {
      if k == p.rec.Compound() && p.rec.IsActive() {
        assert Placed(idx'.primary[k], view'[k]) == p;
      } else {
        assert Placed(idx.primary[k], view[k]) in ps;
      }
    }
  }

  lemma {:induction false} MergeOlder(c: Codec, m: Merge, ps: seq<Placed>, p: Placed)
    requires WellPlaced(ps + [p]) && WellPlaced(ps) && Merged(c, m, ps)
    requires !IsNewer(m, p.rec)
    ensures Merged(c, MergeStep(c, m, p), ps + [p])
  {
    hide Represents, Accounted, FreshSeq;
    var s, r := RecordsOf(ps), p.rec;
    RecordsSnoc(ps, p);
    RepresentsKeys(m.idx, LiveView(s));
    LiveViewSound(s);
    assert r.Compound() in m.marks;
    var w :| w in s && w.Compound() == r.Compound() && w.seqId == m.marks[r.Compound()];
    LiveViewOlder(s, r, w);
  }

  lemma {:induction false} LiveViewSound(s: set<Record>)
    requires Consistent(s)
    ensures forall k :: k in LiveView(s) ==>
      LiveView(s)[k] in s && LiveView(s)[k].Compound() == k && LiveView(s)[k].IsActive() && IsTop(s, LiveView(s)[k])
    ensures forall r :: r in s && IsTop(s, r) && r.IsActive() ==> r.Compound() in LiveView(s) && LiveView(s)[r.Compound()] == r
  {
  }

  /** Replaying frames in any order yields indexes for exactly the database those frames stand for. */
  lemma {:induction false} MergeAllMerged(c: Codec, ps: seq<Placed>)
    requires WellPlaced(ps)
    ensures Merged(c, MergeAll(c, ps), ps)
  {
    if ps == [] {
      assert LiveView(RecordsOf(ps)) == map[];
      assert TimeEntries(EMPTY_INDEX.times) == {};
    } else {
      var prefix, p := ps[..|ps| - 1], ps[|ps| - 1];
      assert ps == prefix + [p];
      MergeAllMerged(c, prefix);
      var m := MergeAll(c, prefix);
      if IsNewer(m, p.rec) {
        MergeNewer(c, m, prefix, p);
      } else {
        MergeOlder(c, m, prefix, p);
      }
    }
  }

  /**
   * The merge is order-independent: two replays of the same set of frames, in any order and with
   * any duplicate copies (compaction leaves some), index the same database.
   */
  lemma {:induction false} OrderIndependent(c: Codec, ps: seq<Placed>, qs: seq<Placed>)
    requires WellPlaced(ps) && WellPlaced(qs)
    requires RecordsOf(ps) == RecordsOf(qs)
    ensures
      var view := LiveView(RecordsOf(ps));
      && Represents(MergeAll(c, ps).idx, view)
      && Represents(MergeAll(c, qs).idx, view)
      && MergeAll(c, ps).idx.primary.Keys == MergeAll(c, qs).idx.primary.Keys
      && MergeAll(c, ps).highest == MergeAll(c, qs).highest
  {
    MergeAllMerged(c, ps);
    MergeAllMerged(c, qs);
    HighestAttained(c, ps);
    HighestAttained(c, qs);
  }

  lemma {:induction false} HighestAttained(c: Codec, ps: seq<Placed>)
    ensures MergeAll(c, ps).highest == 0 || exists r :: r in RecordsOf(ps) && r.seqId == MergeAll(c, ps).highest
  {
    if ps != [] {
      var prefix, p := ps[..|ps| - 1], ps[|ps| - 1];
      HighestAttained(c, prefix);
      assert ps == prefix + [p];
      RecordsSnoc(prefix, p);
    }
  }
}
