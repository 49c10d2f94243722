/** Recovery's replay pass on a disk described by its history. */
module ShelfReplay {
  import opened Wrappers
  import opened Bytes
  import opened Types
  import opened Frames
  import opened Index
  import opened LogMerge
  import opened Disk
  import opened GroupCommit
  import opened FlushIndex
  import opened Flusher
  import opened Recovery
  import opened Shelves

  ghost function ShelfPlaces(c: Codec, s: Shelf): seq<Placed>
  {
    Places(s.id, Layout(c, s.recs, 0))
  }

  ghost function AllPlaces(c: Codec, ss: seq<Shelf>): seq<Placed>
  {
    if ss == [] then [] else AllPlaces(c, ss[..|ss| - 1]) + ShelfPlaces(c, ss[|ss| - 1])
  }

  ghost function SummaryOf(s: Shelf): Summary
  {
    Summary(s.id, MaxSeq(s.recs), |s.recs| > 0)
  }

  ghost function SummariesOf(ss: seq<Shelf>): seq<Summary>
  {
    if ss == [] then [] else SummariesOf(ss[..|ss| - 1]) + [SummaryOf(ss[|ss| - 1])]
  }

  /** The records replay finds: the newest segment also holds the whole frames of the torn write. */
  ghost function Found(c: Codec, ss: seq<Shelf>, extra: seq<Record>, t: nat): seq<Shelf>
  {
    if ss == [] then [] else
    var top := ss[|ss| - 1];
    ss[..|ss| - 1] + [Shelf(top.id, top.recs + extra[..WholeFrames(c, extra, t)])]
  }

  ghost function IdsOf(ss: seq<Shelf>): (ids: seq<nat>)
    ensures |ids| == |ss| && forall i :: 0 <= i < |ss| ==> ids[i] == ss[i].id
  {
    seq(|ss|, i requires 0 <= i < |ss| => ss[i].id)
  }

  /** The one tear such a disk can have: left-over bytes behind the newest segment's whole frames. */
  ghost function TearsOf(c: Codec, ss: seq<Shelf>, extra: seq<Record>, t: nat): seq<Tear>
  {
    if ss == [] then [] else
    var top := Found(c, ss, extra, t)[|ss| - 1];
    var whole := |EncodeAll(c, top.recs)|;
    var left := |EncodeAll(c, ss[|ss| - 1].recs)| + t - whole;
    if left <= 0 then [] else [Tear(top.id, whole, PrefixMax(Layout(c, top.recs, 0)), TearOf(left).value)]
  }

  lemma {:induction false} HistoryLast(ss: seq<Shelf>)
    requires ss != []
    ensures History(ss) == History(ss[..|ss| - 1]) + ss[|ss| - 1].recs
  {
  }

  /** One segment of the replay pass. */
  lemma {:induction false} TopPass(c: Codec, d: Disk, init: seq<Shelf>, s: Shelf, extra: seq<Record>, t: nat)
    requires c.Lawful() && AllWritable(c, s.recs + extra)
    requires TopShelf(c, d, s, extra, t) && s.id < COMPACTION_ID_BASE
    ensures
      var top := Shelf(s.id, s.recs + extra[..WholeFrames(c, extra, t)]);
      PassSegment(c, Pass(MergeAll(c, AllPlaces(c, init)), SummariesOf(init), []), s.id, d.dir[Segment(s.id)])
        == Pass(MergeAll(c, AllPlaces(c, init) + ShelfPlaces(c, top)), SummariesOf(init) + [SummaryOf(top)], TearsOf(c, init + [s], extra, t))
  {
    hide EncodeAll, Scan, Writable, WholeFrames, Layout, MergeFrom, SummariesOf, AllPlaces, PrefixMax, MaxSeq, History;
    var file := d.dir[Segment(s.id)];
    var top := Shelf(s.id, s.recs + extra[..WholeFrames(c, extra, t)]);
    ScanShelf(c, file, s.recs, extra, t);
    MergeConcat(c, EMPTY_MERGE, AllPlaces(c, init), ShelfPlaces(c, top));
    assert (init + [s])[..|init|] == init;
    assert (init + [s])[|init|] == s;
  }

  lemma {:induction false} PassFull(c: Codec, d: Disk, ss: seq<Shelf>)
    requires c.Lawful() && AllWritable(c, History(ss))
    requires forall i :: 0 <= i < |ss| ==> FullShelf(c, d, ss[i]) && ss[i].id < COMPACTION_ID_BASE
    ensures forall i :: 0 <= i < |ss| ==> Segment(IdsOf(ss)[i]) in d.dir
    ensures PassAll(c, d, IdsOf(ss)) == Pass(MergeAll(c, AllPlaces(c, ss)), SummariesOf(ss), [])
  {
    hide Scan, AllWritable, Layout, MergeFrom, PassSegment;
    if ss == [] {
      NoShelves(c, 0);
    } else {
      var init, s := ss[..|ss| - 1], ss[|ss| - 1];
      assert forall i :: 0 <= i < |init| ==> init[i] == ss[i];
      WritableConcat(c, History(init), s.recs);
      PassFull(c, d, init);
      assert IdsOf(ss)[..|ss| - 1] == IdsOf(init);
      assert s.recs + [] == s.recs;
      TopPass(c, d, init, s, [], 0);
      assert TearsOf(c, init + [s], [], 0) == TearsOf(c, [s], [], 0) by {
        assert (init + [s])[|init|] == s;
        assert Found(c, init + [s], [], 0)[|init|] == Found(c, [s], [], 0)[0];
      }
    }
  }

  /** The replay pass on any disk a crash can leave behind. */
  lemma {:induction false} PassShelved(c: Codec, d: Disk, ss: seq<Shelf>, extra: seq<Record>, t: nat)
    requires c.Lawful() && Shelved(c, d, ss, extra, t)
    ensures forall i :: 0 <= i < |ss| ==> Segment(IdsOf(ss)[i]) in d.dir
    ensures
      var found := Found(c, ss, extra, t);
      PassAll(c, d, IdsOf(ss)) == Pass(MergeAll(c, AllPlaces(c, found)), SummariesOf(found), TearsOf(c, ss, extra, t))
  {
    hide EncodeAll, Scan, AllWritable, WholeFrames, Layout, MergeFrom, PassSegment, TearsOf;
    if ss == [] {
      NoShelves(c, t);
    } else {
      var init, s := ss[..|ss| - 1], ss[|ss| - 1];
      assert forall i :: 0 <= i < |init| ==> init[i] == ss[i];
      assert History(ss) + extra == History(init) + (s.recs + extra);
      WritableConcat(c, History(init), s.recs + extra);
      PassFull(c, d, init);
      assert IdsOf(ss)[..|ss| - 1] == IdsOf(init);
      TopPass(c, d, init, s, extra, t);
      var top := Shelf(s.id, s.recs + extra[..WholeFrames(c, extra, t)]);
      assert Found(c, ss, extra, t) == init + [top];
      assert (init + [top])[..|init|] == init;
      assert init + [s] == ss;
    }
  }

  lemma {:induction false} NoShelves(c: Codec, t: nat)
    ensures START_PASS == Pass(MergeAll(c, AllPlaces(c, [])), SummariesOf([]), TearsOf(c, [], [], t))
  {
  }

  // ---------- The replayed frames are the history ----------

  ghost function SetOf(rs: seq<Record>): set<Record>
  {
    set r | r in rs
  }

  lemma {:induction false} FoldSnoc(view: map<string, Record>, rs: seq<Record>, r: Record)
    ensures Fold(view, rs + [r]) == ApplyView(Fold(view, rs), r)
    decreases |rs|
  {
    if rs == [] {
      assert [r][1..] == [];
    } else {
      FoldSnoc(ApplyView(view, rs[0]), rs[1..], r);
      assert (rs + [r])[1..] == rs[1..] + [r];
    }
  }

  lemma {:induction false} FoldConcat(view: map<string, Record>, a: seq<Record>, b: seq<Record>)
    ensures Fold(view, a + b) == Fold(Fold(view, a), b)
    decreases |a|
  {
    if a == [] {
      assert a + b == b;
    } else {
      FoldConcat(ApplyView(view, a[0]), a[1..], b);
      assert (a + b)[1..] == a[1..] + b;
    }
  }

  /** The plain map of writes is the newest-frame-wins view of the same records. */
  lemma {:induction false} FoldIsLive(c: Codec, rs: seq<Record>)
    requires Sound(c, rs)
    ensures Consistent(SetOf(rs)) && LiveView(SetOf(rs)) == Fold(map[], rs)
    decreases |rs|
  {
    assert Consistent(SetOf(rs));
    if rs == [] {
      LiveViewSound(SetOf(rs));
    } else {
      var init, r := rs[..|rs| - 1], rs[|rs| - 1];
      assert rs == init + [r];
      FoldIsLive(c, init);
      assert SetOf(init + [r]) == SetOf(init) + {r};
      LiveViewNewer(SetOf(init), r);
      FoldSnoc(map[], init, r);
    }
  }

  lemma {:induction false} AllPlacesRecords(c: Codec, ss: seq<Shelf>)
    ensures RecordsOf(AllPlaces(c, ss)) == SetOf(History(ss))
    ensures forall p :: p in AllPlaces(c, ss) ==> Placing(p)
  {
    if ss != [] {
      var init, s := ss[..|ss| - 1], ss[|ss| - 1];
      AllPlacesRecords(c, init);
      var ps := Places(s.id, Layout(c, s.recs, 0));
      forall r | r in s.recs
        ensures r in RecordsOf(ps)
      {
        var i :| 0 <= i < |s.recs| && s.recs[i] == r;
        assert ps[i] in ps && ps[i].rec == r;
      }
      assert RecordsOf(AllPlaces(c, ss)) == RecordsOf(AllPlaces(c, init)) + RecordsOf(ShelfPlaces(c, s));
    }
  }

  /** Every live record is read back through its own pointer. */
  ghost predicate Reads(c: Codec, d: Disk, idx: Index, view: map<string, Record>)
  {
    forall k :: k in view ==> k in idx.primary && ReadRecord(c, d, idx.primary[k]) == Some(view[k])
  }

  function ReadRecord(c: Codec, d: Disk, p: LogPointer): Option<Record>
  {
    if Segment(p.segmentId) in d.dir then ReadAt(c, d.dir[Segment(p.segmentId)], p.fileOffset) else None
  }

  ghost predicate HoldsShelf(c: Codec, d: Disk, s: Shelf)
  {
    Segment(s.id) in d.dir && EncodeAll(c, s.recs) <= d.dir[Segment(s.id)]
  }

  lemma {:induction false} AllPlacesRead(c: Codec, d: Disk, ss: seq<Shelf>)
    requires c.Lawful() && AllWritable(c, History(ss))
    requires forall i :: 0 <= i < |ss| ==> HoldsShelf(c, d, ss[i])
    ensures forall p :: p in AllPlaces(c, ss) ==> ReadRecord(c, d, p.ptr) == Some(p.rec)
  {
    hide Writable, EncodeAll, ReadAt;
    if ss != [] {
      var init, s := ss[..|ss| - 1], ss[|ss| - 1];
      assert forall i :: 0 <= i < |init| ==> init[i] == ss[i];
      WritableConcat(c, History(init), s.recs);
      AllPlacesRead(c, d, init);
      var file := d.dir[Segment(s.id)];
      assert file[0..] == file;
      forall i | 0 <= i < |s.recs|
        ensures ReadRecord(c, d, ShelfPlaces(c, s)[i].ptr) == Some(ShelfPlaces(c, s)[i].rec)
      {
        LayoutReads(c, file, 0, s.recs, i);
      }
    }
  }

  // ---------- What recovery rebuilds ----------

  /** The indexes stand for exactly the plain map of `history`, and every pointer reads back. */
  ghost predicate Indexes(c: Codec, d: Disk, idx: Index, history: seq<Record>)
  {
    && Represents(idx, Fold(map[], history))
    && Accounted(c, idx)
    && FreshFrom(idx, |history| + 1)
    && Reads(c, d, idx, Fold(map[], history))
  }

  lemma {:induction false} MergeIndexes(c: Codec, d: Disk, ss: seq<Shelf>)
    requires c.Lawful() && Sound(c, History(ss))
    requires forall i :: 0 <= i < |ss| ==> HoldsShelf(c, d, ss[i])
    ensures
      var m := MergeAll(c, AllPlaces(c, ss));
      Indexes(c, d, m.idx, History(ss)) && m.highest == |History(ss)|
  {
    hide Writable, EncodeAll, ReadAt, Represents, Accounted, LiveView, FreshSeq;
    var ps, h := AllPlaces(c, ss), History(ss);
    var m := MergeAll(c, ps);
    AllPlacesRecords(c, ss);
    FoldIsLive(c, h);
    MergeAllMerged(c, ps);
    AllPlacesRead(c, d, ss);
    RepresentsKeys(m.idx, LiveView(SetOf(h)));
    HighestAttained(c, ps);
    if h != [] {
      assert h[|h| - 1] in SetOf(h);
    }
  }
}
