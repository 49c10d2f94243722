/**
 * A disk described by its history: which records each segment holds, and which torn tail the newest
 * one carries. This is what crashes, flushes and recovery are proved against.
 */
module Shelves {
  import opened Wrappers
  import opened Bytes
  import opened Types
  import opened Frames
  import opened Index
  import opened LogMerge
  import opened Disk
  import opened GroupCommit
  import opened FlushIndex
  import opened Flusher
  import opened Recovery

  datatype Shelf = Shelf(id: nat, recs: seq<Record>)

  ghost function History(ss: seq<Shelf>): seq<Record>
  {
    if ss == [] then [] else History(ss[..|ss| - 1]) + ss[|ss| - 1].recs
  }

  /** Everything the database ever accepted, in order: ids count up from 1 without gaps. */
  ghost predicate Sound(c: Codec, rs: seq<Record>)
  {
    AllWritable(c, rs) && Consecutive(rs, 1)
  }

  ghost predicate FullShelf(c: Codec, d: Disk, s: Shelf)
  {
    var p := Segment(s.id);
    && p in d.dir && p in d.durable
    && d.dir[p] == EncodeAll(c, s.recs)
    && d.durable[p] == |d.dir[p]|
    && p !in d.creates
  }

  /** The newest segment: its own records are durable, and `t` bytes of the frames of `extra` follow. */
  ghost predicate TopShelf(c: Codec, d: Disk, s: Shelf, extra: seq<Record>, t: nat)
  {
    var p := Segment(s.id);
    && p in d.dir && p in d.durable
    && t <= |EncodeAll(c, extra)|
    && d.dir[p] == EncodeAll(c, s.recs) + EncodeAll(c, extra)[..t]
    && |EncodeAll(c, s.recs)| <= d.durable[p] <= |d.dir[p]|
    && (p in d.creates ==> s.recs == [])
  }

  ghost predicate OnlySegments(d: Disk, ss: seq<Shelf>)
  {
    && (forall i, j :: 0 <= i < j < |ss| ==> ss[i].id < ss[j].id)
    && (forall i :: 0 <= i < |ss| ==> 1 <= ss[i].id < COMPACTION_ID_BASE)
    && (forall id :: Segment(id) in d.dir <==> exists i :: 0 <= i < |ss| && ss[i].id == id)
    && (forall id :: Segment(id) !in d.unlinks)
  }

  ghost predicate Shelved(c: Codec, d: Disk, ss: seq<Shelf>, extra: seq<Record>, t: nat)
  {
    && WellFormed(d)
    && OnlySegments(d, ss)
    && Sound(c, History(ss) + extra)
    && (forall i :: 0 <= i < |ss| - 1 ==> FullShelf(c, d, ss[i]))
    && (if ss == [] then extra == [] && t == 0 else TopShelf(c, d, ss[|ss| - 1], extra, t))
  }

  // ---------- Frames of a concatenation ----------

  lemma {:induction false} Assoc(x: bytes, y: bytes, z: bytes)
    ensures (x + y) + z == x + (y + z)
  {
  }

  lemma {:induction false} EncodeAllConcat(c: Codec, a: seq<Record>, b: seq<Record>)
    ensures EncodeAll(c, a + b) == EncodeAll(c, a) + EncodeAll(c, b)
    decreases |a|
  {
    hide EncodeFrame;
    if a == [] {
      assert a + b == b;
    } else {
      EncodeAllConcat(c, a[1..], b);
      assert (a + b)[0] == a[0] && (a + b)[1..] == a[1..] + b;
      Assoc(EncodeFrame(c, a[0]), EncodeAll(c, a[1..]), EncodeAll(c, b));
    }
  }

  lemma {:induction false} WholeFramesConcat(c: Codec, a: seq<Record>, b: seq<Record>, t: nat)
    ensures WholeFrames(c, a + b, |EncodeAll(c, a)| + t) == |a| + WholeFrames(c, b, t)
    decreases |a|
  {
    hide EncodeFrame;
    if a == [] {
      assert a + b == b;
    } else {
      WholeFramesConcat(c, a[1..], b, t);
      assert (a + b)[1..] == a[1..] + b;
    }
  }

  lemma {:induction false} CutHoldsWhole(c: Codec, b: seq<Record>, t: nat)
    requires t <= |EncodeAll(c, b)|
    ensures
      var w := EncodeAll(c, b[..WholeFrames(c, b, t)]);
      |w| <= t && w == EncodeAll(c, b)[..t][..|w|]
  {
    var n := WholeFrames(c, b, t);
    WholeFits(c, b, t);
    EncodeAllConcat(c, b[..n], b[n..]);
    assert b[..n] + b[n..] == b;
  }

  /** What replay finds in a segment whose last write was cut. */
  lemma {:induction false} ScanShelf(c: Codec, file: bytes, a: seq<Record>, b: seq<Record>, t: nat)
    requires c.Lawful() && AllWritable(c, a + b)
    requires t <= |EncodeAll(c, b)|
    requires file == EncodeAll(c, a) + EncodeAll(c, b)[..t]
    ensures
      var rs := a + b[..WholeFrames(c, b, t)];
      var whole := EncodeAll(c, rs);
      && |whole| <= |file| && whole == file[..|whole|]
      && Scan(c, file, 0) == Replay(Layout(c, rs, 0), |whole|, TearOf(|file| - |whole|), MaxSeq(rs), |rs| > 0)
  {
    hide EncodeAll, Scan, Writable, WholeFrames, Layout;
    var n := WholeFrames(c, b, t);
    var ea, eb := EncodeAll(c, a), EncodeAll(c, b);
    var cut := |ea| + t;
    EncodeAllConcat(c, a, b);
    WholeFramesConcat(c, a, b, t);
    assert (a + b)[..|a| + n] == a + b[..n];
    assert (ea + eb)[..cut] == ea + eb[..t];
    assert file[0..] == file;
    ScanCut(c, file, 0, a + b, cut);
    EncodeAllConcat(c, a, b[..n]);
    CutHoldsWhole(c, b, t);
    var wb := EncodeAll(c, b[..n]);
    assert (ea + eb[..t])[..|ea| + |wb|] == ea + eb[..t][..|wb|];
  }
}
