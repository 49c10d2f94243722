/**
 * The in-memory indexes: one primary pointer per live key, one (timestamp, sequence id) index per
 * stream, and the byte count charged for both.
 */
module Index {
  import opened Wrappers
  import opened Types
  import opened Frames

  const PRIMARY_NODE_BYTES: nat := 64
  const TIME_NODE_BYTES: nat := 64

  type TimeMap = map<(int, nat), LogPointer>

  datatype Index = Index(primary: map<string, LogPointer>, times: map<string, TimeMap>, ram: int)

  const EMPTY_INDEX: Index := Index(map[], map[], 0)

  function PrimaryCharge(c: Codec, k: string): nat
  {
    |c.encText(k)| + PRIMARY_NODE_BYTES
  }

  // ---------- The two updates ----------

  /** Is the current pointer of `k` filed in the time index of `stream`? */
  predicate Filed(idx: Index, stream: string, k: string)
  {
    && k in idx.primary
    && stream in idx.times
    && (idx.primary[k].timestamp, idx.primary[k].seqId) in idx.times[stream]
  }

  /** `prune_timestamp_entry`: drop the entry of `k`'s current pointer from `stream`'s time index, if it is there. */
  function PruneTime(idx: Index, stream: string, k: string): Index
  {
    if Filed(idx, stream, k) then
      var p := idx.primary[k];
      idx.(times := idx.times[stream := idx.times[stream] - {(p.timestamp, p.seqId)}], ram := idx.ram - TIME_NODE_BYTES)
    else
      idx
  }

  function RemovePrimary(c: Codec, idx: Index, k: string): Index
  {
    if k in idx.primary then idx.(primary := idx.primary - {k}, ram := idx.ram - PrimaryCharge(c, k)) else idx
  }

  function InsertPrimary(c: Codec, idx: Index, k: string, p: LogPointer): Index
  {
    idx.(primary := idx.primary[k := p], ram := if k in idx.primary then idx.ram else idx.ram + PrimaryCharge(c, k))
  }

  function TimesOf(idx: Index, stream: string): TimeMap
  {
    if stream in idx.times then idx.times[stream] else map[]
  }

  /** Files a pointer under a stream; the charge is paid whether or not the entry is new. */
  function InsertTime(idx: Index, stream: string, p: LogPointer): Index
  {
    idx.(times := idx.times[stream := TimesOf(idx, stream)[(p.timestamp, p.seqId) := p]], ram := idx.ram + TIME_NODE_BYTES)
  }

  /** What both the flusher and recovery do with a frame that wins. */
  function Apply(c: Codec, idx: Index, r: Record, p: LogPointer): Index
  {
    var k := r.Compound();
    if r.IsTombstone() then RemovePrimary(c, PruneTime(idx, r.stream, k), k)
    else if r.IsActive() then InsertTime(InsertPrimary(c, PruneTime(idx, r.stream, k), k, p), r.stream, p)
    else idx
  }

  // ---------- RAM accounting ----------

  ghost function SumCharge(c: Codec, ks: set<string>): nat
  {
    if ks == {} then 0 else
    var k :| k in ks;
    PrimaryCharge(c, k) + SumCharge(c, ks - {k})
  }

  lemma {:induction false} SumChargeRemove(c: Codec, ks: set<string>, k: string)
    requires k in ks
    ensures SumCharge(c, ks) == PrimaryCharge(c, k) + SumCharge(c, ks - {k})
    decreases ks
  {
    var j :| j in ks && SumCharge(c, ks) == PrimaryCharge(c, j) + SumCharge(c, ks - {j});
    if j != k {
      SumChargeRemove(c, ks - {j}, k);
      SumChargeRemove(c, ks - {k}, j);
      assert ks - {j} - {k} == ks - {k} - {j};
    }
  }

  ghost function TimeEntries(times: map<string, TimeMap>): set<(string, (int, nat))>
  {
    set s, e | s in times && e in times[s] :: (s, e)
  }

  /** `index_ram_bytes` is exactly what the indexes hold; in particular no subtraction ever underflowed. */
  ghost predicate Accounted(c: Codec, idx: Index)
  {
    idx.ram == SumCharge(c, idx.primary.Keys) + TIME_NODE_BYTES * |TimeEntries(idx.times)|
  }

  lemma {:induction false} InsertPrimaryAccounted(c: Codec, idx: Index, k: string, p: LogPointer)
    requires Accounted(c, idx)
    ensures Accounted(c, InsertPrimary(c, idx, k, p))
  {
    var keys := InsertPrimary(c, idx, k, p).primary.Keys;
    assert keys == idx.primary.Keys + {k};
    if k !in idx.primary {
      SumChargeRemove(c, keys, k);
      assert keys - {k} == idx.primary.Keys;
    } else {
      assert keys == idx.primary.Keys;
    }
  }

  lemma {:induction false} InsertTimeEntries(idx: Index, stream: string, p: LogPointer)
    ensures TimeEntries(InsertTime(idx, stream, p).times) == TimeEntries(idx.times) + {(stream, (p.timestamp, p.seqId))}
    ensures (stream, (p.timestamp, p.seqId)) in TimeEntries(idx.times) <==> (p.timestamp, p.seqId) in TimesOf(idx, stream)
  {
    var times' := InsertTime(idx, stream, p).times;
    forall s: string, e: (int, nat)
      ensures (s, e) in TimeEntries(times') <==> (s, e) in TimeEntries(idx.times) || (s, e) == (stream, (p.timestamp, p.seqId))
    {
      if s != stream {
        assert s in times' <==> s in idx.times;
      }
    }
  }

  lemma {:induction false} InsertTimeAccounted(c: Codec, idx: Index, stream: string, p: LogPointer)
    requires Accounted(c, idx)
    requires (p.timestamp, p.seqId) !in TimesOf(idx, stream)
    ensures Accounted(c, InsertTime(idx, stream, p))
  {
    hide TimeEntries, SumCharge;
    InsertTimeEntries(idx, stream, p);
  }

  /** A winning frame keeps the count exact as long as its own entry is not filed yet. */
  lemma {:induction false} ApplyAccounted(c: Codec, idx: Index, r: Record, p: LogPointer)
    requires Accounted(c, idx)
    requires p.timestamp == r.timestamp && p.seqId == r.seqId
    requires (r.timestamp, r.seqId) !in TimesOf(idx, r.stream)
    ensures Accounted(c, Apply(c, idx, r, p)) && Apply(c, idx, r, p).ram >= 0
  {
    var k := r.Compound();
    assert Accounted(c, PruneTime(idx, r.stream, k)) && PruneTime(idx, r.stream, k).ram >= 0 by {
      if Filed(idx, r.stream, k) {
        var e := (idx.primary[k].timestamp, idx.primary[k].seqId);
        var idx' := PruneTime(idx, r.stream, k);
        assert (r.stream, e) in TimeEntries(idx.times);
        assert TimeEntries(idx'.times) == TimeEntries(idx.times) - {(r.stream, e)};
      }
    }
    var pruned := PruneTime(idx, r.stream, k);
    if r.IsTombstone() {
      assert Accounted(c, RemovePrimary(c, pruned, k)) && RemovePrimary(c, pruned, k).ram >= 0 by {
        if k in pruned.primary {
          SumChargeRemove(c, pruned.primary.Keys, k);
          assert RemovePrimary(c, pruned, k).primary.Keys == pruned.primary.Keys - {k};
        }
      }
    } else if r.IsActive() {
      InsertPrimaryAccounted(c, pruned, k, p);
      InsertTimeAccounted(c, InsertPrimary(c, pruned, k, p), r.stream, p);
    }
  }

  // ---------- What the indexes mean ----------

  /** The live record `r` of key `k`: its pointer is in the primary index and filed under its own stream. */
  ghost predicate Holds(idx: Index, k: string, r: Record)
  {
    var e := (r.timestamp, r.seqId);
    && r.Compound() == k && r.IsActive()
    && k in idx.primary
    && idx.primary[k].seqId == r.seqId
    && idx.primary[k].timestamp == r.timestamp
    && e in TimesOf(idx, r.stream)
    && TimesOf(idx, r.stream)[e] == idx.primary[k]
  }

  ghost predicate TimesKeyed(idx: Index)
  {
    forall s, e :: s in idx.times && e in idx.times[s] ==>
      idx.times[s][e].timestamp == e.0 && idx.times[s][e].seqId == e.1
  }

  /**
   * `view` is the database the indexes stand for: one live record per key, no two of them with the
   * same sequence id. Time indexes may hold further, stale entries.
   */
  ghost predicate Represents(idx: Index, view: map<string, Record>)
  {
    && idx.primary.Keys == view.Keys
    && (forall k :: k in view ==> Holds(idx, k, view[k]))
    && (forall j, k :: j in view && k in view && view[j].seqId == view[k].seqId ==> j == k)
    && TimesKeyed(idx)
  }

  lemma {:induction false} RepresentsKeys(idx: Index, view: map<string, Record>)
    requires Represents(idx, view)
    ensures idx.primary.Keys == view.Keys
  {
  }

  /** Frames with sequence id `q` have not been applied yet. */
  ghost predicate FreshSeq(idx: Index, q: nat)
  {
    && (forall k :: k in idx.primary ==> idx.primary[k].seqId != q)
    && (forall s, e :: s in idx.times && e in idx.times[s] ==> e.1 != q)
  }

  function ApplyView(view: map<string, Record>, r: Record): map<string, Record>
  {
    if r.IsTombstone() then view - {r.Compound()}
    else if r.IsActive() then view[r.Compound() := r]
    else view
  }

  /** Applying a new frame to the indexes is applying it to the database they stand for. */
  lemma {:induction false} ApplyRepresents(c: Codec, idx: Index, view: map<string, Record>, r: Record, p: LogPointer)
    requires Represents(idx, view) && FreshSeq(idx, r.seqId)
    requires p.timestamp == r.timestamp && p.seqId == r.seqId
    ensures Represents(Apply(c, idx, r, p), ApplyView(view, r))
    ensures forall q :: q != r.seqId && FreshSeq(idx, q) ==> FreshSeq(Apply(c, idx, r, p), q)
  {
    var k := r.Compound();
    var idx', view' := Apply(c, idx, r, p), ApplyView(view, r);
    ApplyTimes(c, idx, r, p);
    forall j | j in view' && j != k
      ensures Holds(idx', j, view'[j])
    {
      ApplyKeeps(c, idx, r, p, j, view[j]);
    }
    if !r.IsTombstone() && r.IsActive() {
      assert Holds(Apply(c, idx, r, p), r.Compound(), r);
    }
    forall i, j | i in view' && j in view' && view'[i].seqId == view'[j].seqId
      ensures i == j
    {
      assert i in view ==> Holds(idx, i, view[i]);
      assert j in view ==> Holds(idx, j, view[j]);
    }
    ApplyKeys(c, idx, r, p);
  }

  lemma {:induction false} ApplyKeys(c: Codec, idx: Index, r: Record, p: LogPointer)
    ensures Apply(c, idx, r, p).primary.Keys ==
      if r.IsTombstone() then idx.primary.Keys - {r.Compound()}
      else if r.IsActive() then idx.primary.Keys + {r.Compound()}
      else idx.primary.Keys
  {
  }

  lemma {:induction false} ApplyTimes(c: Codec, idx: Index, r: Record, p: LogPointer)
    requires TimesKeyed(idx)
    requires p.timestamp == r.timestamp && p.seqId == r.seqId
    ensures TimesKeyed(Apply(c, idx, r, p))
    ensures forall q :: q != r.seqId && FreshSeq(idx, q) ==> FreshSeq(Apply(c, idx, r, p), q)
  {
    var pruned := PruneTime(idx, r.stream, r.Compound());
  }

  lemma {:induction false} ApplyKeeps(c: Codec, idx: Index, r: Record, p: LogPointer, j: string, q: Record)
    requires Holds(idx, j, q) && j != r.Compound()
    requires p.seqId != q.seqId
    requires r.Compound() in idx.primary ==> idx.primary[r.Compound()].seqId != q.seqId
    ensures Holds(Apply(c, idx, r, p), j, q)
  {
    var pruned := PruneTime(idx, r.stream, r.Compound());
  }
}
