/**
 * Group commit, second half: once a batch is durable its frames are applied to the indexes in order.
 * Here are the effect of a whole batch on the database, and how far it can move `index_ram_bytes`.
 */
module FlushIndex {
  import opened Bytes
  import opened Types
  import opened Frames
  import opened Index
  import opened GroupCommit

  function PointerTo(segment: nat, offset: nat, r: Record): LogPointer
  {
    LogPointer(segment, offset, r.seqId, r.timestamp)
  }

  function ApplyAll(c: Codec, idx: Index, segment: nat, offset: nat, rs: seq<Record>): Index
    decreases |rs|
  {
    if rs == [] then idx else
    ApplyAll(c, Apply(c, idx, rs[0], PointerTo(segment, offset, rs[0])), segment, offset + |EncodeFrame(c, rs[0])|, rs[1..])
  }

  /** The plain map of writes: the database after `rs`, starting from `view`. */
  function Fold(view: map<string, Record>, rs: seq<Record>): map<string, Record>
    decreases |rs|
  {
    if rs == [] then view else Fold(ApplyView(view, rs[0]), rs[1..])
  }

  ghost predicate FreshFrom(idx: Index, first: nat)
  {
    forall q :: first <= q ==> FreshSeq(idx, q)
  }

  /** Applying a batch to the indexes is applying it to the plain map, and the RAM count stays exact. */
  lemma {:induction false} ApplyAllRepresents(c: Codec, idx: Index, view: map<string, Record>, segment: nat, offset: nat, rs: seq<Record>, first: nat)
    requires Represents(idx, view) && Accounted(c, idx) && FreshFrom(idx, first)
    requires Consecutive(rs, first)
    ensures
      var idx' := ApplyAll(c, idx, segment, offset, rs);
      && Represents(idx', Fold(view, rs))
      && Accounted(c, idx')
      && FreshFrom(idx', first + |rs|)
      && idx'.ram >= 0
    decreases |rs|
  {
    hide Represents, Accounted, Apply;
    if rs == [] {
      RamNonNegative(c, idx);
    } else {
      var r, p := rs[0], PointerTo(segment, offset, rs[0]);
      ApplyRepresents(c, idx, view, r, p);
      ApplyAccounted(c, idx, r, p);
      ApplyAllRepresents(c, Apply(c, idx, r, p), ApplyView(view, r), segment, offset + |EncodeFrame(c, r)|, rs[1..], first + 1);
    }
  }

  lemma {:induction false} RamNonNegative(c: Codec, idx: Index)
    requires Accounted(c, idx)
    ensures idx.ram >= 0
  {
  }

  // ---------- The index budget ----------

  /**
   * The frame supersedes a live key whose entry sits in another stream's time index, so the prune
   * finds nothing and 64 bytes stay charged. Only two streams that spell the same `stream:key` can do this.
   */
  predicate Misfiled(idx: Index, r: Record)
  {
    r.Compound() in idx.primary && !Filed(idx, r.stream, r.Compound())
  }

  ghost function Leaks(c: Codec, idx: Index, segment: nat, offset: nat, rs: seq<Record>): nat
    decreases |rs|
  {
    if rs == [] then 0 else
    (if Misfiled(idx, rs[0]) then 1 else 0) +
    Leaks(c, Apply(c, idx, rs[0], PointerTo(segment, offset, rs[0])), segment, offset + |EncodeFrame(c, rs[0])|, rs[1..])
  }

  ghost function FullCharge(c: Codec, ks: set<string>): nat
  {
    SumCharge(c, ks) + TIME_NODE_BYTES * |ks|
  }

  lemma {:induction false} FullChargeRemove(c: Codec, ks: set<string>, k: string)
    requires k in ks
    ensures FullCharge(c, ks) == NewKeyCharge(c, k) + FullCharge(c, ks - {k})
  {
    SumChargeRemove(c, ks, k);
  }

  ghost function Absent(universe: set<string>, idx: Index): set<string>
  {
    universe - idx.primary.Keys
  }

  /** One frame moves bytes between what is charged and what the absent keys may still cost, plus its leak. */
  lemma {:induction false} ApplyPotential(c: Codec, idx: Index, r: Record, p: LogPointer, universe: set<string>)
    requires idx.primary.Keys <= universe
    requires r.IsTombstone() || (r.IsActive() && r.Compound() in universe)
    ensures
      var idx' := Apply(c, idx, r, p);
      && idx'.primary.Keys <= universe
      && idx'.ram + FullCharge(c, Absent(universe, idx')) ==
           idx.ram + FullCharge(c, Absent(universe, idx)) + if Misfiled(idx, r) then TIME_NODE_BYTES else 0
  {
    hide FullCharge, Apply, Misfiled, NewKeyCharge;
    var k, idx' := r.Compound(), Apply(c, idx, r, p);
    ApplyKeys(c, idx, r, p);
    ApplyRam(c, idx, r, p);
    if k in idx.primary && r.IsTombstone() {
      assert Absent(universe, idx') - {k} == Absent(universe, idx);
      FullChargeRemove(c, Absent(universe, idx'), k);
    } else if k !in idx.primary && r.IsActive() {
      assert Absent(universe, idx) - {k} == Absent(universe, idx');
      FullChargeRemove(c, Absent(universe, idx), k);
    } else {
      assert Absent(universe, idx) == Absent(universe, idx');
    }
  }

  /** What one frame adds to `index_ram_bytes`. */
  function RamDelta(c: Codec, idx: Index, r: Record): int
  {
    var cost: int := NewKeyCharge(c, r.Compound());
    var live := r.Compound() in idx.primary;
    (if r.IsTombstone() && live then -cost else if !r.IsTombstone() && !live then cost else 0)
    + if Misfiled(idx, r) then TIME_NODE_BYTES else 0
  }

  lemma {:induction false} ApplyRam(c: Codec, idx: Index, r: Record, p: LogPointer)
    requires r.IsTombstone() || r.IsActive()
    ensures Apply(c, idx, r, p).ram == idx.ram + RamDelta(c, idx, r)
  {
  }

  lemma {:induction false} ApplyAllPotential(c: Codec, idx: Index, segment: nat, offset: nat, rs: seq<Record>, universe: set<string>)
    requires idx.primary.Keys <= universe
    requires forall i :: 0 <= i < |rs| ==> rs[i].IsTombstone() || (rs[i].IsActive() && rs[i].Compound() in universe)
    ensures
      var idx' := ApplyAll(c, idx, segment, offset, rs);
      && idx'.primary.Keys <= universe
      && idx'.ram + FullCharge(c, Absent(universe, idx')) ==
           idx.ram + FullCharge(c, Absent(universe, idx)) + TIME_NODE_BYTES * Leaks(c, idx, segment, offset, rs)
    decreases |rs|
  {
    hide Apply, FullCharge, Misfiled;
    if rs != [] {
      var p := PointerTo(segment, offset, rs[0]);
      ApplyPotential(c, idx, rs[0], p, universe);
      ApplyAllPotential(c, Apply(c, idx, rs[0], p), segment, offset + |EncodeFrame(c, rs[0])|, rs[1..], universe);
    }
  }

  /**
   * A whole flush, for every batch: `index_ram_bytes` ends at what the plan spent, plus 64 bytes for each
   * misfiled key superseded, less the charge of every key that is not live in the end. So the budget holds if
   * and only if the leaks fit into what is left of it and what the deletions gave back.
   */
  lemma {:induction false} FlushBudgetExact(c: Codec, idx: Index, budget: nat, clock: Clock, first: nat, batch: seq<LogEntry>, segment: nat, offset: nat)
    ensures
      var p := PlanAll(c, idx.primary.Keys, budget, clock, StartPlan(first, idx.ram), batch);
      var idx' := ApplyAll(c, idx, segment, offset, p.records);
      var leaked := TIME_NODE_BYTES * Leaks(c, idx, segment, offset, p.records);
      var freed := FullCharge(c, Absent(idx.primary.Keys + p.newKeys, idx'));
      && idx'.ram == p.spent + leaked - freed
      && p.spent <= Max(budget, idx.ram)
      && (idx'.ram <= Max(budget, idx.ram) <==> leaked <= Max(budget, idx.ram) - p.spent + freed)
  {
    hide SumCharge, PlanAll, ApplyAll, Leaks, Answered;
    var primary := idx.primary.Keys;
    var p := PlanAll(c, primary, budget, clock, StartPlan(first, idx.ram), batch);
    PlanOk(c, primary, idx.ram, budget, clock, first, batch);
    ApplyAllPotential(c, idx, segment, offset, p.records, primary + p.newKeys);
    assert Absent(primary + p.newKeys, idx) == p.newKeys;
  }

  /**
   * For a batch of one write the bound fails exactly when the key is live, misfiled, and less than
   * 64 bytes of budget are left.
   */
  lemma {:induction false} OneWriteBudgetExact(c: Codec, idx: Index, budget: nat, clock: Clock, first: nat, e: LogEntry, segment: nat, offset: nat)
    requires e.Replace? || (e.Single? && !e.isTombstone)
    ensures
      var p := PlanAll(c, idx.primary.Keys, budget, clock, StartPlan(first, idx.ram), [e]);
      var k := CompoundKey(e.stream, e.key);
      (ApplyAll(c, idx, segment, offset, p.records).ram <= Max(budget, idx.ram))
      <==> !(k in idx.primary && !Filed(idx, e.stream, k) && idx.ram + TIME_NODE_BYTES > budget)
  {
    var primary, start := idx.primary.Keys, StartPlan(first, idx.ram);
    var p := PlanEntry(c, primary, budget, clock, start, e);
    assert [e][1..] == [];
    assert PlanAll(c, primary, budget, clock, start, [e]) == p;
    assert
      var k := Items(e)[0].Compound();
      var total := idx.ram + NewKeyCharge(c, k);
      ChargeItems(c, primary, budget, idx.ram, {}, Items(e)) ==
        if k in primary then Admitted(idx.ram, {})
        else if total > budget then Rejected(k, total)
        else Admitted(total, {k});
    if p.records != [] {
      var r := p.records[0];
      assert p.records == [r];
      assert ApplyAll(c, idx, segment, offset, [r]) == Apply(c, idx, r, PointerTo(segment, offset, r));
      ApplyRam(c, idx, r, PointerTo(segment, offset, r));
    }
  }

  /** Streams without a colon cannot spell the same compound key as another such stream. */
  lemma {:induction false} ColonFreeInjective(s: string, k: string, s': string, k': string)
    requires ':' !in s && ':' !in s'
    requires CompoundKey(s, k) == CompoundKey(s', k')
    ensures s == s' && k == k'
  {
    var a, b := CompoundKey(s, k), CompoundKey(s', k');
    assert a[|s|] == ':' && b[|s'|] == ':';
    assert forall i :: 0 <= i < |s| ==> a[i] == s[i] != ':';
    assert forall i :: 0 <= i < |s'| ==> b[i] == s'[i] != ':';
    assert s == a[..|s|] && s' == b[..|s'|];
    assert k == a[|s| + 1..] && k' == b[|s'| + 1..];
  }

  ghost predicate ColonFree(view: map<string, Record>)
  {
    forall k :: k in view ==> ':' !in view[k].stream
  }

  lemma {:induction false} ColonFreeFiled(idx: Index, view: map<string, Record>, r: Record)
    requires Represents(idx, view) && ColonFree(view) && ':' !in r.stream
    ensures !Misfiled(idx, r)
  {
    var k := r.Compound();
    if k in view {
      assert Holds(idx, k, view[k]);
      ColonFreeInjective(r.stream, r.key, view[k].stream, view[k].key);
    }
  }

  /** With colon-free stream names nothing is ever misfiled. */
  lemma {:induction false} ColonFreeNoLeaks(c: Codec, idx: Index, view: map<string, Record>, segment: nat, offset: nat, rs: seq<Record>, first: nat)
    requires Represents(idx, view) && FreshFrom(idx, first) && Consecutive(rs, first)
    requires ColonFree(view) && forall i :: 0 <= i < |rs| ==> ':' !in rs[i].stream
    ensures Leaks(c, idx, segment, offset, rs) == 0
    decreases |rs|
  {
    hide FreshSeq, Apply, Represents, Misfiled;
    if rs != [] {
      var r, p := rs[0], PointerTo(segment, offset, rs[0]);
      ColonFreeFiled(idx, view, r);
      ApplyRepresents(c, idx, view, r, p);
      ColonFreeNoLeaks(c, Apply(c, idx, r, p), ApplyView(view, r), segment, offset + |EncodeFrame(c, r)|, rs[1..], first + 1);
    }
  }

  /** No entry names a stream with a colon. */
  ghost predicate ColonFreeBatch(batch: seq<LogEntry>)
  {
    forall i, j :: 0 <= i < |batch| && 0 <= j < |Items(batch[i])| ==> ':' !in Items(batch[i])[j].stream
  }

  lemma {:induction false} CommittedStreams(budget: nat, acks: seq<Ack>, batch: seq<LogEntry>)
    requires |acks| == |batch| && forall i :: 0 <= i < |batch| ==> Answers(budget, acks[i], batch[i])
    requires ColonFreeBatch(batch)
    ensures forall r :: r in CommittedRecords(acks) ==> ':' !in r.stream
  {
    hide Items;
    if acks != [] {
      var n := |acks| - 1;
      assert forall i :: 0 <= i < n ==> Answers(budget, acks[..n][i], batch[..n][i]);
      CommittedStreams(budget, acks[..n], batch[..n]);
      if acks[n].Committed? {
        var rs := acks[n].records;
        assert Answers(budget, acks[n], batch[n]);
        AskedItems(batch[n], rs);
        assert forall j :: 0 <= j < |rs| ==> ':' !in rs[j].stream;
      }
    }
  }

  /** As long as stream names are free of colons, no batch ever takes the count beyond the budget. */
  lemma {:induction false} ColonFreeWithinBudget(c: Codec, idx: Index, view: map<string, Record>, budget: nat, clock: Clock, first: nat, batch: seq<LogEntry>, segment: nat, offset: nat)
    requires Represents(idx, view) && FreshFrom(idx, first)
    requires ColonFree(view) && ColonFreeBatch(batch)
    ensures
      var p := PlanAll(c, idx.primary.Keys, budget, clock, StartPlan(first, idx.ram), batch);
      ApplyAll(c, idx, segment, offset, p.records).ram <= Max(budget, idx.ram)
  {
    hide Represents, FreshSeq, PlanAll, ApplyAll, Leaks, FullCharge, ColonFreeBatch, Affordable, ColonFree;
    var p := PlanAll(c, idx.primary.Keys, budget, clock, StartPlan(first, idx.ram), batch);
    PlanOk(c, idx.primary.Keys, idx.ram, budget, clock, first, batch);
    CommittedStreams(budget, p.acks, batch);
    ColonFreeNoLeaks(c, idx, view, segment, offset, p.records, first);
    FlushBudgetExact(c, idx, budget, clock, first, batch, segment, offset);
  }

  /** A time entry that no live pointer stands for. */
  ghost predicate Stale(idx: Index, stream: string, t: int, q: nat)
  {
    && (t, q) in TimesOf(idx, stream)
    && forall k :: k in idx.primary ==> idx.primary[k].seqId != q
  }

  /** No later batch ever removes, or stops charging for, a stale time entry. */
  lemma {:induction false} StaleStays(c: Codec, idx: Index, segment: nat, offset: nat, rs: seq<Record>, first: nat, stream: string, t: int, q: nat)
    requires Stale(idx, stream, t, q) && q < first && Consecutive(rs, first)
    ensures Stale(ApplyAll(c, idx, segment, offset, rs), stream, t, q)
    decreases |rs|
  {
    hide EncodeFrame;
    if rs != [] {
      var p := PointerTo(segment, offset, rs[0]);
      StaleStays(c, Apply(c, idx, rs[0], p), segment, offset + |EncodeFrame(c, rs[0])|, rs[1..], first + 1, stream, t, q);
    }
  }

  /**
   * A stream name with a colon does break the bound: with the budget just used up by key "b:c" of stream "a", a
   * write of key "c" to stream "a:b" is admitted as an update and ends 64 bytes above it, its entry stale.
   */
  lemma {:induction false} AliasedStreamsExceedBudget(c: Codec, t0: int, clock: Clock)
    ensures
      var r0 := Record(1, t0, 0, FLAG_ACTIVE, "a", "b:c", Null);
      var idx := Apply(c, EMPTY_INDEX, r0, PointerTo(1, 0, r0));
      var budget: nat := idx.ram;
      var p := PlanAll(c, idx.primary.Keys, budget, clock, StartPlan(2, idx.ram), [Replace("a:b", "c", Null)]);
      var idx' := ApplyAll(c, idx, 1, |EncodeFrame(c, r0)|, p.records);
      && Accounted(c, idx) && Represents(idx, map["a:b:c" := r0])
      && |p.acks| == 1 && p.acks[0].Committed? && |p.records| == 1
      && idx'.ram == budget + TIME_NODE_BYTES
      && Stale(idx', "a", t0, 1)
  {
    hide EncodeFrame, Represents, Accounted;
    var r0 := Record(1, t0, 0, FLAG_ACTIVE, "a", "b:c", Null);
    var p0 := PointerTo(1, 0, r0);
    assert CompoundKey("a", "b:c") == "a:b:c" == CompoundKey("a:b", "c") && "a" != "a:b";
    FirstRecord(c, r0, p0);
    var idx := Apply(c, EMPTY_INDEX, r0, p0);
    var e := Replace("a:b", "c", Null);
    assert
      var p := PlanAll(c, idx.primary.Keys, idx.ram, clock, StartPlan(2, idx.ram), [e]);
      var r := StampOne(clock, 2, Items(e)[0], false);
      && p.records == [r] && |p.acks| == 1 && p.acks[0].Committed?
      && ApplyAll(c, idx, 1, (|EncodeFrame(c, r0)|), p.records) == Apply(c, idx, r, PointerTo(1, (|EncodeFrame(c, r0)|), r));
    var r1 := StampOne(clock, 2, Items(e)[0], false);
  }

  lemma {:induction false} FirstRecord(c: Codec, r: Record, p: LogPointer)
    requires r.IsActive() && r.timestamp == p.timestamp && r.seqId == p.seqId
    ensures
      var idx := Apply(c, EMPTY_INDEX, r, p);
      && Represents(idx, map[r.Compound() := r]) && Accounted(c, idx) && idx.ram >= 0
      && idx.primary == map[r.Compound() := p] && idx.times == map[r.stream := map[(p.timestamp, p.seqId) := p]]
  {
    assert TimeEntries(EMPTY_INDEX.times) == {};
    ApplyAccounted(c, EMPTY_INDEX, r, p);
  }
}
