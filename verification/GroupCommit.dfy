/**
 * Group commit, first half: the flusher validates a batch of log entries against the index budget
 * and stamps the admitted ones with sequence ids and timestamps, before anything is written.
 */
module GroupCommit {
  import opened Wrappers
  import opened Types
  import opened Frames
  import opened Index

  datatype LogEntry =
    | Single(stream: string, key: string, value: DataValue, isTombstone: bool)
    | Replace(stream: string, key: string, value: DataValue)
    | TombstoneBatch(stream: string, keys: seq<string>)
    | Batch(records: seq<Item>)
    | Shutdown

  /** One record a caller asks for. */
  datatype Item = Item(stream: string, key: string, value: DataValue)
  {
    function Compound(): string { CompoundKey(stream, key) }
  }

  /** What the caller of an entry is told. Entries behind a shutdown sentinel are dropped unanswered. */
  datatype Ack =
    | Committed(records: seq<Record>)
    | IndexRam(key: Option<string>, current: int)
    | Failed
    | NoReply

  /** The wall clock, read once per frame; indexed by the frame's sequence id. */
  type Clock = nat -> int

  datatype Plan = Plan(nextSeq: nat, spent: int, newKeys: set<string>, records: seq<Record>, acks: seq<Ack>, stopped: bool)

  function StartPlan(nextSeq: nat, ram: int): Plan
  {
    Plan(nextSeq, ram, {}, [], [], false)
  }

  function Items(e: LogEntry): seq<Item>
  {
    match e
    case Single(s, k, v, _) => [Item(s, k, v)]
    case Replace(s, k, v) => [Item(s, k, v)]
    case TombstoneBatch(s, ks) => seq(|ks|, i requires 0 <= i < |ks| => Item(s, ks[i], Null))
    case Batch(rs) => rs
    case Shutdown => []
  }

  predicate Deletes(e: LogEntry)
  {
    e.TombstoneBatch? || (e.Single? && e.isTombstone)
  }

  function StampOne(clock: Clock, seqId: nat, it: Item, deletes: bool): Record
  {
    Record(seqId, clock(seqId), it.value.TypeTag(), if deletes then FLAG_TOMBSTONE else FLAG_ACTIVE, it.stream, it.key, it.value)
  }

  /** The frames of one admitted entry: consecutive sequence ids from `first`. */
  function Stamp(clock: Clock, first: nat, items: seq<Item>, deletes: bool): (rs: seq<Record>)
    ensures |rs| == |items|
  {
    seq(|items|, i requires 0 <= i < |items| => StampOne(clock, first + i, items[i], deletes))
  }

  datatype Charge = Admitted(spent: int, newKeys: set<string>) | Rejected(key: string, current: int)

  function NewKeyCharge(c: Codec, k: string): nat
  {
    PrimaryCharge(c, k) + TIME_NODE_BYTES
  }

  /** The budget check: each key that is neither indexed nor new in this batch must fit. */
  function ChargeItems(c: Codec, primary: set<string>, budget: nat, spent: int, newKeys: set<string>, items: seq<Item>): Charge
    decreases |items|
  {
    if items == [] then Admitted(spent, newKeys) else
    var k := items[0].Compound();
    if k in primary || k in newKeys then ChargeItems(c, primary, budget, spent, newKeys, items[1..]) else
    var total := spent + NewKeyCharge(c, k);
    if total > budget then Rejected(k, total) else
    ChargeItems(c, primary, budget, total, newKeys + {k}, items[1..])
  }

  function PlanEntry(c: Codec, primary: set<string>, budget: nat, clock: Clock, p: Plan, e: LogEntry): Plan
  {
    if p.stopped || e.Shutdown? then p.(acks := p.acks + [NoReply], stopped := true) else
    var items := Items(e);
    var charge := if Deletes(e) then Admitted(p.spent, p.newKeys) else ChargeItems(c, primary, budget, p.spent, p.newKeys, items);
    match charge
    case Rejected(k, current) => p.(acks := p.acks + [IndexRam(if e.Batch? then Some(k) else None, current)])
    case Admitted(spent, newKeys) =>
      var rs := Stamp(clock, p.nextSeq, items, Deletes(e));
      Plan(p.nextSeq + |items|, spent, newKeys, p.records + rs, p.acks + [Committed(rs)], false)
  }

  function PlanAll(c: Codec, primary: set<string>, budget: nat, clock: Clock, p: Plan, batch: seq<LogEntry>): Plan
    decreases |batch|
  {
    if batch == [] then p else PlanAll(c, primary, budget, clock, PlanEntry(c, primary, budget, clock, p, batch[0]), batch[1..])
  }

  // ---------- What a plan guarantees ----------

  ghost function CommittedRecords(acks: seq<Ack>): seq<Record>
  {
    if acks == [] then [] else
    var last := acks[|acks| - 1];
    CommittedRecords(acks[..|acks| - 1]) + if last.Committed? then last.records else []
  }

  ghost predicate Carries(r: Record, stream: string, key: string, value: DataValue, deletes: bool)
  {
    && r.stream == stream && r.key == key && r.value == value && r.typeTag == value.TypeTag()
    && r.flags == if deletes then FLAG_TOMBSTONE else FLAG_ACTIVE
  }

  /** The frames an entry asks for: all of them, in order, and nothing else. */
  ghost predicate Asked(e: LogEntry, rs: seq<Record>)
  {
    match e
    case Single(s, k, v, isTombstone) => |rs| == 1 && Carries(rs[0], s, k, v, isTombstone)
    case Replace(s, k, v) => |rs| == 1 && Carries(rs[0], s, k, v, false)
    case TombstoneBatch(s, ks) => |rs| == |ks| && forall i :: 0 <= i < |ks| ==> Carries(rs[i], s, ks[i], Null, true)
    case Batch(items) =>
      && |rs| == |items|
      && forall i :: 0 <= i < |items| ==> Carries(rs[i], items[i].stream, items[i].key, items[i].value, false)
    case Shutdown => false
  }

  /** An acknowledgement fits its entry: committed means all that was asked for; only writes are rejected. */
  ghost predicate Answers(budget: nat, a: Ack, e: LogEntry)
  {
    match a
    case Committed(rs) => Asked(e, rs)
    case IndexRam(key, current) => !Deletes(e) && !e.Shutdown? && current > budget && (key.Some? <==> e.Batch?)
    case Failed => false
    case NoReply => true
  }

  lemma {:induction false} AskedItems(e: LogEntry, rs: seq<Record>)
    requires Asked(e, rs)
    ensures |rs| == |Items(e)| && forall i :: 0 <= i < |rs| ==> rs[i].stream == Items(e)[i].stream
  {
  }

  /** Consecutive sequence ids from `first`, with no gap between entries. */
  ghost predicate Consecutive(rs: seq<Record>, first: nat)
  {
    forall i :: 0 <= i < |rs| ==> rs[i].seqId == first + i
  }

  lemma {:induction false} ConsecutiveConcat(a: seq<Record>, b: seq<Record>, first: nat)
    ensures Consecutive(a + b, first) <==> Consecutive(a, first) && Consecutive(b, first + |a|)
  {
    if Consecutive(a + b, first) {
      assert forall i :: 0 <= i < |a| ==> a[i] == (a + b)[i];
      assert forall i :: 0 <= i < |b| ==> b[i] == (a + b)[|a| + i];
    }
  }

  ghost predicate Stamped(clock: Clock, first: nat, p: Plan)
  {
    && p.nextSeq == first + |p.records|
    && Consecutive(p.records, first)
    && (forall i :: 0 <= i < |p.records| ==>
          && p.records[i].timestamp == clock(first + i)
          && (p.records[i].flags == FLAG_TOMBSTONE || p.records[i].flags == FLAG_ACTIVE))
  }

  /** All-or-nothing: exactly the committed entries are written, each one whole. */
  ghost predicate Answered(budget: nat, p: Plan, batch: seq<LogEntry>)
  {
    && |p.acks| == |batch|
    && p.records == CommittedRecords(p.acks)
    && (forall i :: 0 <= i < |batch| ==> Answers(budget, p.acks[i], batch[i]))
  }

  /** The plan spends the charge of its new keys, and never beyond the budget. */
  ghost predicate Affordable(c: Codec, primary: set<string>, ram: int, budget: nat, p: Plan)
  {
    && p.newKeys !! primary
    && p.spent == ram + SumCharge(c, p.newKeys) + TIME_NODE_BYTES * |p.newKeys|
    && (p.spent > ram ==> p.spent <= budget)
    && (forall i :: 0 <= i < |p.records| && p.records[i].IsActive() ==> p.records[i].Compound() in primary + p.newKeys)
  }

  lemma {:induction false} ChargeOk(c: Codec, primary: set<string>, budget: nat, ram: int, spent: int, newKeys: set<string>, items: seq<Item>)
    requires newKeys !! primary && spent == ram + SumCharge(c, newKeys) + TIME_NODE_BYTES * |newKeys|
    requires spent > ram ==> spent <= budget
    ensures
      var ch := ChargeItems(c, primary, budget, spent, newKeys, items);
      ch.Admitted? ==>
        && newKeys <= ch.newKeys && ch.newKeys !! primary
        && ch.spent == ram + SumCharge(c, ch.newKeys) + TIME_NODE_BYTES * |ch.newKeys|
        && (ch.spent > ram ==> ch.spent <= budget)
        && (forall i :: 0 <= i < |items| ==> items[i].Compound() in primary + ch.newKeys)
    decreases |items|
  {
    if items != [] {
      var k := items[0].Compound();
      if k in primary || k in newKeys {
        ChargeOk(c, primary, budget, ram, spent, newKeys, items[1..]);
      } else if spent + NewKeyCharge(c, k) <= budget {
        SumChargeRemove(c, newKeys + {k}, k);
        assert newKeys + {k} - {k} == newKeys;
        ChargeOk(c, primary, budget, ram, spent + NewKeyCharge(c, k), newKeys + {k}, items[1..]);
      }
    }
  }

  lemma {:induction false} PlanEntryStamped(c: Codec, primary: set<string>, budget: nat, clock: Clock, first: nat, p: Plan, e: LogEntry)
    requires Stamped(clock, first, p)
    ensures Stamped(clock, first, PlanEntry(c, primary, budget, clock, p, e))
  {
    hide ChargeItems, Items;
  }

  lemma {:induction false} RejectionOverBudget(c: Codec, primary: set<string>, budget: nat, spent: int, newKeys: set<string>, items: seq<Item>)
    ensures
      var ch := ChargeItems(c, primary, budget, spent, newKeys, items);
      ch.Rejected? ==> ch.current > budget && ch.key !in primary
    decreases |items|
  {
    if items != [] {
      var k := items[0].Compound();
      if k in primary || k in newKeys {
        RejectionOverBudget(c, primary, budget, spent, newKeys, items[1..]);
      } else {
        RejectionOverBudget(c, primary, budget, spent + NewKeyCharge(c, k), newKeys + {k}, items[1..]);
      }
    }
  }

  lemma {:induction false} PlanEntryAnswers(c: Codec, primary: set<string>, budget: nat, clock: Clock, p: Plan, done: seq<LogEntry>, e: LogEntry)
    requires Answered(budget, p, done)
    ensures Answered(budget, PlanEntry(c, primary, budget, clock, p, e), done + [e])
  {
    var p' := PlanEntry(c, primary, budget, clock, p, e);
    RejectionOverBudget(c, primary, budget, p.spent, p.newKeys, Items(e));
    assert p'.acks[..|p'.acks| - 1] == p.acks;
    assert Answers(budget, p'.acks[|done|], e);
  }

  lemma {:induction false} PlanEntryAffordable(c: Codec, primary: set<string>, ram: int, budget: nat, clock: Clock, p: Plan, e: LogEntry)
    requires Affordable(c, primary, ram, budget, p)
    ensures Affordable(c, primary, ram, budget, PlanEntry(c, primary, budget, clock, p, e))
  {
    hide ChargeItems, Items, SumCharge;
    if !p.stopped && !e.Shutdown? {
      ChargeOk(c, primary, budget, ram, p.spent, p.newKeys, Items(e));
    }
  }

  /** Every batch yields a plan that keeps the budget and treats each entry as a whole. */
  lemma {:induction false} PlanAllOk(c: Codec, primary: set<string>, ram: int, budget: nat, clock: Clock, first: nat, p: Plan, done: seq<LogEntry>, batch: seq<LogEntry>)
    requires Stamped(clock, first, p) && Affordable(c, primary, ram, budget, p) && Answered(budget, p, done)
    ensures
      var p' := PlanAll(c, primary, budget, clock, p, batch);
      Stamped(clock, first, p') && Affordable(c, primary, ram, budget, p') && Answered(budget, p', done + batch)
    decreases |batch|
  {
    hide Stamped, Affordable, Answered, PlanEntry;
    if batch == [] {
      assert done + batch == done;
    } else {
      PlanEntryStamped(c, primary, budget, clock, first, p, batch[0]);
      PlanEntryAffordable(c, primary, ram, budget, clock, p, batch[0]);
      PlanEntryAnswers(c, primary, budget, clock, p, done, batch[0]);
      PlanAllOk(c, primary, ram, budget, clock, first, PlanEntry(c, primary, budget, clock, p, batch[0]), done + [batch[0]], batch[1..]);
      assert done + [batch[0]] + batch[1..] == done + batch;
    }
  }

  /** The same from the flusher's starting point. */
  lemma {:induction false} PlanOk(c: Codec, primary: set<string>, ram: int, budget: nat, clock: Clock, first: nat, batch: seq<LogEntry>)
    ensures
      var p := PlanAll(c, primary, budget, clock, StartPlan(first, ram), batch);
      Stamped(clock, first, p) && Affordable(c, primary, ram, budget, p) && Answered(budget, p, batch)
  {
    assert SumCharge(c, {}) == 0;
    assert [] + batch == batch;
    PlanAllOk(c, primary, ram, budget, clock, first, StartPlan(first, ram), [], batch);
  }
}
