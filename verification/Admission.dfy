/**
 * What each caller of a group commit is told, in terms of the batch alone: entry by entry, which are admitted,
 * which are turned away for want of index memory, on which key and at what count, and which are dropped.
 */
module Admission {
  import opened Wrappers
  import opened Bytes
  import opened Types
  import opened Frames
  import opened Index
  import opened Disk
  import opened GroupCommit
  import opened FlushIndex
  import opened Flusher

  // ---------- What an answer depends on ----------

  /** The keys written by the admitted entries before entry `i`. */
  ghost function Entered(batch: seq<LogEntry>, acks: seq<Ack>, i: nat): set<string>
    requires i <= |batch| && i <= |acks|
  {
    set j, x | 0 <= j < i && acks[j].Committed? && !Deletes(batch[j]) && x in Items(batch[j]) :: x.Compound()
  }

  /** The keys of the first `m` items, and those of them that are not known yet. */
  ghost function FirstKeys(items: seq<Item>, m: nat): set<string>
    requires m <= |items|
  {
    set j | 0 <= j < m :: items[j].Compound()
  }

  ghost function Unknown(known: set<string>, items: seq<Item>, m: nat): set<string>
    requires m <= |items|
  {
    FirstKeys(items, m) - known
  }

  /** Nothing new, or all that is new still fits the budget. */
  ghost predicate Fits(c: Codec, budget: nat, spent: int, news: set<string>)
  {
    news == {} || spent + FullCharge(c, news) <= budget
  }

  /** Item `m` is the first whose key does not fit. */
  ghost predicate FirstMisfit(c: Codec, budget: nat, spent: int, known: set<string>, items: seq<Item>, m: nat)
    requires m < |items|
  {
    && Fits(c, budget, spent, Unknown(known, items, m))
    && !Fits(c, budget, spent, Unknown(known, items, m + 1))
  }

  /** The answer to a write of `items`, when `known` keys cost nothing and `spent` bytes are charged already. */
  ghost predicate Charged(c: Codec, budget: nat, spent: int, known: set<string>, e: LogEntry, items: seq<Item>, a: Ack)
  {
    match a
    case Committed(_) => Fits(c, budget, spent, Unknown(known, items, |items|))
    case IndexRam(key, current) =>
      exists m :: 0 <= m < |items| && FirstMisfit(c, budget, spent, known, items, m)
        && current == spent + FullCharge(c, Unknown(known, items, m + 1))
        && key == if e.Batch? then Some(items[m].Compound()) else None
    case _ => false
  }

  ghost predicate Stopped(batch: seq<LogEntry>, i: nat)
    requires i < |batch|
  {
    exists j :: 0 <= j <= i && batch[j].Shutdown?
  }

  /**
   * The answer to entry `i` as the plan gives it: none from a shutdown sentinel on; before that a delete is
   * always committed, and a write is committed or turned away by the budget, whichever its keys, those indexed,
   * and those written before it in the batch say.
   */
  ghost predicate Justified(c: Codec, primary: set<string>, ram: int, budget: nat, batch: seq<LogEntry>, acks: seq<Ack>, i: nat)
    requires |acks| == |batch| && i < |batch|
  {
    var entered := Entered(batch, acks, i);
    if Stopped(batch, i) then acks[i] == NoReply
    else if Deletes(batch[i]) then acks[i].Committed?
    else Charged(c, budget, ram + FullCharge(c, entered - primary), primary + entered, batch[i], Items(batch[i]), acks[i])
  }

  // ---------- The charge of one entry ----------

  lemma {:induction false} FullChargeAdd(c: Codec, ks: set<string>, k: string)
    requires k !in ks
    ensures FullCharge(c, ks + {k}) == NewKeyCharge(c, k) + FullCharge(c, ks)
  {
    FullChargeRemove(c, ks + {k}, k);
    assert ks + {k} - {k} == ks;
  }

  lemma {:induction false} FullChargeUnion(c: Codec, a: set<string>, b: set<string>)
    requires a !! b
    ensures FullCharge(c, a + b) == FullCharge(c, a) + FullCharge(c, b)
    decreases b
  {
    hide FullCharge;
    if b == {} {
      assert a + b == a;
      NoFullCharge(c);
    } else {
      var k :| k in b;
      FullChargeUnion(c, a, b - {k});
      FullChargeAdd(c, b - {k}, k);
      FullChargeAdd(c, a + (b - {k}), k);
      assert b - {k} + {k} == b && a + (b - {k}) + {k} == a + b;
    }
  }

  lemma {:induction false} NoFullCharge(c: Codec)
    ensures FullCharge(c, {}) == 0
  {
  }

  /** One item further. */
  lemma {:induction false} UnknownStep(known: set<string>, items: seq<Item>, m: nat)
    requires items != [] && m < |items|
    ensures
      var k := items[0].Compound();
      Unknown(known, items, m + 1) ==
        if k in known then Unknown(known, items[1..], m) else {k} + Unknown(known + {k}, items[1..], m)
    ensures items[0].Compound() !in Unknown(known + {items[0].Compound()}, items[1..], m)
  {
    var tail := items[1..];
    forall k | k in FirstKeys(items, m + 1)
      ensures k == items[0].Compound() || k in FirstKeys(tail, m)
    {
      var j :| 0 <= j < m + 1 && items[j].Compound() == k;
      assert j > 0 ==> tail[j - 1].Compound() == k;
    }
    assert forall j :: 0 <= j < m ==> tail[j] == items[j + 1];
    assert items[0].Compound() in FirstKeys(items, m + 1);
  }

  lemma {:induction false} NothingUnknown(known: set<string>, items: seq<Item>)
    ensures Unknown(known, items, 0) == {}
  {
  }

  /** `Fits` after one admitted key is `Fits` with that key among the new ones. */
  lemma {:induction false} FitsStep(c: Codec, budget: nat, spent: int, news: set<string>, k: string)
    requires k !in news
    ensures Fits(c, budget, spent, {k} + news) <==>
      spent + NewKeyCharge(c, k) <= budget && Fits(c, budget, spent + NewKeyCharge(c, k), news)
    ensures spent + FullCharge(c, {k} + news) == spent + NewKeyCharge(c, k) + FullCharge(c, news)
  {
    FullChargeAdd(c, news, k);
    assert news + {k} == {k} + news;
    NoFullCharge(c);
  }

  lemma {:induction false} FitsNothing(c: Codec, budget: nat, spent: int)
    ensures Fits(c, budget, spent, {})
  {
  }

  /** The outcome of the budget loop, if it saw all new keys at once and stopped at the first that does not fit. */
  ghost predicate Decides(c: Codec, budget: nat, spent: int, known: set<string>, newKeys: set<string>, items: seq<Item>, ch: Charge)
  {
    match ch
    case Admitted(spent', newKeys') =>
      var news := Unknown(known, items, |items|);
      Fits(c, budget, spent, news) && newKeys' == newKeys + news && spent' == spent + FullCharge(c, news)
    case Rejected(key, current) =>
      exists m :: 0 <= m < |items| && FirstMisfit(c, budget, spent, known, items, m)
        && current == spent + FullCharge(c, Unknown(known, items, m + 1)) && key == items[m].Compound()
  }

  lemma {:induction false} DecidesNone(c: Codec, budget: nat, spent: int, known: set<string>, newKeys: set<string>)
    ensures Decides(c, budget, spent, known, newKeys, [], Admitted(spent, newKeys))
  {
    NoFullCharge(c);
    NothingUnknown(known, []);
  }

  /** A key that costs nothing decides nothing. */
  lemma {:induction false} DecidesKnown(c: Codec, budget: nat, spent: int, known: set<string>, newKeys: set<string>, items: seq<Item>, ch: Charge)
    requires items != [] && items[0].Compound() in known
    requires Decides(c, budget, spent, known, newKeys, items[1..], ch)
    ensures Decides(c, budget, spent, known, newKeys, items, ch)
  {
    hide Fits, FullCharge, Unknown;
    var tail := items[1..];
    NothingUnknown(known, items);
    if ch.Admitted? {
      if tail == [] {
        UnknownStep(known, items, 0);
      } else {
        UnknownStep(known, items, |tail|);
      }
    } else {
      var m :| 0 <= m < |tail| && FirstMisfit(c, budget, spent, known, tail, m)
        && ch.current == spent + FullCharge(c, Unknown(known, tail, m + 1)) && ch.key == tail[m].Compound();
      UnknownStep(known, items, m);
      UnknownStep(known, items, m + 1);
      assert items[m + 1] == tail[m];
    }
  }

  /** A key that is admitted is charged like the rest. */
  lemma {:induction false} DecidesNew(c: Codec, budget: nat, spent: int, known: set<string>, newKeys: set<string>, items: seq<Item>, ch: Charge)
    requires items != [] && items[0].Compound() !in known
    requires spent + NewKeyCharge(c, items[0].Compound()) <= budget
    requires
      var k := items[0].Compound();
      Decides(c, budget, spent + NewKeyCharge(c, k), known + {k}, newKeys + {k}, items[1..], ch)
    ensures Decides(c, budget, spent, known, newKeys, items, ch)
  {
    hide Fits, FullCharge, Unknown, NewKeyCharge;
    var k, tail := items[0].Compound(), items[1..];
    if ch.Admitted? {
      UnknownStep(known, items, |tail|);
      FitsStep(c, budget, spent, Unknown(known + {k}, tail, |tail|), k);
    } else {
      var m :| 0 <= m < |tail| && FirstMisfit(c, budget, spent + NewKeyCharge(c, k), known + {k}, tail, m)
        && ch.current == spent + NewKeyCharge(c, k) + FullCharge(c, Unknown(known + {k}, tail, m + 1)) && ch.key == tail[m].Compound();
      UnknownStep(known, items, m);
      UnknownStep(known, items, m + 1);
      FitsStep(c, budget, spent, Unknown(known + {k}, tail, m), k);
      FitsStep(c, budget, spent, Unknown(known + {k}, tail, m + 1), k);
      assert items[m + 1] == tail[m];
      assert FirstMisfit(c, budget, spent, known, items, m + 1);
    }
  }

  lemma {:induction false} DecidesMisfit(c: Codec, budget: nat, spent: int, known: set<string>, newKeys: set<string>, items: seq<Item>)
    requires items != [] && items[0].Compound() !in known
    requires spent + NewKeyCharge(c, items[0].Compound()) > budget
    ensures
      var k := items[0].Compound();
      Decides(c, budget, spent, known, newKeys, items, Rejected(k, spent + NewKeyCharge(c, k)))
  {
    hide Fits, FullCharge, Unknown, NewKeyCharge;
    var k := items[0].Compound();
    UnknownStep(known, items, 0);
    NothingUnknown(known, items);
    NothingUnknown(known + {k}, items[1..]);
    FitsNothing(c, budget, spent);
    FitsStep(c, budget, spent, {}, k);
    NoFullCharge(c);
    assert FirstMisfit(c, budget, spent, known, items, 0);
  }

  lemma {:induction false} ChargeExact(c: Codec, primary: set<string>, budget: nat, spent: int, newKeys: set<string>, items: seq<Item>)
    ensures Decides(c, budget, spent, primary + newKeys, newKeys, items, ChargeItems(c, primary, budget, spent, newKeys, items))
    decreases |items|
  {
    hide Decides, NewKeyCharge;
    var known := primary + newKeys;
    if items == [] {
      DecidesNone(c, budget, spent, known, newKeys);
    } else {
      var k, tail := items[0].Compound(), items[1..];
      if k in known {
        ChargeExact(c, primary, budget, spent, newKeys, tail);
        DecidesKnown(c, budget, spent, known, newKeys, items, ChargeItems(c, primary, budget, spent, newKeys, tail));
      } else if spent + NewKeyCharge(c, k) > budget {
        DecidesMisfit(c, budget, spent, known, newKeys, items);
      } else {
        var total := spent + NewKeyCharge(c, k);
        assert primary + (newKeys + {k}) == known + {k};
        ChargeExact(c, primary, budget, total, newKeys + {k}, tail);
        DecidesNew(c, budget, spent, known, newKeys, items, ChargeItems(c, primary, budget, total, newKeys + {k}, tail));
      }
    }
  }

  // ---------- Entry after entry ----------

  /** What the plan carries from entry to entry. */
  ghost predicate Tracks(c: Codec, primary: set<string>, ram: int, p: Plan, batch: seq<LogEntry>)
  {
    && |p.acks| == |batch|
    && p.newKeys == Entered(batch, p.acks, |batch|) - primary
    && p.spent == ram + FullCharge(c, p.newKeys)
    && (p.stopped <==> exists j :: 0 <= j < |batch| && batch[j].Shutdown?)
  }

  ghost predicate AllJustified(c: Codec, primary: set<string>, ram: int, budget: nat, batch: seq<LogEntry>, acks: seq<Ack>)
  {
    |acks| == |batch| && forall i :: 0 <= i < |batch| ==> Justified(c, primary, ram, budget, batch, acks, i)
  }

  lemma {:induction false} EnteredGrows(batch: seq<LogEntry>, acks: seq<Ack>, e: LogEntry, a: Ack, i: nat)
    requires |acks| == |batch| && i <= |batch|
    ensures Entered(batch + [e], acks + [a], i) == Entered(batch, acks, i)
  {
    hide Items, Deletes;
    assert forall j :: 0 <= j < i ==> (batch + [e])[j] == batch[j] && (acks + [a])[j] == acks[j];
    forall k
      ensures k in Entered(batch + [e], acks + [a], i) <==> k in Entered(batch, acks, i)
    {
      if k in Entered(batch + [e], acks + [a], i) {
        var j, x :| 0 <= j < i && (acks + [a])[j].Committed? && !Deletes((batch + [e])[j]) && x in Items((batch + [e])[j]) && x.Compound() == k;
        assert acks[j].Committed? && !Deletes(batch[j]) && x in Items(batch[j]);
      }
      if k in Entered(batch, acks, i) {
        var j, x :| 0 <= j < i && acks[j].Committed? && !Deletes(batch[j]) && x in Items(batch[j]) && x.Compound() == k;
        assert (acks + [a])[j].Committed? && !Deletes((batch + [e])[j]) && x in Items((batch + [e])[j]);
      }
    }
  }

  lemma {:induction false} EnteredSnoc(batch: seq<LogEntry>, acks: seq<Ack>, e: LogEntry, a: Ack)
    requires |acks| == |batch|
    ensures Entered(batch + [e], acks + [a], |batch| + 1) ==
      Entered(batch, acks, |batch|) + if a.Committed? && !Deletes(e) then KeysOf(Items(e)) else {}
  {
    hide Items, Deletes;
    var n, b, s := |batch|, batch + [e], acks + [a];
    EnteredGrows(batch, acks, e, a, n);
    assert b[n] == e && s[n] == a;
    forall k
      ensures k in Entered(b, s, n + 1) <==>
        k in Entered(b, s, n) || (a.Committed? && !Deletes(e) && exists x :: x in Items(e) && x.Compound() == k)
    {
      if k in Entered(b, s, n + 1) {
        var j, x :| 0 <= j < n + 1 && s[j].Committed? && !Deletes(b[j]) && x in Items(b[j]) && x.Compound() == k;
        assert j < n ==> k in Entered(b, s, n);
      }
    }
  }

  lemma {:induction false} JustifiedGrows(c: Codec, primary: set<string>, ram: int, budget: nat, batch: seq<LogEntry>, acks: seq<Ack>, e: LogEntry, a: Ack, i: nat)
    requires |acks| == |batch| && i < |batch| && Justified(c, primary, ram, budget, batch, acks, i)
    ensures Justified(c, primary, ram, budget, batch + [e], acks + [a], i)
  {
    hide Charged, Items, Deletes, Entered, FullCharge;
    EnteredGrows(batch, acks, e, a, i);
    assert (batch + [e])[i] == batch[i] && (acks + [a])[i] == acks[i];
    assert Stopped(batch + [e], i) <==> Stopped(batch, i) by {
      assert forall j :: 0 <= j <= i ==> (batch + [e])[j] == batch[j];
    }
  }

  ghost function KeysOf(items: seq<Item>): set<string>
  {
    set x | x in items :: x.Compound()
  }

  lemma {:induction false} AllKeys(items: seq<Item>)
    ensures FirstKeys(items, |items|) == KeysOf(items)
  {
    forall k
      ensures k in FirstKeys(items, |items|) <==> k in KeysOf(items)
    {
      if x :| x in items && x.Compound() == k {
        var j :| 0 <= j < |items| && items[j] == x;
        assert items[j].Compound() == k;
      }
      if j :| 0 <= j < |items| && items[j].Compound() == k {
        assert items[j] in items;
      }
    }
  }

  /** One more entry: what is carried on is right. */
  lemma {:induction false} PlanEntryTracks(c: Codec, primary: set<string>, ram: int, budget: nat, clock: Clock, p: Plan, batch: seq<LogEntry>, e: LogEntry)
    requires Tracks(c, primary, ram, p, batch)
    ensures Tracks(c, primary, ram, PlanEntry(c, primary, budget, clock, p, e), batch + [e])
  {
    hide PlanEntry, Items, Deletes, Entered, FullCharge, KeysOf, FirstKeys, Decides;
    var p' := PlanEntry(c, primary, budget, clock, p, e);
    var n, known, keys := |batch|, primary + p.newKeys, KeysOf(Items(e));
    var entered := Entered(batch, p.acks, n);
    OneAnswer(c, primary, budget, clock, p, e);
    EnteredSnoc(batch, p.acks, e, p'.acks[n]);
    StoppedSnoc(batch, e);
    EntryUncharged(c, primary, budget, clock, p, e);
    if !p.stopped && !e.Shutdown? && !Deletes(e) {
      EntryCharged(c, primary, budget, clock, p, e);
      if p'.acks[n].Committed? {
        FullChargeUnion(c, p.newKeys, keys - known);
        NewOnes(primary, entered, keys);
      }
    }
  }

  lemma {:induction false} NewOnes(primary: set<string>, entered: set<string>, keys: set<string>)
    ensures (entered - primary) + (keys - (primary + (entered - primary))) == (entered + keys) - primary
  {
  }

  lemma {:induction false} StoppedSnoc(batch: seq<LogEntry>, e: LogEntry)
    ensures (exists j :: 0 <= j < |batch + [e]| && (batch + [e])[j].Shutdown?) <==> e.Shutdown? || exists j :: 0 <= j < |batch| && batch[j].Shutdown?
  {
    var b := batch + [e];
    assert b[|batch|] == e && forall j :: 0 <= j < |batch| ==> b[j] == batch[j];
  }

  lemma {:induction false} EntryUncharged(c: Codec, primary: set<string>, budget: nat, clock: Clock, p: Plan, e: LogEntry)
    ensures
      var p' := PlanEntry(c, primary, budget, clock, p, e);
      && |p'.acks| == |p.acks| + 1
      && (p'.stopped <==> p.stopped || e.Shutdown?)
      && (p'.stopped <==> p'.acks[|p.acks|] == NoReply)
      && (p'.stopped || Deletes(e) || p'.acks[|p.acks|].IndexRam? ==> p'.spent == p.spent && p'.newKeys == p.newKeys)
      && (!p'.stopped && Deletes(e) ==> p'.acks[|p.acks|].Committed?)
  {
    hide ChargeItems, Items, Stamp;
  }

  lemma {:induction false} EntryCharged(c: Codec, primary: set<string>, budget: nat, clock: Clock, p: Plan, e: LogEntry)
    requires !p.stopped && !e.Shutdown? && !Deletes(e)
    ensures
      var p', known, items := PlanEntry(c, primary, budget, clock, p, e), primary + p.newKeys, Items(e);
      && |p'.acks| == |p.acks| + 1 && !p'.stopped
      && Charged(c, budget, p.spent, known, e, items, p'.acks[|p.acks|])
      && (p'.acks[|p.acks|].Committed? ==>
            && p'.newKeys == p.newKeys + (KeysOf(items) - known)
            && p'.spent == p.spent + FullCharge(c, KeysOf(items) - known))
  {
    hide FullCharge, Items, Stamp, Fits, FirstMisfit;
    ChargeExact(c, primary, budget, p.spent, p.newKeys, Items(e));
    AllKeys(Items(e));
    hide ChargeItems;
  }

  /** Its answer is the justified one. */
  lemma {:induction false} PlanEntryJustified(c: Codec, primary: set<string>, ram: int, budget: nat, clock: Clock, p: Plan, batch: seq<LogEntry>, e: LogEntry)
    requires Tracks(c, primary, ram, p, batch)
    ensures Justified(c, primary, ram, budget, batch + [e], PlanEntry(c, primary, budget, clock, p, e).acks, |batch|)
  {
    hide PlanEntry, Items, Deletes, Charged, FullCharge;
    var p' := PlanEntry(c, primary, budget, clock, p, e);
    var n, b := |batch|, batch + [e];
    OneAnswer(c, primary, budget, clock, p, e);
    EnteredGrows(batch, p.acks, e, p'.acks[n], n);
    StoppedSnoc(batch, e);
    assert b[n] == e && (Stopped(b, n) <==> exists j :: 0 <= j < |b| && b[j].Shutdown?);
    hide Entered;
    EntryUncharged(c, primary, budget, clock, p, e);
    if !p.stopped && !e.Shutdown? && !Deletes(e) {
      EntryCharged(c, primary, budget, clock, p, e);
      assert primary + p.newKeys == primary + Entered(batch, p.acks, n);
    }
  }

  lemma {:induction false} PlanAllJustified(c: Codec, primary: set<string>, ram: int, budget: nat, clock: Clock, p: Plan, done: seq<LogEntry>, batch: seq<LogEntry>)
    requires Tracks(c, primary, ram, p, done) && AllJustified(c, primary, ram, budget, done, p.acks)
    ensures AllJustified(c, primary, ram, budget, done + batch, PlanAll(c, primary, budget, clock, p, batch).acks)
    decreases |batch|
  {
    hide Tracks, Justified, PlanEntry;
    if batch == [] {
      assert done + batch == done;
    } else {
      var e := batch[0];
      var p' := PlanEntry(c, primary, budget, clock, p, e);
      PlanEntryTracks(c, primary, ram, budget, clock, p, done, e);
      PlanEntryJustified(c, primary, ram, budget, clock, p, done, e);
      OneAnswer(c, primary, budget, clock, p, e);
      forall i | 0 <= i < |done + [e]|
        ensures Justified(c, primary, ram, budget, done + [e], p'.acks, i)
      {
        if i < |done| {
          JustifiedGrows(c, primary, ram, budget, done, p.acks, e, p'.acks[|done|], i);
        }
      }
      PlanAllJustified(c, primary, ram, budget, clock, p', done + [e], batch[1..]);
      assert done + [e] + batch[1..] == done + batch;
    }
  }

  lemma {:induction false} OneAnswer(c: Codec, primary: set<string>, budget: nat, clock: Clock, p: Plan, e: LogEntry)
    ensures
      var acks := PlanEntry(c, primary, budget, clock, p, e).acks;
      |acks| == |p.acks| + 1 && acks == p.acks + [acks[|p.acks|]]
  {
  }

  /** Every entry of every batch gets the answer that the batch before it calls for. */
  lemma {:induction false} AdmissionExact(c: Codec, primary: set<string>, ram: int, budget: nat, clock: Clock, first: nat, batch: seq<LogEntry>)
    ensures
      var p := PlanAll(c, primary, budget, clock, StartPlan(first, ram), batch);
      && AllJustified(c, primary, ram, budget, batch, p.acks)
      && p.records == CommittedRecords(p.acks)
      && forall i :: 0 <= i < |batch| && p.acks[i].Committed? ==> Asked(batch[i], p.acks[i].records)
  {
    hide Justified, Asked;
    var start := StartPlan(first, ram);
    NoFullCharge(c);
    assert Tracks(c, primary, ram, start, []);
    assert [] + batch == batch;
    PlanAllJustified(c, primary, ram, budget, clock, start, [], batch);
    PlanOk(c, primary, ram, budget, clock, first, batch);
    var p := PlanAll(c, primary, budget, clock, start, batch);
    assert forall i :: 0 <= i < |batch| ==> Answers(budget, p.acks[i], batch[i]);
  }

  // ---------- The answers that are sent ----------

  /**
   * What the callers of a group commit are told: if it succeeds, what admission decided; if it fails at whatever
   * step, those turned away are told so and all others that it failed, even behind a shutdown sentinel.
   */
  lemma {:induction false} AnswersExact(cfg: Config, db: Db, clock: Clock, batch: seq<LogEntry>, fault: Fault)
    requires Segment(db.activeId) in db.disk.dir
    ensures
      var plan, o := PlanBatch(cfg, db, clock, batch), Flush(cfg, db, clock, batch, fault);
      && |plan.acks| == |batch|
      && AllJustified(cfg.codec, db.idx.primary.Keys, db.idx.ram, cfg.budget, batch, plan.acks)
      && var acks := Answer(plan, o.ok, batch);
         forall i :: 0 <= i < |batch| ==>
           if o.ok || plan.acks[i].IndexRam? then acks[i] == plan.acks[i]
           else acks[i] == if batch[i].Shutdown? then NoReply else Failed
  {
    hide Justified, PlanAll, Commit;
    AdmissionExact(cfg.codec, db.idx.primary.Keys, db.idx.ram, cfg.budget, clock, db.nextSeq, batch);
    var plan := PlanBatch(cfg, db, clock, batch);
    forall i | 0 <= i < |batch| && batch[i].Shutdown?
      ensures plan.acks[i] == NoReply
    {
      assert Justified(cfg.codec, db.idx.primary.Keys, db.idx.ram, cfg.budget, batch, plan.acks, i);
      ShutdownUnanswered(cfg.codec, db.idx.primary.Keys, db.idx.ram, cfg.budget, batch, plan.acks, i);
    }
  }

  lemma {:induction false} ShutdownUnanswered(c: Codec, primary: set<string>, ram: int, budget: nat, batch: seq<LogEntry>, acks: seq<Ack>, i: nat)
    requires |acks| == |batch| && i < |batch| && batch[i].Shutdown? && Justified(c, primary, ram, budget, batch, acks, i)
    ensures acks[i] == NoReply
  {
  }

  lemma {:induction false} CommittedListed(acks: seq<Ack>, i: nat, r: Record)
    requires i < |acks| && acks[i].Committed? && r in acks[i].records
    ensures r in CommittedRecords(acks)
    decreases |acks|
  {
    var n := |acks| - 1;
    if i < n {
      CommittedListed(acks[..n], i, r);
    }
  }

  /** Some pointer into the file reads the record. */
  ghost predicate ReadsBack(c: Codec, file: bytes, r: Record)
  {
    exists off :: ReadAt(c, file, off) == Some(r)
  }

  /**
   * A successful commit adds the frames of the entries it answers as committed to the active segment, and nothing
   * else; they are synced when the answers go out, and each of their records reads back.
   */
  lemma {:induction false} CommittedIsSynced(cfg: Config, db: Db, clock: Clock, batch: seq<LogEntry>, fault: Fault)
    requires cfg.codec.Lawful() && AllWritable(cfg.codec, PlanBatch(cfg, db, clock, batch).records)
    requires Segment(db.activeId) in db.disk.dir && db.activeSize == |db.disk.dir[Segment(db.activeId)]|
    requires Segment(db.segmentCounter) !in db.disk.dir
    requires Flush(cfg, db, clock, batch, fault).ok
    ensures
      var o, acks := Flush(cfg, db, clock, batch, fault), PlanBatch(cfg, db, clock, batch).acks;
      var active, rolled := Segment(o.db.activeId), o.db.activeId != db.activeId;
      && active in o.db.disk.dir && active in o.db.disk.durable
      && var file := o.db.disk.dir[active];
         && file == (if rolled then [] else db.disk.dir[active]) + EncodeAll(cfg.codec, CommittedRecords(acks))
         && o.db.disk.durable[active] == |file| == o.db.activeSize
         && (rolled <==> db.activeSize + |EncodeAll(cfg.codec, CommittedRecords(acks))| > cfg.maxSegmentSize)
         && forall i, r :: 0 <= i < |acks| && acks[i].Committed? && r in acks[i].records ==> ReadsBack(cfg.codec, file, r)
  {
    hide PlanAll, ReadAt, EncodeAll, AllWritable, ApplyAll, AllJustified;
    var c, plan, o := cfg.codec, PlanBatch(cfg, db, clock, batch), Flush(cfg, db, clock, batch, fault);
    AdmissionExact(c, db.idx.primary.Keys, db.idx.ram, cfg.budget, clock, db.nextSeq, batch);
    var active := Segment(o.db.activeId);
    var file := o.db.disk.dir[active];
    var before := if o.db.activeId != db.activeId then [] else db.disk.dir[active];
    assert o.db.activeId != db.activeId <==> db.activeSize + |EncodeAll(c, plan.records)| > cfg.maxSegmentSize;
    assert file == before + EncodeAll(c, plan.records);
    forall i, r | 0 <= i < |plan.acks| && plan.acks[i].Committed? && r in plan.acks[i].records
      ensures ReadsBack(c, file, r)
    {
      CommittedListed(plan.acks, i, r);
      var k :| 0 <= k < |plan.records| && plan.records[k] == r;
      assert file[|before|..] == EncodeAll(c, plan.records);
      LayoutReads(c, file, |before|, plan.records, k);
      assert ReadAt(c, file, Layout(c, plan.records, |before|)[k].offset) == Some(r);
    }
  }
}
