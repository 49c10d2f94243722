/**
 * Insert uniqueness: a caller checks and reserves its keys under the write lock, waits for the flusher
 * outside it, and releases the reservations on every exit path. Callers and the flusher interleave freely.
 */
module Reservation {
  import opened Wrappers

  // ---------- Reserving, as the caller does it ----------

  class PendingInserts {
    var keys: set<string>

    constructor ()
      ensures keys == {}
    {
      keys := {};
    }

    /** `mark_insert_pending`: false if another insert of the key is in flight. */
    method Mark(key: string) returns (added: bool)
      modifies this
      ensures keys == old(keys) + {key} && added == (key !in old(keys))
    {
      added := key !in keys;
      keys := keys + {key};
    }

    method Clear(key: string)
      modifies this
      ensures keys == old(keys) - {key}
    {
      keys := keys - {key};
    }

    /** Dropping the guard. */
    method Release(held: seq<string>)
      modifies this
      ensures keys == old(keys) - (set k | k in held)
    {
      for i := 0 to |held|
        invariant keys == old(keys) - (set k | k in held[..i])
      {
        assert held[..i + 1] == held[..i] + [held[i]];
        Clear(held[i]);
      }
      assert held[..|held|] == held;
    }

    /**
     * The reservation loop of a batch insert: it succeeds exactly when the keys are distinct, absent from
     * the index and not in flight; otherwise it leaves the pending set as it was.
     */
    method ReserveAll(index: set<string>, batch: seq<string>) returns (ok: bool)
      modifies this
      ensures ok <==> Reservable(old(keys), index, batch)
      ensures keys == if ok then old(keys) + (set k | k in batch) else old(keys)
    {
      for i := 0 to |batch|
        invariant Reservable(old(keys), index, batch[..i])
        invariant keys == old(keys) + (set k | k in batch[..i])
      {
        var k := batch[i];
        assert batch[..i + 1] == batch[..i] + [k];
        if k in index {
          Release(batch[..i]);
          assert !Reservable(old(keys), index, batch);
          return false;
        }
        var added := Mark(k);
        if !added {
          NotReservable(old(keys), index, batch, i);
          Release(batch[..i]);
          return false;
        }
      }
      assert batch[..|batch|] == batch;
      return true;
    }
  }

  predicate Reservable(pending: set<string>, index: set<string>, batch: seq<string>)
  {
    && (forall i :: 0 <= i < |batch| ==> batch[i] !in index && batch[i] !in pending)
    && forall i, j :: 0 <= i < j < |batch| ==> batch[i] != batch[j]
  }

  lemma {:induction false} NotReservable(pending: set<string>, index: set<string>, batch: seq<string>, i: nat)
    requires i < |batch| && (batch[i] in pending || batch[i] in batch[..i])
    ensures !Reservable(pending, index, batch)
  {
    if batch[i] in batch[..i] {
      var j :| 0 <= j < i && batch[..i][j] == batch[i];
      assert batch[j] == batch[i];
    }
  }

  // ---------- The interleaved system ----------

  /** What the flusher has applied, in order. */
  datatype Event = Inserted(key: string, call: nat) | Upserted(key: string) | Deleted(key: string)

  datatype Entry = InsertEntry(call: nat, keys: seq<string>) | UpsertEntry(key: string) | DeleteEntry(key: string)

  /** Where one insert call is. `held` are the keys its guard will clear. */
  datatype Call =
    | Reserving(todo: seq<string>, held: seq<string>)
    | Waiting(held: seq<string>)
    | Releasing(ok: bool, held: seq<string>)
    | Finished(ok: bool)

  datatype Sys = Sys(
    index: set<string>,
    pending: set<string>,
    lock: Option<nat>,
    calls: map<nat, Call>,
    queue: seq<Entry>,
    decided: map<nat, bool>,
    log: seq<Event>)

  const START: Sys := Sys({}, {}, None, map[], [], map[], [])

  // ---------- Steps ----------

  ghost predicate Begin(s: Sys, s': Sys, c: nat, keys: seq<string>)
  {
    && c !in s.calls && s.lock.None?
    && s' == s.(lock := Some(c), calls := s.calls[c := Reserving(keys, [])])
  }

  /** The check of the index and the mark are one step. */
  ghost predicate Reserve(s: Sys, s': Sys, c: nat)
  {
    && c in s.calls && s.calls[c].Reserving? && s.calls[c].todo != []
    && var k, held := s.calls[c].todo[0], s.calls[c].held;
       s' == if k in s.index || k in s.pending then s.(calls := s.calls[c := Releasing(false, held)])
             else s.(pending := s.pending + {k}, calls := s.calls[c := Reserving(s.calls[c].todo[1..], held + [k])])
  }

  /** The entry is queued and the lock given up. */
  ghost predicate Enqueue(s: Sys, s': Sys, c: nat)
  {
    && c in s.calls && s.calls[c].Reserving? && s.calls[c].todo == []
    && s' == s.(queue := s.queue + [InsertEntry(c, s.calls[c].held)], lock := None, calls := s.calls[c := Waiting(s.calls[c].held)])
  }

  ghost predicate EnqueueFails(s: Sys, s': Sys, c: nat)
  {
    && c in s.calls && s.calls[c].Reserving?
    && s' == s.(calls := s.calls[c := Releasing(false, s.calls[c].held)])
  }

  /** Upserts, updates and deletes reserve nothing. */
  ghost predicate OtherWrite(s: Sys, s': Sys, e: Entry)
  {
    !e.InsertEntry? && s' == s.(queue := s.queue + [e])
  }

  function EventsOf(e: Entry): (es: seq<Event>)
  {
    match e
    case InsertEntry(call, keys) => InsertEvents(call, keys)
    case UpsertEntry(k) => [Upserted(k)]
    case DeleteEntry(k) => [Deleted(k)]
  }

  function InsertEvents(call: nat, keys: seq<string>): (es: seq<Event>)
    ensures |es| == |keys| && forall i :: 0 <= i < |keys| ==> es[i] == Inserted(keys[i], call)
  {
    seq(|keys|, i requires 0 <= i < |keys| => Inserted(keys[i], call))
  }

  function Decide(s: Sys, e: Entry, ok: bool): map<nat, bool>
  {
    if e.InsertEntry? then s.decided[e.call := ok] else s.decided
  }

  /** The flusher makes the next entry durable and applies it, wholly or not at all. Its answer is sent later. */
  ghost predicate Apply(s: Sys, s': Sys, ok: bool)
  {
    && s.queue != []
    && var e := s.queue[0];
       var log := if ok then s.log + EventsOf(e) else s.log;
       s' == s.(queue := s.queue[1..], log := log, index := Present(log), decided := Decide(s, e, ok))
  }

  /** The caller gets the flusher's answer. */
  ghost predicate Receive(s: Sys, s': Sys, c: nat)
  {
    && c in s.calls && s.calls[c].Waiting? && c in s.decided
    && s' == s.(calls := s.calls[c := Releasing(s.decided[c], s.calls[c].held)])
  }

  /** The answer is lost with the flusher. */
  ghost predicate Lost(s: Sys, s': Sys, c: nat)
  {
    && c in s.calls && s.calls[c].Waiting?
    && (forall i :: 0 <= i < |s.queue| ==> !(s.queue[i].InsertEntry? && s.queue[i].call == c))
    && s' == s.(calls := s.calls[c := Releasing(false, s.calls[c].held)])
  }

  /** The flusher dies: what it had queued is gone. */
  ghost predicate Dies(s: Sys, s': Sys)
  {
    s' == s.(queue := [])
  }

  ghost predicate Clear(s: Sys, s': Sys, c: nat)
  {
    && c in s.calls && s.calls[c].Releasing? && s.calls[c].held != []
    && var held := s.calls[c].held;
       s' == s.(pending := s.pending - {held[0]}, calls := s.calls[c := Releasing(s.calls[c].ok, held[1..])])
  }

  ghost predicate Finish(s: Sys, s': Sys, c: nat)
  {
    && c in s.calls && s.calls[c].Releasing? && s.calls[c].held == []
    && s' == s.(calls := s.calls[c := Finished(s.calls[c].ok)], lock := if s.lock == Some(c) then None else s.lock)
  }

  ghost predicate CallStep(s: Sys, s': Sys, c: nat)
  {
    || (exists keys :: Begin(s, s', c, keys))
    || Reserve(s, s', c) || Enqueue(s, s', c) || EnqueueFails(s, s', c)
    || Receive(s, s', c) || Lost(s, s', c) || Clear(s, s', c) || Finish(s, s', c)
  }

  ghost predicate Next(s: Sys, s': Sys)
  {
    || (exists c :: CallStep(s, s', c))
    || (exists e :: OtherWrite(s, s', e))
    || (exists ok :: Apply(s, s', ok))
    || Dies(s, s')
  }

  // ---------- What the log says ----------

  function Present(log: seq<Event>): set<string>
  {
    if log == [] then {} else
    var e := log[|log| - 1];
    if e.Deleted? then Present(log[..|log| - 1]) - {e.key} else Present(log[..|log| - 1]) + {e.key}
  }

  /** `k` was inserted, and not deleted since. */
  function Live(log: seq<Event>, k: string): bool
  {
    if log == [] then false else
    var e := log[|log| - 1];
    if e.key == k && e.Inserted? then true
    else if e.key == k && e.Deleted? then false
    else Live(log[..|log| - 1], k)
  }

  /** Between two inserts of a key there is a delete of it. */
  ghost predicate Separated(log: seq<Event>)
  {
    forall i, j :: 0 <= i < j < |log| && log[i].Inserted? && log[j].Inserted? && log[i].key == log[j].key ==>
      DeletedBetween(log, i, j)
  }

  ghost predicate DeletedBetween(log: seq<Event>, i: nat, j: nat)
    requires i <= j <= |log|
  {
    exists m :: i < m < j && log[m] == Deleted(log[i].key)
  }

  lemma {:induction false} LiveIsPresent(log: seq<Event>, k: string)
    ensures Live(log, k) ==> k in Present(log)
  {
    if log != [] {
      LiveIsPresent(log[..|log| - 1], k);
    }
  }

  lemma {:induction false} NotLive(log: seq<Event>, k: string, i: nat)
    requires !Live(log, k) && i < |log| && log[i].Inserted? && log[i].key == k
    ensures DeletedBetween(log, i, |log|)
  {
    var init, e := log[..|log| - 1], log[|log| - 1];
    if e != Deleted(k) {
      NotLive(init, k, i);
      var m :| i < m < |init| && init[m] == Deleted(init[i].key);
      assert log[m] == Deleted(k);
    }
  }

  lemma {:induction false} SeparatedSnoc(log: seq<Event>, e: Event)
    requires Separated(log) && (e.Inserted? ==> !Live(log, e.key))
    ensures Separated(log + [e])
  {
    var log' := log + [e];
    forall i, j | 0 <= i < j < |log'| && log'[i].Inserted? && log'[j].Inserted? && log'[i].key == log'[j].key
      ensures DeletedBetween(log', i, j)
    {
      if j == |log| {
        NotLive(log, e.key, i);
        var m :| i < m < |log| && log[m] == Deleted(log[i].key);
        assert log'[m] == log[m];
      } else {
        var m :| i < m < j && log[m] == Deleted(log[i].key);
        assert log'[m] == log[m];
      }
    }
  }

  /** Applying an insert of distinct keys, none of them live. */
  lemma {:induction false} SeparatedInsert(log: seq<Event>, call: nat, keys: seq<string>)
    requires Separated(log) && (forall i :: 0 <= i < |keys| ==> !Live(log, keys[i]))
    requires forall i, j :: 0 <= i < j < |keys| ==> keys[i] != keys[j]
    ensures Separated(log + InsertEvents(call, keys))
    ensures forall k :: k !in keys ==> Live(log + InsertEvents(call, keys), k) == Live(log, k)
    ensures forall k :: k in keys ==> Inserted(k, call) in log + InsertEvents(call, keys)
  {
    hide Separated, DeletedBetween;
    if keys == [] {
      assert log + InsertEvents(call, keys) == log;
    } else {
      var init, k := keys[..|keys| - 1], keys[|keys| - 1];
      SeparatedInsert(log, call, init);
      var log0 := log + InsertEvents(call, init);
      assert k !in init;
      SeparatedSnoc(log0, Inserted(k, call));
      assert InsertEvents(call, keys) == InsertEvents(call, init) + [Inserted(k, call)];
      assert log + InsertEvents(call, keys) == log0 + [Inserted(k, call)];
      assert (log0 + [Inserted(k, call)])[..|log0|] == log0;
      assert keys == init + [k];
    }
  }

  // ---------- The invariant ----------

  function Held(s: Sys, c: nat): seq<string>
  {
    if c !in s.calls || s.calls[c].Finished? then [] else s.calls[c].held
  }

  /** Not yet applied: the insert is still being reserved, or its entry is queued. */
  ghost predicate InFlight(s: Sys, c: nat)
  {
    c in s.calls && (s.calls[c].Reserving? || (s.calls[c].Waiting? && c !in s.decided))
  }

  ghost predicate Exclusive(s: Sys)
  {
    && (forall c, k :: k in Held(s, c) ==> k in s.pending)
    && (forall k :: k in s.pending ==> exists c :: k in Held(s, c))
    && (forall c, d, k :: k in Held(s, c) && k in Held(s, d) ==> c == d)
    && (forall c, i, j :: 0 <= i < j < |Held(s, c)| ==> Held(s, c)[i] != Held(s, c)[j])
  }

  ghost predicate QueueOk(s: Sys)
  {
    && (forall i :: 0 <= i < |s.queue| && s.queue[i].InsertEntry? ==>
          && InFlight(s, s.queue[i].call) && s.calls[s.queue[i].call].Waiting?
          && s.calls[s.queue[i].call].held == s.queue[i].keys)
    && (forall i, j :: 0 <= i < j < |s.queue| && s.queue[i].InsertEntry? && s.queue[j].InsertEntry? ==> s.queue[i].call != s.queue[j].call)
    && (forall c :: c in s.decided ==> c in s.calls && !s.calls[c].Reserving?)
  }

  ghost predicate LogOk(s: Sys)
  {
    && s.index == Present(s.log)
    && Separated(s.log)
    && (forall c, k :: InFlight(s, c) && k in Held(s, c) ==> !Live(s.log, k))
    && (forall c, k :: c in s.decided && s.decided[c] && k in Held(s, c) ==> Inserted(k, c) in s.log)
    && (forall c :: c in s.calls && s.calls[c].Releasing? && s.calls[c].ok ==> c in s.decided && s.decided[c])
  }

  ghost predicate LockOk(s: Sys)
  {
    forall c :: c in s.calls && s.calls[c].Reserving? ==> s.lock == Some(c)
  }

  ghost predicate Ok(s: Sys)
  {
    Exclusive(s) && QueueOk(s) && LogOk(s) && LockOk(s)
  }

  // ---------- Every step keeps it ----------

  lemma {:induction false} BeginOk(s: Sys, s': Sys, c: nat, keys: seq<string>)
    requires Ok(s) && Begin(s, s', c, keys)
    ensures Ok(s')
  {
    assert forall d :: Held(s', d) == Held(s, d);
    assert forall d :: InFlight(s', d) && d != c ==> InFlight(s, d);
  }

  lemma {:induction false} ReserveOk(s: Sys, s': Sys, c: nat)
    requires Ok(s) && Reserve(s, s', c)
    ensures Ok(s')
  {
    hide Exclusive;
    NotQueued(s, c);
    var k := s.calls[c].todo[0];
    if k in s.index || k in s.pending {
      assert Ok(s') by {
        ReleasingOk(s, s', c, false);
      }
    } else {
      ReservedExclusive(s, s', c);
      assert LogOk(s') by {
        var k, held := s.calls[c].todo[0], s.calls[c].held;
        LiveIsPresent(s.log, k);
        assert Held(s', c) == held + [k] && Held(s, c) == held;
        assert forall d :: d != c ==> Held(s', d) == Held(s, d) && InFlight(s', d) == InFlight(s, d);
      }
    }
  }

  lemma {:induction false} ReservedExclusive(s: Sys, s': Sys, c: nat)
    requires Exclusive(s) && Reserve(s, s', c)
    requires s.calls[c].todo[0] !in s.index && s.calls[c].todo[0] !in s.pending
    ensures Exclusive(s')
  {
    var k, held := s.calls[c].todo[0], s.calls[c].held;
    assert Held(s', c) == held + [k] && Held(s, c) == held;
    assert forall d :: d != c ==> Held(s', d) == Held(s, d);
    forall j | j in s'.pending
      ensures exists d :: j in Held(s', d)
    {
      if j == k {
        assert j in Held(s', c);
      } else {
        var d :| j in Held(s, d);
        assert j in Held(s', d);
      }
    }
  }

  lemma {:induction false} SamePending(s: Sys, s': Sys)
    requires Exclusive(s) && s'.pending == s.pending && forall d :: Held(s', d) == Held(s, d)
    ensures Exclusive(s')
  {
    forall k | k in s'.pending
      ensures exists c :: k in Held(s', c)
    {
      var c :| k in Held(s, c);
      assert k in Held(s', c);
    }
  }

  /** The log says the same as long as no call becomes in flight or gains a key. */
  lemma {:induction false} SameLog(s: Sys, s': Sys)
    requires LogOk(s) && s'.log == s.log && s'.index == s.index && s'.decided == s.decided
    requires forall d, k :: InFlight(s', d) && k in Held(s', d) ==> InFlight(s, d) && k in Held(s, d)
    requires forall d, k :: k in Held(s', d) ==> k in Held(s, d)
    requires forall d :: d in s'.calls && s'.calls[d].Releasing? && s'.calls[d].ok ==>
      (d in s.calls && s.calls[d].Releasing? && s.calls[d].ok) || (d in s.decided && s.decided[d])
    ensures LogOk(s')
  {
    hide Live, Present, Separated;
  }

  /** A call that is over for the flusher goes on to release what it holds. */
  lemma {:induction false} ReleasingOk(s: Sys, s': Sys, c: nat, ok: bool)
    requires Ok(s) && c in s.calls && (s.calls[c].Reserving? || s.calls[c].Waiting?)
    requires s' == s.(calls := s.calls[c := Releasing(ok, s.calls[c].held)])
    requires ok ==> c in s.decided && s.decided[c]
    requires forall i :: 0 <= i < |s.queue| && s.queue[i].InsertEntry? ==> s.queue[i].call != c
    ensures Ok(s')
  {
    assert forall d :: Held(s', d) == Held(s, d);
    SamePending(s, s');
    assert forall d :: InFlight(s', d) ==> InFlight(s, d);
    SameLog(s, s');
    hide Exclusive, LogOk;
    forall i | 0 <= i < |s'.queue| && s'.queue[i].InsertEntry?
      ensures InFlight(s', s'.queue[i].call)
    {
      assert InFlight(s, s.queue[i].call);
    }
  }

  lemma {:induction false} NotQueued(s: Sys, c: nat)
    requires QueueOk(s) && c in s.calls && (s.calls[c].Reserving? || c in s.decided)
    ensures forall i :: 0 <= i < |s.queue| && s.queue[i].InsertEntry? ==> s.queue[i].call != c
  {
    forall i | 0 <= i < |s.queue| && s.queue[i].InsertEntry?
      ensures s.queue[i].call != c
    {
      assert InFlight(s, s.queue[i].call) && s.calls[s.queue[i].call].Waiting?;
    }
  }

  lemma {:induction false} ClearExclusive(s: Sys, s': Sys, c: nat)
    requires Exclusive(s) && Clear(s, s', c)
    ensures Exclusive(s')
  {
    var held := s.calls[c].held;
    assert held == Held(s, c) && Held(s', c) == held[1..];
    assert forall d :: d != c ==> Held(s', d) == Held(s, d);
    forall k | k in s'.pending
      ensures exists d :: k in Held(s', d)
    {
      var d :| k in Held(s, d);
      assert d == c ==> k in held[1..];
      assert k in Held(s', d);
    }
    forall d, k | k in Held(s', d)
      ensures k in s'.pending && k in Held(s, d)
    {
      assert d == c ==> k in held && held[0] !in held[1..];
      assert d != c ==> held[0] in Held(s, c);
    }
  }

  // ---------- The flusher ----------

  lemma {:induction false} ApplyQueue(s: Sys, s': Sys, ok: bool)
    requires QueueOk(s) && Apply(s, s', ok)
    ensures QueueOk(s')
  {
    var e := s.queue[0];
    if e.InsertEntry? {
      assert InFlight(s, e.call) && s.calls[e.call].Waiting?;
    }
    forall i | 0 <= i < |s'.queue| && s'.queue[i].InsertEntry?
      ensures InFlight(s', s'.queue[i].call) && s'.calls[s'.queue[i].call].Waiting?
      ensures s'.calls[s'.queue[i].call].held == s'.queue[i].keys
    {
      assert s'.queue[i] == s.queue[i + 1];
      assert InFlight(s, s.queue[i + 1].call);
    }
  }

  lemma {:induction false} ApplyLog(s: Sys, s': Sys, ok: bool)
    requires Exclusive(s) && QueueOk(s) && LogOk(s) && Apply(s, s', ok)
    ensures LogOk(s')
  {
    var e := s.queue[0];
    if e.InsertEntry? {
      assert LogOk(s') by {
        assert InFlight(s, e.call) && Held(s, e.call) == e.keys;
        assert forall d :: Held(s', d) == Held(s, d) && (InFlight(s', d) ==> InFlight(s, d) && d != e.call);
        if ok {
          SeparatedInsert(s.log, e.call, e.keys);
          forall c, k | InFlight(s', c) && k in Held(s', c)
            ensures !Live(s'.log, k)
          {
            assert k !in e.keys;
          }
          assert forall x :: x in s.log ==> x in s'.log;
        }
      }
    } else {
      assert forall d :: Held(s', d) == Held(s, d) && InFlight(s', d) == InFlight(s, d);
      if ok {
        SeparatedSnoc(s.log, EventsOf(e)[0]);
        assert s'.log == s.log + [EventsOf(e)[0]];
        forall c, k | InFlight(s', c) && k in Held(s', c)
          ensures !Live(s'.log, k)
        {
        }
      }
    }
  }

  lemma {:induction false} CallStepOk(s: Sys, s': Sys, c: nat)
    requires Ok(s) && CallStep(s, s', c)
    ensures Ok(s')
  {
    hide Exclusive, LogOk;
    if keys :| Begin(s, s', c, keys) {
      BeginOk(s, s', c, keys);
    } else if Reserve(s, s', c) {
      ReserveOk(s, s', c);
    } else if Enqueue(s, s', c) {
      assert Ok(s') by {
        assert forall d :: Held(s', d) == Held(s, d);
        SamePending(s, s');
        assert forall d :: InFlight(s', d) == InFlight(s, d);
        SameLog(s, s');
      }
    } else if EnqueueFails(s, s', c) {
      NotQueued(s, c);
      ReleasingOk(s, s', c, false);
    } else if Receive(s, s', c) {
      NotQueued(s, c);
      ReleasingOk(s, s', c, s.decided[c]);
    } else if Lost(s, s', c) {
      ReleasingOk(s, s', c, false);
    } else if Clear(s, s', c) {
      assert Ok(s') by {
        var held := s.calls[c].held;
        assert held == Held(s, c) && Held(s', c) == held[1..];
        assert forall d :: d != c ==> Held(s', d) == Held(s, d);
        assert forall d :: InFlight(s', d) == InFlight(s, d);
        ClearExclusive(s, s', c);
        assert forall d, k :: k in Held(s', d) ==> k in Held(s, d);
        SameLog(s, s');
        forall i | 0 <= i < |s'.queue| && s'.queue[i].InsertEntry?
          ensures InFlight(s', s'.queue[i].call) && s'.queue[i].call != c
        {
          assert InFlight(s, s.queue[i].call);
        }
      }
    } else {
      assert forall d :: Held(s', d) == Held(s, d);
      SamePending(s, s');
      assert forall d :: InFlight(s', d) == InFlight(s, d);
      SameLog(s, s');
      forall i | 0 <= i < |s'.queue| && s'.queue[i].InsertEntry?
        ensures InFlight(s', s'.queue[i].call) && s'.queue[i].call != c
      {
        assert InFlight(s, s.queue[i].call);
      }
    }
  }

  lemma {:induction false} NextOk(s: Sys, s': Sys)
    requires Ok(s) && Next(s, s')
    ensures Ok(s')
  {
    hide CallStep;
    if c :| CallStep(s, s', c) {
      CallStepOk(s, s', c);
    } else if e :| OtherWrite(s, s', e) {
      assert forall d :: Held(s', d) == Held(s, d) && InFlight(s', d) == InFlight(s, d);
      SamePending(s, s');
      SameLog(s, s');
      forall i | 0 <= i < |s'.queue| && s'.queue[i].InsertEntry?
        ensures s'.queue[i] == s.queue[i] && i < |s.queue|
      {
      }
    } else if ok :| Apply(s, s', ok) {
      assert Ok(s') by {
        assert forall d :: Held(s', d) == Held(s, d);
        SamePending(s, s');
        ApplyQueue(s, s', ok);
        ApplyLog(s, s', ok);
      }
    } else {
      assert Ok(s') by {
        assert forall d :: Held(s', d) == Held(s, d) && InFlight(s', d) == InFlight(s, d);
        SamePending(s, s');
        SameLog(s, s');
      }
    }
  }

  ghost predicate Run(ss: seq<Sys>)
  {
    ss != [] && ss[0] == START && forall i :: 0 <= i < |ss| - 1 ==> Next(ss[i], ss[i + 1])
  }

  lemma {:induction false} RunOk(ss: seq<Sys>, i: nat)
    requires Run(ss) && i < |ss|
    ensures Ok(ss[i])
  {
    hide Next;
    if i == 0 {
    } else {
      RunOk(ss, i - 1);
      assert Next(ss[i - 1], ss[i - 1 + 1]);
      hide Ok;
      NextOk(ss[i - 1], ss[i]);
    }
  }

  // ---------- What it means ----------

  /**
   * In every interleaving, at every moment: no key is held by two insert calls, the pending set is exactly
   * the keys held, so it is empty once all calls are over; while a successful call still holds a key, that
   * key is in the index, unless a delete came after the insert; and two inserts of one key always have a
   * delete between them.
   */
  lemma {:induction false} InsertsAreUnique(ss: seq<Sys>, i: nat)
    requires Run(ss) && i < |ss|
    ensures
      var s := ss[i];
      && (forall c, d, k :: k in Held(s, c) && k in Held(s, d) ==> c == d)
      && (forall k :: k in s.pending <==> exists c :: k in Held(s, c))
      && ((forall c :: c in s.calls ==> s.calls[c].Finished?) ==> s.pending == {})
      && (forall c, k :: c in s.calls && s.calls[c].Releasing? && s.calls[c].ok && k in s.calls[c].held ==>
            k in s.index || DeletedAgain(s.log, k, c))
      && Separated(s.log)
  {
    RunOk(ss, i);
    var s := ss[i];
    hide Run, Present, Separated;
    forall c, k | c in s.calls && s.calls[c].Releasing? && s.calls[c].ok && k in s.calls[c].held
      ensures k in s.index || DeletedAgain(s.log, k, c)
    {
      assert k in Held(s, c);
      assert k in Present(s.log) || DeletedAgain(s.log, k, c) by {
        LiveIsPresent(s.log, k);
        if !Live(s.log, k) {
          var m :| 0 <= m < |s.log| && s.log[m] == Inserted(k, c);
          NotLive(s.log, k, m);
        }
      }
    }
  }

  ghost predicate DeletedAgain(log: seq<Event>, k: string, c: nat)
  {
    exists m :: 0 <= m < |log| && log[m] == Inserted(k, c) && DeletedBetween(log, m, |log|)
  }

  /**
   * An insert whose check starts after another insert of the key was applied: the check fails, unless a
   * tombstone of the key was applied in between.
   */
  lemma {:induction false} LateInsertFails(ss: seq<Sys>, i: nat, c: nat, m: nat)
    requires Run(ss) && i + 1 < |ss| && Reserve(ss[i], ss[i + 1], c)
    requires m < |ss[i].log| && ss[i].log[m].Inserted? && ss[i].log[m].key == ss[i].calls[c].todo[0]
    ensures ss[i + 1].calls[c] == Releasing(false, ss[i].calls[c].held) || DeletedBetween(ss[i].log, m, |ss[i].log|)
  {
    var s, k := ss[i], ss[i].calls[c].todo[0];
    RunOk(ss, i);
    LiveIsPresent(s.log, k);
    if !Live(s.log, k) {
      NotLive(s.log, k, m);
    }
  }
}
