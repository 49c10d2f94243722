/**
 * The sequence-pattern stage: a state machine that commits to a first match, advances greedily, and
 * gives up when the time window has passed. The reference it is proved against knows no state: a
 * pattern completes at the earliest record at which some ordered selection of matches exists.
 */
module SequenceMatching {
  import opened Wrappers
  import opened Bytes
  import opened Types

  type Step = Record -> bool

  // ---------- Reference ----------

  /** `idx` selects, in order and starting at `start`, records matching the first steps. */
  ghost predicate IsChain(steps: seq<Step>, recs: seq<Record>, start: nat, idx: seq<nat>)
  {
    && 1 <= |idx| <= |steps| && idx[0] == start
    && (forall j :: 0 <= j < |idx| ==> idx[j] < |recs| && steps[j](recs[idx[j]]))
    && (forall j, k :: 0 <= j < k < |idx| ==> idx[j] < idx[k])
  }

  ghost predicate HasChain(steps: seq<Step>, recs: seq<Record>, start: nat, len: nat)
  {
    exists idx: seq<nat> :: |idx| == len && IsChain(steps, recs, start, idx)
  }

  predicate Expired(window: int, recs: seq<Record>, start: nat, i: nat)
    requires start < |recs| && i < |recs|
  {
    recs[i].timestamp - recs[start].timestamp > window
  }

  /** The whole pattern has been matched, from `start`, by record `i`. */
  ghost predicate CompleteBy(steps: seq<Step>, recs: seq<Record>, start: nat, i: nat)
    requires i < |recs|
  {
    HasChain(steps, recs[..i + 1], start, |steps|)
  }

  /** The first record after `start` at which the pattern is complete or the window has passed. */
  ghost function Decided(steps: seq<Step>, window: int, recs: seq<Record>, start: nat, i: nat): (e: nat)
    requires start < i <= |recs|
    ensures i <= e <= |recs|
    decreases |recs| - i
  {
    if i == |recs| || Expired(window, recs, start, i) || CompleteBy(steps, recs, start, i) then i
    else Decided(steps, window, recs, start, i + 1)
  }

  /** The positions at which patterns complete, looking from record `i` on. */
  ghost function Completions(steps: seq<Step>, window: int, recs: seq<Record>, i: nat): seq<nat>
    requires |steps| >= 2
    decreases |recs| - i
  {
    if i >= |recs| then []
    else if !steps[0](recs[i]) then Completions(steps, window, recs, i + 1)
    else
      var e := Decided(steps, window, recs, i, i + 1);
      if e == |recs| then []
      else if Expired(window, recs, i, e) then Completions(steps, window, recs, e)
      else [e] + Completions(steps, window, recs, e + 1)
  }

  // ---------- Greedy progress is the longest chain ----------

  ghost predicate Longest(steps: seq<Step>, recs: seq<Record>, start: nat, len: nat)
  {
    HasChain(steps, recs, start, len) && forall k :: k > len ==> !HasChain(steps, recs, start, k)
  }

  /** A chain that is new with `r` ends in `r`, and without its end it was there before. */
  lemma {:induction false} ChainEnds(steps: seq<Step>, recs: seq<Record>, r: Record, start: nat, len: nat)
    requires start < |recs| && HasChain(steps, recs + [r], start, len) && !HasChain(steps, recs, start, len)
    ensures 2 <= len <= |steps| && steps[len - 1](r) && HasChain(steps, recs, start, len - 1)
  {
    var idx: seq<nat> :| |idx| == len && IsChain(steps, recs + [r], start, idx);
    assert idx[len - 1] < |recs| ==> IsChain(steps, recs, start, idx);
    assert idx[len - 1] == |recs|;
    assert forall j :: 0 <= j < len - 1 ==> idx[j] < |recs|;
    assert len > 1 ==> IsChain(steps, recs, start, idx[..len - 1]);
  }

  /** One more record lengthens the longest chain exactly if it matches the next step. */
  lemma {:induction false} LongestStep(steps: seq<Step>, recs: seq<Record>, r: Record, start: nat, len: nat)
    requires start < |recs| && len < |steps| && Longest(steps, recs, start, len)
    ensures Longest(steps, recs + [r], start, if steps[len](r) then len + 1 else len)
  {
    if steps[len](r) {
      assert HasChain(steps, recs + [r], start, len + 1) by {
        var idx: seq<nat> :| |idx| == len && IsChain(steps, recs, start, idx);
        assert IsChain(steps, recs + [r], start, idx + [|recs|]);
      }
    }
    forall k | k > (if steps[len](r) then len + 1 else len)
      ensures !HasChain(steps, recs + [r], start, k)
    {
      if HasChain(steps, recs + [r], start, k) {
        ChainEnds(steps, recs, r, start, k);
      }
    }
  }

  lemma {:induction false} FirstMatch(steps: seq<Step>, recs: seq<Record>, r: Record)
    requires |steps| >= 1 && steps[0](r)
    ensures Longest(steps, recs + [r], |recs|, 1)
  {
    assert IsChain(steps, recs + [r], |recs|, [|recs|]);
    forall k: nat | k > 1
      ensures !HasChain(steps, recs + [r], |recs|, k)
    {
      forall idx: seq<nat> | IsChain(steps, recs + [r], |recs|, idx)
        ensures |idx| == 1
      {
        var last := idx[|idx| - 1];
        assert last <= |recs|;
      }
    }
  }

  // ---------- The matcher ----------

  class SequenceMatcher {
    const steps: seq<Step>
    const window: int
    var currentStep: nat
    var windowStartMs: int
    var partialMatches: seq<Record>
    /** All records processed so far, and the position of the one committed to. */
    ghost var seen: seq<Record>
    ghost var origin: nat

    constructor (steps: seq<Step>, withinMs: nat)
      requires |steps| >= 1 && withinMs < U64
      ensures Valid() && this.steps == steps && window == U64ToI64(withinMs) && seen == [] && currentStep == 0
    {
      this.steps := steps;
      window := U64ToI64(withinMs);
      currentStep, windowStartMs, partialMatches := 0, 0, [];
      seen, origin := [], 0;
    }

    /** Idle, or committed to a start still within its window, at the longest chain from there. */
    ghost predicate Valid()
      reads this
    {
      && |steps| >= 1
      && |partialMatches| == currentStep
      && (currentStep > 0 ==>
            && currentStep < |steps| && origin < |seen|
            && steps[0](seen[origin]) && windowStartMs == seen[origin].timestamp
            && Longest(steps, seen, origin, currentStep)
            && partialMatches[0] == seen[origin]
            && (forall i :: origin < i < |seen| ==> !Expired(window, seen, origin, i)))
    }

    method Reset()
      modifies this`currentStep, this`windowStartMs, this`partialMatches
      ensures currentStep == 0 && windowStartMs == 0 && partialMatches == []
    {
      currentStep := 0;
      windowStartMs := 0;
      partialMatches := [];
    }

    /**
     * The record is emitted exactly when it completes a chain from the committed start inside the
     * window. A record past the window abandons the start, and may itself be the next start.
     */
    method Process(record: Record) returns (out: Option<Record>)
      requires Valid()
      modifies this
      ensures Valid() && seen == old(seen) + [record]
      ensures out.Some? ==> out.value == record
      ensures old(currentStep) == 0 ==>
        && out.None?
        && (currentStep > 0 <==> |steps| > 1 && steps[0](record))
        && (currentStep > 0 ==> origin == |old(seen)|)
      ensures old(currentStep) > 0 && Expired(window, seen, old(origin), |old(seen)|) ==>
        && out.None?
        && (currentStep > 0 <==> steps[0](record))
        && (currentStep > 0 ==> origin == |old(seen)|)
      ensures old(currentStep) > 0 && !Expired(window, seen, old(origin), |old(seen)|) ==>
        && (out.Some? <==> HasChain(steps, seen, old(origin), |steps|))
        && (out.Some? ==> currentStep == 0)
        && (out.None? ==> currentStep > 0 && origin == old(origin))
    {
      ghost var before := seen;
      seen := seen + [record];
      if currentStep == 0 {
        if steps[0](record) {
          windowStartMs := record.timestamp;
          currentStep := 1;
          partialMatches := partialMatches + [record];
          origin := |before|;
          FirstMatch(steps, before, record);
          if currentStep >= |steps| {
            Reset();
          }
        }
        return None;
      }
      if record.timestamp - windowStartMs > window {
        Reset();
        if steps[0](record) {
          windowStartMs := record.timestamp;
          currentStep := 1;
          partialMatches := partialMatches + [record];
          origin := |before|;
          FirstMatch(steps, before, record);
        }
        return None;
      }
      assert forall i :: origin < i < |before| ==> Expired(window, seen, origin, i) == Expired(window, before, origin, i);
      LongestStep(steps, before, record, origin, currentStep);
      if steps[currentStep](record) {
        currentStep := currentStep + 1;
        partialMatches := partialMatches + [record];
        if currentStep >= |steps| {
          var completed := Some(partialMatches[|partialMatches| - 1]);
          Reset();
          return completed;
        }
      }
      return None;
    }
  }

  // ---------- The stage ----------

  predicate SortedByTime(recs: seq<Record>)
  {
    forall i, j :: 0 <= i < j < |recs| ==> recs[i].timestamp <= recs[j].timestamp
  }

  /** A stable sort by timestamp: each record goes after all that are not later. */
  function InsertByTime(sorted: seq<Record>, r: Record): (s: seq<Record>)
  {
    if sorted == [] || sorted[|sorted| - 1].timestamp <= r.timestamp then sorted + [r]
    else InsertByTime(sorted[..|sorted| - 1], r) + [sorted[|sorted| - 1]]
  }

  function SortByTime(recs: seq<Record>): (s: seq<Record>)
  {
    if recs == [] then [] else InsertByTime(SortByTime(recs[..|recs| - 1]), recs[|recs| - 1])
  }

  lemma {:induction false} InsertElements(sorted: seq<Record>, r: Record)
    ensures multiset(InsertByTime(sorted, r)) == multiset(sorted) + multiset{r}
  {
    if sorted != [] && r.timestamp < sorted[|sorted| - 1].timestamp {
      var init, last := sorted[..|sorted| - 1], sorted[|sorted| - 1];
      InsertElements(init, r);
      assert sorted == init + [last];
    }
  }

  lemma {:induction false} InsertSorted(sorted: seq<Record>, r: Record)
    requires SortedByTime(sorted)
    ensures SortedByTime(InsertByTime(sorted, r))
  {
    if sorted != [] && r.timestamp < sorted[|sorted| - 1].timestamp {
      var init, last := sorted[..|sorted| - 1], sorted[|sorted| - 1];
      InsertSorted(init, r);
      InsertBelow(init, r, last.timestamp);
    }
  }

  lemma {:induction false} InsertBelow(sorted: seq<Record>, r: Record, t: int)
    requires r.timestamp <= t && forall x :: x in sorted ==> x.timestamp <= t
    ensures forall x :: x in InsertByTime(sorted, r) ==> x.timestamp <= t
  {
    if sorted != [] && r.timestamp < sorted[|sorted| - 1].timestamp {
      InsertBelow(sorted[..|sorted| - 1], r, t);
    }
  }

  /** The records of one timestamp, in order. */
  function AtTime(recs: seq<Record>, t: int): seq<Record>
  {
    if recs == [] then [] else
    AtTime(recs[..|recs| - 1], t) + if recs[|recs| - 1].timestamp == t then [recs[|recs| - 1]] else []
  }

  lemma {:induction false} InsertStable(sorted: seq<Record>, r: Record, t: int)
    ensures AtTime(InsertByTime(sorted, r), t) == AtTime(sorted, t) + if r.timestamp == t then [r] else []
  {
    var s := InsertByTime(sorted, r);
    if sorted != [] && r.timestamp < sorted[|sorted| - 1].timestamp {
      InsertStable(sorted[..|sorted| - 1], r, t);
      assert s[..|s| - 1] == InsertByTime(sorted[..|sorted| - 1], r);
    } else {
      assert s[..|s| - 1] == sorted;
    }
  }

  /** Sorting permutes the records, orders them by timestamp, and keeps the order of those that share one. */
  lemma {:induction false} SortSorted(recs: seq<Record>)
    ensures SortedByTime(SortByTime(recs)) && multiset(SortByTime(recs)) == multiset(recs)
    ensures forall t :: AtTime(SortByTime(recs), t) == AtTime(recs, t)
  {
    if recs != [] {
      var init, last := recs[..|recs| - 1], recs[|recs| - 1];
      SortSorted(init);
      InsertSorted(SortByTime(init), last);
      InsertElements(SortByTime(init), last);
      assert recs == init + [last];
      forall t
        ensures AtTime(SortByTime(recs), t) == AtTime(recs, t)
      {
        InsertStable(SortByTime(init), last, t);
      }
    }
  }

  function At(recs: seq<Record>, idx: seq<nat>): (s: seq<Record>)
    requires Indices(recs, idx)
    ensures |s| == |idx| && forall i :: 0 <= i < |idx| ==> s[i] == recs[idx[i]]
  {
    seq(|idx|, i requires 0 <= i < |idx| => recs[idx[i]])
  }

  /** The stage emits exactly the records at which the reference says patterns complete. */
  method DetectSequences(steps: seq<Step>, withinMs: nat, records: seq<Record>) returns (results: seq<Record>)
    requires |steps| >= 2 && withinMs < U64
    ensures
      var recs, es := SortByTime(records), Completions(steps, U64ToI64(withinMs), SortByTime(records), 0);
      && Indices(recs, es)
      && results == At(recs, es)
  {
    hide Completions, Decided, SortByTime, HasChain, Longest, Underway;
    var matcher := new SequenceMatcher(steps, withinMs);
    var recs := SortByTime(records);
    results := [];
    ghost var window := U64ToI64(withinMs);
    ghost var done: seq<nat> := [];
    var i := 0;
    Beginning(steps, window, recs, matcher.origin);
    while i < |recs|
      invariant i <= |recs|
      invariant matcher.Valid() && matcher.seen == recs[..i] && matcher.steps == steps && matcher.window == window
      invariant Indices(recs, done) && results == At(recs, done)
      invariant Underway(steps, window, recs, i, done, matcher.currentStep > 0, matcher.origin)
    {
      ghost var committed, origin := matcher.currentStep > 0, matcher.origin;
      var out := matcher.Process(recs[i]);
      assert matcher.seen == recs[..i + 1];
      assert committed ==> Expired(window, matcher.seen, origin, i) == Expired(window, recs, origin, i);
      Turn(steps, window, recs, i, done, committed, origin, out.Some?, matcher.currentStep > 0, matcher.origin);
      if out.Some? {
        results := results + [out.value];
        done := done + [i];
      }
      i := i + 1;
    }
    AllSeen(steps, window, recs, done, matcher.currentStep > 0, matcher.origin);
  }

  lemma {:induction false} Beginning(steps: seq<Step>, window: int, recs: seq<Record>, origin: nat)
    requires |steps| >= 2
    ensures Underway(steps, window, recs, 0, [], false, origin)
  {
    assert [] + Completions(steps, window, recs, 0) == Completions(steps, window, recs, 0);
  }

  lemma {:induction false} AllSeen(steps: seq<Step>, window: int, recs: seq<Record>, done: seq<nat>, committed: bool, origin: nat)
    requires |steps| >= 2 && Underway(steps, window, recs, |recs|, done, committed, origin)
    ensures Completions(steps, window, recs, 0) == done
  {
    assert done + [] == done;
  }

  ghost predicate Indices(recs: seq<Record>, idx: seq<nat>)
  {
    forall j :: 0 <= j < |idx| ==> idx[j] < |recs|
  }

  /** Where the stage stands against the reference after `i` records. */
  ghost predicate Underway(steps: seq<Step>, window: int, recs: seq<Record>, i: nat, done: seq<nat>, committed: bool, origin: nat)
    requires |steps| >= 2 && i <= |recs|
  {
    if committed then
      && origin < i && steps[0](recs[origin])
      && Completions(steps, window, recs, 0) == done + Completions(steps, window, recs, origin)
      && Decided(steps, window, recs, origin, origin + 1) == Decided(steps, window, recs, origin, i)
    else
      Completions(steps, window, recs, 0) == done + Completions(steps, window, recs, i)
  }

  lemma {:induction false} Turn(steps: seq<Step>, window: int, recs: seq<Record>, i: nat, done: seq<nat>,
                                committed: bool, origin: nat, emitted: bool, committed': bool, origin': nat)
    requires |steps| >= 2 && i < |recs| && Underway(steps, window, recs, i, done, committed, origin)
    requires !committed ==> !emitted && (committed' <==> steps[0](recs[i])) && (committed' ==> origin' == i)
    requires committed && Expired(window, recs, origin, i) ==>
      !emitted && (committed' <==> steps[0](recs[i])) && (committed' ==> origin' == i)
    requires committed && !Expired(window, recs, origin, i) ==>
      (emitted <==> CompleteBy(steps, recs, origin, i)) && (committed' <==> !emitted) && (committed' ==> origin' == origin)
    ensures Underway(steps, window, recs, i + 1, if emitted then done + [i] else done, committed', origin')
  {
    hide CompleteBy;
    if !committed {
      if !steps[0](recs[i]) {
        assert Completions(steps, window, recs, i) == Completions(steps, window, recs, i + 1);
      }
    } else {
      if Expired(window, recs, origin, i) {
        if !steps[0](recs[i]) {
          assert Completions(steps, window, recs, i) == Completions(steps, window, recs, i + 1);
        }
      } else if emitted {
        assert done + ([i] + Completions(steps, window, recs, i + 1)) == done + [i] + Completions(steps, window, recs, i + 1);
      }
    }
  }

  // ---------- What the reference promises ----------

  /** Emission `e` completes a pattern that started at `start`, as early as any selection from there could. */
  ghost predicate Completes(steps: seq<Step>, window: int, recs: seq<Record>, start: nat, e: nat)
  {
    && start < e < |recs|
    && steps != [] && steps[0](recs[start]) && CompleteBy(steps, recs, start, e)
    && (forall i :: start < i <= e ==> recs[i].timestamp - recs[start].timestamp <= window)
    && (forall i :: start < i < e ==> !CompleteBy(steps, recs, start, i))
  }

  lemma {:induction false} DecidedIs(steps: seq<Step>, window: int, recs: seq<Record>, start: nat, i: nat)
    requires start < i <= |recs|
    ensures
      var e := Decided(steps, window, recs, start, i);
      && (forall j :: i <= j < e ==> !Expired(window, recs, start, j) && !CompleteBy(steps, recs, start, j))
      && (e < |recs| ==> Expired(window, recs, start, e) || CompleteBy(steps, recs, start, e))
    decreases |recs| - i
  {
    if !(i == |recs| || Expired(window, recs, start, i) || CompleteBy(steps, recs, start, i)) {
      DecidedIs(steps, window, recs, start, i + 1);
    }
  }

  /**
   * Every emission ends a chain of matches of all steps within the window, completed at the earliest
   * record where any ordered selection from that start exists; chains of different emissions are disjoint
   * intervals of records.
   */
  lemma {:induction false} EmissionsComplete(steps: seq<Step>, window: int, recs: seq<Record>, i: nat) returns (starts: seq<nat>)
    requires |steps| >= 2
    ensures
      var es := Completions(steps, window, recs, i);
      && |starts| == |es|
      && (forall j :: 0 <= j < |es| ==> i <= starts[j] && Completes(steps, window, recs, starts[j], es[j]))
      && (forall j :: 0 < j < |es| ==> es[j - 1] < starts[j])
    decreases |recs| - i
  {
    hide CompleteBy, Decided, Completes, Expired;
    if i >= |recs| {
      starts := [];
    } else if !steps[0](recs[i]) {
      starts := EmissionsComplete(steps, window, recs, i + 1);
    } else {
      var e := Decided(steps, window, recs, i, i + 1);
      if e == |recs| {
        starts := [];
      } else if Expired(window, recs, i, e) {
        starts := EmissionsComplete(steps, window, recs, e);
      } else {
        var rest := EmissionsComplete(steps, window, recs, e + 1);
        starts := [i] + rest;
        DecidedCompletes(steps, window, recs, i);
      }
    }
  }

  lemma {:induction false} DecidedCompletes(steps: seq<Step>, window: int, recs: seq<Record>, start: nat)
    requires steps != [] && start < |recs| && steps[0](recs[start])
    ensures
      var e := Decided(steps, window, recs, start, start + 1);
      e < |recs| && !Expired(window, recs, start, e) ==> Completes(steps, window, recs, start, e)
  {
    hide CompleteBy;
    DecidedIs(steps, window, recs, start, start + 1);
    var e := Decided(steps, window, recs, start, start + 1);
    forall i | start < i < e
      ensures recs[i].timestamp - recs[start].timestamp <= window
    {
      assert !Expired(window, recs, start, i);
    }
  }

  /**
   * A pattern that could have completed was not missed: a chain whose start the stage commits to, inside
   * the window, is emitted at the record where it completes.
   */
  lemma {:induction false} CommittedChainEmitted(steps: seq<Step>, window: int, recs: seq<Record>, start: nat, e: nat)
    requires |steps| >= 2 && Completes(steps, window, recs, start, e)
    ensures Completions(steps, window, recs, start) == [e] + Completions(steps, window, recs, e + 1)
  {
    hide CompleteBy;
    DecidedIs(steps, window, recs, start, start + 1);
    assert forall i :: start < i <= e ==> !Expired(window, recs, start, i);
    assert Decided(steps, window, recs, start, start + 1) == e;
  }

  /** A start that is not completed in time is given up at the first record past the window, which may be the next start. */
  lemma {:induction false} LapsedStart(steps: seq<Step>, window: int, recs: seq<Record>, start: nat, e: nat)
    requires |steps| >= 2 && start < e <= |recs| && steps[0](recs[start])
    requires forall i :: start < i < e ==> recs[i].timestamp - recs[start].timestamp <= window && !CompleteBy(steps, recs, start, i)
    requires e < |recs| ==> recs[e].timestamp - recs[start].timestamp > window
    ensures Completions(steps, window, recs, start) == if e < |recs| then Completions(steps, window, recs, e) else []
  {
    hide CompleteBy;
    DecidedIs(steps, window, recs, start, start + 1);
    assert forall i :: start < i < e ==> !Expired(window, recs, start, i);
    assert e < |recs| ==> Expired(window, recs, start, e);
    assert Decided(steps, window, recs, start, start + 1) == e;
  }

  /** With one step only, the first match is swallowed: nothing is ever emitted. */
  method SingleStepNeverEmits(step: Step, withinMs: nat, records: seq<Record>) returns (emitted: bool)
    requires withinMs < U64
    ensures !emitted
  {
    var matcher := new SequenceMatcher([step], withinMs);
    var i := 0;
    emitted := false;
    while i < |records|
      invariant i <= |records| && matcher.Valid() && matcher.steps == [step]
      invariant matcher.currentStep == 0 && !emitted
    {
      var out := matcher.Process(records[i]);
      emitted := emitted || out.Some?;
      i := i + 1;
    }
  }
}
