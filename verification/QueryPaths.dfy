/**
 * The three ways a pipeline reads its records: by key through the primary index, by time range through
 * the stream's timestamp index, or by scanning the stream. When do the first two agree with the scan?
 */
module QueryPaths {
  import opened Wrappers
  import opened Bytes
  import opened Types
  import opened Filters

  // ---------- Pipelines ----------

  /** `Other` stands for every stage that only looks at the records it is given. */
  datatype Stage =
    | From(stream: string)
    | Get(key: string)
    | Where(expr: FilterExpr)
    | Other(apply: seq<Record> -> Result<seq<Record>, string>)

  function KeepStream(stream: string, rs: seq<Record>): seq<Record>
  {
    if rs == [] then [] else
    KeepStream(stream, rs[..|rs| - 1]) + if rs[|rs| - 1].stream == stream then [rs[|rs| - 1]] else []
  }

  function KeepKey(key: string, rs: seq<Record>): seq<Record>
  {
    if rs == [] then [] else
    KeepKey(key, rs[..|rs| - 1]) + if rs[|rs| - 1].key == key then [rs[|rs| - 1]] else []
  }

  function KeepWhere(env: Env, e: FilterExpr, rs: seq<Record>): seq<Record>
  {
    if rs == [] then [] else
    KeepWhere(env, e, rs[..|rs| - 1]) + if Evaluate(env, rs[|rs| - 1], e) then [rs[|rs| - 1]] else []
  }

  function ApplyStage(env: Env, st: Stage, rs: seq<Record>): Result<seq<Record>, string>
  {
    match st
    case From(stream) => Ok(KeepStream(stream, rs))
    case Get(key) => Ok(KeepKey(key, rs))
    case Where(expr) => Ok(KeepWhere(env, expr, rs))
    case Other(f) => f(rs)
  }

  function ApplyStages(env: Env, stages: seq<Stage>, rs: seq<Record>): Result<seq<Record>, string>
    decreases |stages|
  {
    if stages == [] then Ok(rs) else
    var r := ApplyStage(env, stages[0], rs);
    if r.Err? then r else ApplyStages(env, stages[1..], r.value)
  }

  // ---------- Choosing a path ----------

  function KeyOfFilter(e: FilterExpr): Option<string>
  {
    match e
    case Simple(field, op, value) => if field == "key" && op == Eq && value.String? then Some(value.s) else None
    case And(left, right) => if KeyOfFilter(left).Some? then KeyOfFilter(left) else KeyOfFilter(right)
    case Not(inner) => KeyOfFilter(inner)
    case Or(_, _) => None
  }

  function UniqueKey(stages: seq<Stage>): Option<string>
    decreases |stages|
  {
    if stages == [] then None
    else if stages[0].Get? then Some(stages[0].key)
    else if stages[0].Where? && KeyOfFilter(stages[0].expr).Some? then KeyOfFilter(stages[0].expr)
    else UniqueKey(stages[1..])
  }

  predicate IsKeyEquality(e: FilterExpr)
  {
    match e
    case Simple(field, op, _) => field == "key" && op == Eq
    case And(left, right) => IsKeyEquality(left) || IsKeyEquality(right)
    case _ => false
  }

  /** The stages the key path still applies. */
  predicate Remains(st: Stage)
  {
    match st
    case From(_) => false
    case Get(_) => false
    case Where(expr) => !IsKeyEquality(expr)
    case Other(_) => true
  }

  function Remaining(stages: seq<Stage>): seq<Stage>
    decreases |stages|
  {
    if stages == [] then [] else (if Remains(stages[0]) then [stages[0]] else []) + Remaining(stages[1..])
  }

  const I64_MIN: int := -I64_MAX - 1

  /** `n as i64` for a float: towards zero, saturating. */
  function ToI64(x: real): int
  {
    var whole := if x >= 0.0 then x.Floor else -((-x).Floor);
    if whole > I64_MAX then I64_MAX else if whole < I64_MIN then I64_MIN else whole
  }

  lemma ToI64Exact(x: real)
    ensures
      var n := ToI64(x);
      if x > I64_MAX as real then n == I64_MAX
      else if x < I64_MIN as real then n == I64_MIN
      else if x >= 0.0 then n as real <= x < n as real + 1.0
      else n as real - 1.0 < x <= n as real
  {
  }

  /** `extract_time_range_filter`. A conjunction takes the smallest range around both of its sides. */
  function TimeRange(env: Env, e: FilterExpr): Option<(int, int)>
  {
    match e
    case Simple(field, op, value) => if field == "timestamp" then BoundRange(env, op, value) else None
    case And(left, right) =>
      var l, r := TimeRange(env, left), TimeRange(env, right);
      if l.Some? && r.Some? then Some((Min(l.value.0, r.value.0), Max(l.value.1, r.value.1)))
      else if l.Some? then l else r
    case Or(_, _) => None
    case Not(_) => None
  }

  function BoundRange(env: Env, op: Op, value: DataValue): Option<(int, int)>
  {
    if op == Between then
      if !value.Array? || |value.items| != 2 then None else
      var lo, hi := ToF64(env, value.items[0]), ToF64(env, value.items[1]);
      if lo.Some? && hi.Some? then Some((ToI64(lo.value), ToI64(hi.value))) else None
    else
      var n := ToF64(env, value);
      if n.None? then None
      else if op == Gt then Some((ToI64(n.value) + 1, I64_MAX))
      else if op == GtEq then Some((ToI64(n.value), I64_MAX))
      else if op == Lt then Some((I64_MIN, ToI64(n.value) - 1))
      else if op == LtEq then Some((I64_MIN, ToI64(n.value)))
      else if op == Eq then Some((ToI64(n.value), ToI64(n.value)))
      else None
  }

  /** The range of the first filter stage, whatever comes before it. */
  function LeadingRange(env: Env, stages: seq<Stage>): Option<(int, int)>
    decreases |stages|
  {
    if stages == [] then None
    else if stages[0].Where? then TimeRange(env, stages[0].expr)
    else LeadingRange(env, stages[1..])
  }

  // ---------- The reads ----------

  /** What the storage engine offers the executor. */
  datatype Access = Access(
    streams: set<string>,
    get: (string, string) -> Option<Record>,
    live: string -> Result<seq<Record>, string>,
    range: (string, int, int) -> seq<Record>)

  /** `view` is keyed by compound key, and no two live records share a sequence id. */
  ghost predicate WellKeyed(view: map<string, Record>)
  {
    && (forall k :: k in view ==> view[k].Compound() == k)
    && (forall j, k :: j in view && k in view && view[j].seqId == view[k].seqId ==> j == k)
  }

  ghost predicate LiveIn(view: map<string, Record>, stream: string, r: Record)
  {
    exists k :: k in view && view[k] == r && r.stream == stream
  }

  predicate BySeq(rs: seq<Record>)
  {
    forall i, j :: 0 <= i < j < |rs| ==> rs[i].seqId < rs[j].seqId
  }

  predicate TimeBefore(a: Record, b: Record)
  {
    a.timestamp < b.timestamp || (a.timestamp == b.timestamp && a.seqId < b.seqId)
  }

  predicate ByTime(rs: seq<Record>)
  {
    forall i, j :: 0 <= i < j < |rs| ==> TimeBefore(rs[i], rs[j])
  }

  /** The engine serves `view`. */
  ghost predicate Provides(acc: Access, view: map<string, Record>)
  {
    && WellKeyed(view)
    && (forall s, k :: acc.get(s, k) == if CompoundKey(s, k) in view then Some(view[CompoundKey(s, k)]) else None)
    && (forall s :: acc.live(s).Ok? ==> BySeq(acc.live(s).value) && forall r :: r in acc.live(s).value <==> LiveIn(view, s, r))
    && (forall s, lo, hi :: ByTime(acc.range(s, lo, hi))
          && forall r :: r in acc.range(s, lo, hi) <==> LiveIn(view, s, r) && lo <= r.timestamp <= hi)
  }

  function ExecuteQuery(env: Env, acc: Access, stages: seq<Stage>): (r: Result<seq<Record>, string>)
    requires stages != [] && stages[0].From?
    ensures stages[0].stream !in acc.streams ==> r.Err?
  {
    var stream := stages[0].stream;
    if stream !in acc.streams then Err("stream does not exist") else
    var key, times := UniqueKey(stages), LeadingRange(env, stages);
    if key.Some? then
      var found := acc.get(stream, key.value);
      ApplyStages(env, Remaining(stages), if found.Some? then [found.value] else [])
    else if times.Some? then
      ApplyStages(env, stages, acc.range(stream, times.value.0, times.value.1))
    else ScanThenStages(env, acc, stages)
  }

  /** The path that takes no shortcut. */
  function ScanThenStages(env: Env, acc: Access, stages: seq<Stage>): Result<seq<Record>, string>
    requires stages != [] && stages[0].From?
  {
    var records := acc.live(stages[0].stream);
    if records.Err? then records else ApplyStages(env, stages, records.value)
  }

  // ---------- The key path ----------

  /** `get(k)`, or a filter that is exactly an equality on the key. */
  predicate SelectsKey(st: Stage, k: string)
  {
    st == Get(k) || st == Where(Simple("key", Eq, String(k)))
  }

  lemma {:induction false} KeepStreamAll(stream: string, rs: seq<Record>)
    requires forall r :: r in rs ==> r.stream == stream
    ensures KeepStream(stream, rs) == rs
  {
    if rs != [] {
      KeepStreamAll(stream, rs[..|rs| - 1]);
      assert rs == rs[..|rs| - 1] + [rs[|rs| - 1]];
    }
  }

  lemma {:induction false} KeepWhereIsKeepKey(env: Env, k: string, rs: seq<Record>)
    ensures KeepWhere(env, Simple("key", Eq, String(k)), rs) == KeepKey(k, rs)
  {
    if rs != [] {
      KeepWhereIsKeepKey(env, k, rs[..|rs| - 1]);
    }
  }

  /** At most one record of a live scan has a given key. */
  lemma {:induction false} KeepKeyUnique(key: string, rs: seq<Record>, r: Record)
    requires r.key == key && forall i, j :: 0 <= i < j < |rs| ==> rs[i] != rs[j]
    requires forall q :: q in rs && q.key == key ==> q == r
    ensures KeepKey(key, rs) == if r in rs then [r] else []
  {
    if rs != [] {
      var init, q := rs[..|rs| - 1], rs[|rs| - 1];
      assert rs == init + [q];
      KeepKeyUnique(key, init, r);
      if q.key == key {
        assert r !in init;
      }
    }
  }

  lemma {:induction false} KeepKeyNone(key: string, rs: seq<Record>)
    requires forall q :: q in rs ==> q.key != key
    ensures KeepKey(key, rs) == []
  {
    if rs != [] {
      KeepKeyNone(key, rs[..|rs| - 1]);
    }
  }

  lemma {:induction false} RemainingAll(stages: seq<Stage>)
    requires forall i :: 0 <= i < |stages| ==> Remains(stages[i])
    ensures Remaining(stages) == stages
    decreases |stages|
  {
    if stages != [] {
      RemainingAll(stages[1..]);
    }
  }

  // ---------- Which path is taken ----------

  /** Every equality on the key stands below an `or`. */
  predicate KeyBelowOr(e: FilterExpr)
  {
    match e
    case Simple(field, op, value) => !(field == "key" && op == Eq && value.String?)
    case And(left, right) => KeyBelowOr(left) && KeyBelowOr(right)
    case Or(_, _) => true
    case Not(inner) => KeyBelowOr(inner)
  }

  /** Every comparison of the timestamp stands below an `or` or a `not`. */
  predicate TimeBelowOr(e: FilterExpr)
  {
    match e
    case Simple(field, _, _) => field != "timestamp"
    case And(left, right) => TimeBelowOr(left) && TimeBelowOr(right)
    case Or(_, _) => true
    case Not(_) => true
  }

  predicate NamesNoKey(st: Stage)
  {
    !st.Get? && (st.Where? ==> KeyBelowOr(st.expr))
  }

  lemma {:induction false} KeyFound(e: FilterExpr)
    ensures KeyOfFilter(e).None? <==> KeyBelowOr(e)
  {
    match e
    case Simple(_, _, _) =>
    case And(left, right) =>
      KeyFound(left);
      KeyFound(right);
    case Or(_, _) =>
    case Not(inner) =>
      KeyFound(inner);
  }

  lemma {:induction false} TimeNotFound(env: Env, e: FilterExpr)
    requires TimeBelowOr(e)
    ensures TimeRange(env, e).None?
  {
    if e.And? {
      TimeNotFound(env, e.left);
      TimeNotFound(env, e.right);
    }
  }

  ghost predicate WithoutNot(e: FilterExpr)
  {
    match e
    case Simple(_, _, _) => true
    case And(left, right) => WithoutNot(left) && WithoutNot(right)
    case Or(left, right) => WithoutNot(left) && WithoutNot(right)
    case Not(_) => false
  }

  /** The key taken from a filter without `not` is the key of every record the filter accepts. */
  lemma {:induction false} KeyFilterSelects(env: Env, e: FilterExpr, r: Record)
    requires WithoutNot(e) && KeyOfFilter(e).Some? && Evaluate(env, r, e)
    ensures r.key == KeyOfFilter(e).value && IsKeyEquality(e)
  {
    match e
    case Simple(_, _, _) =>
    case And(left, right) =>
      if KeyOfFilter(left).Some? {
        KeyFilterSelects(env, left, r);
      } else {
        KeyFilterSelects(env, right, r);
      }
  }

  /** Stages that name no key before the one that does are passed over. */
  lemma {:induction false} UniqueKeyPasses(pre: seq<Stage>, rest: seq<Stage>)
    requires forall i :: 0 <= i < |pre| ==> NamesNoKey(pre[i])
    ensures UniqueKey(pre + rest) == UniqueKey(rest)
    decreases |pre|
  {
    if pre == [] {
      assert pre + rest == rest;
    } else {
      if pre[0].Where? {
        KeyFound(pre[0].expr);
      }
      UniqueKeyPasses(pre[1..], rest);
      assert (pre + rest)[1..] == pre[1..] + rest;
    }
  }

  function FirstFilter(stages: seq<Stage>): Option<FilterExpr>
    decreases |stages|
  {
    if stages == [] then None else if stages[0].Where? then Some(stages[0].expr) else FirstFilter(stages[1..])
  }

  lemma {:induction false} LeadingRangeNone(env: Env, stages: seq<Stage>)
    requires FirstFilter(stages).Some? ==> TimeBelowOr(FirstFilter(stages).value)
    ensures LeadingRange(env, stages).None?
    decreases |stages|
  {
    if stages != [] {
      if stages[0].Where? {
        TimeNotFound(env, stages[0].expr);
      } else {
        LeadingRangeNone(env, stages[1..]);
      }
    }
  }

  /**
   * A pipeline without `get`, whose filters have key equalities only below an `or`, and whose first filter has
   * timestamp comparisons only below an `or` or a `not`, takes no shortcut.
   */
  lemma {:induction false} ScanPathTaken(env: Env, acc: Access, stream: string, stages: seq<Stage>)
    requires stream in acc.streams && forall i :: 0 <= i < |stages| ==> NamesNoKey(stages[i])
    requires FirstFilter(stages).Some? ==> TimeBelowOr(FirstFilter(stages).value)
    ensures ExecuteQuery(env, acc, [From(stream)] + stages) == ScanThenStages(env, acc, [From(stream)] + stages)
  {
    var all := [From(stream)] + stages;
    assert all[1..] == stages;
    assert stages + [] == stages;
    UniqueKeyPasses(stages, []);
    LeadingRangeNone(env, stages);
  }

  /** An `or` is scanned, whatever it compares. */
  lemma {:induction false} OrIsScanned(env: Env, acc: Access, stream: string, left: FilterExpr, right: FilterExpr, rest: seq<Stage>)
    requires stream in acc.streams && forall i :: 0 <= i < |rest| ==> NamesNoKey(rest[i])
    ensures
      var stages := [From(stream), Where(Or(left, right))] + rest;
      ExecuteQuery(env, acc, stages) == ScanThenStages(env, acc, stages)
  {
    var stages := [Where(Or(left, right))] + rest;
    assert [From(stream), Where(Or(left, right))] + rest == [From(stream)] + stages;
    ScanPathTaken(env, acc, stream, stages);
  }

  /** The record under the compound key really is of this stream and key; false only for aliases through ':'. */
  ghost predicate Unaliased(view: map<string, Record>, stream: string, key: string)
  {
    var k := CompoundKey(stream, key);
    k in view ==> view[k].stream == stream && view[k].key == key
  }

  /** What the scan finds for a key. */
  lemma {:induction false} ScanFinds(acc: Access, view: map<string, Record>, stream: string, key: string)
    requires Provides(acc, view) && acc.live(stream).Ok?
    ensures
      var k := CompoundKey(stream, key);
      KeepKey(key, acc.live(stream).value) ==
        if k in view && view[k].stream == stream && view[k].key == key then [view[k]] else []
  {
    var rs, k := acc.live(stream).value, CompoundKey(stream, key);
    forall q | q in rs && q.key == key
      ensures k in view && q == view[k] && view[k].stream == stream
    {
      assert LiveIn(view, stream, q);
    }
    if k in view && view[k].stream == stream && view[k].key == key {
      assert LiveIn(view, stream, view[k]);
      KeepKeyUnique(key, rs, view[k]);
    } else {
      KeepKeyNone(key, rs);
    }
  }

  /**
   * `from(s)`, then a key, then stages that select no stream and no key: the point lookup gives what the
   * scan gives, as long as the compound key is not another stream's alias.
   */
  lemma {:induction false} KeyPathAgrees(env: Env, acc: Access, view: map<string, Record>, stream: string, select: Stage, key: string, rest: seq<Stage>)
    requires Provides(acc, view) && stream in acc.streams && acc.live(stream).Ok?
    requires SelectsKey(select, key) && forall i :: 0 <= i < |rest| ==> Remains(rest[i])
    requires Unaliased(view, stream, key)
    ensures
      var stages := [From(stream), select] + rest;
      ExecuteQuery(env, acc, stages) == ScanThenStages(env, acc, stages)
  {
    hide Provides;
    assert [From(stream)] + [] + [select] + rest == [From(stream), select] + rest && [] + rest == rest;
    KeyPathReads(env, acc, view, stream, [], select, key, rest);
    KeyScanReads(env, acc, view, stream, select, key, rest);
  }

  /** The key is looked up first, whatever stands before it; the stages that select nothing are then applied. */
  lemma {:induction false} KeyPathReads(env: Env, acc: Access, view: map<string, Record>, stream: string, pre: seq<Stage>, select: Stage, key: string, rest: seq<Stage>)
    requires Provides(acc, view) && stream in acc.streams && SelectsKey(select, key)
    requires forall i :: 0 <= i < |pre| ==> NamesNoKey(pre[i]) && Remains(pre[i])
    requires forall i :: 0 <= i < |rest| ==> Remains(rest[i])
    ensures
      var k := CompoundKey(stream, key);
      ExecuteQuery(env, acc, [From(stream)] + pre + [select] + rest) == ApplyStages(env, pre + rest, if k in view then [view[k]] else [])
  {
    var stages := [From(stream)] + pre + [select] + rest;
    KeyChosen(stream, pre, select, key, rest);
    assert acc.get(stream, key) == if CompoundKey(stream, key) in view then Some(view[CompoundKey(stream, key)]) else None;
    hide Provides, UniqueKey, Remaining, SelectsKey, NamesNoKey, Remains;
    assert stages[0] == From(stream);
  }

  lemma {:induction false} KeyChosen(stream: string, pre: seq<Stage>, select: Stage, key: string, rest: seq<Stage>)
    requires SelectsKey(select, key)
    requires forall i :: 0 <= i < |pre| ==> NamesNoKey(pre[i]) && Remains(pre[i])
    requires forall i :: 0 <= i < |rest| ==> Remains(rest[i])
    ensures
      var stages := [From(stream)] + pre + [select] + rest;
      UniqueKey(stages) == Some(key) && Remaining(stages) == pre + rest
  {
    var stages := [From(stream)] + pre + [select] + rest;
    var tail := [select] + rest;
    assert stages[1..] == pre + tail && tail[1..] == rest;
    UniqueKeyPasses(pre, tail);
    RemainingAll(pre);
    RemainingAll(rest);
    RemainingConcat(pre, tail);
    assert Remaining(tail) == rest;
    hide NamesNoKey;
    assert UniqueKey(stages) == UniqueKey(stages[1..]) && UniqueKey(tail) == Some(key);
    assert Remaining(stages) == Remaining(stages[1..]);
  }

  lemma {:induction false} RemainingConcat(a: seq<Stage>, b: seq<Stage>)
    ensures Remaining(a + b) == Remaining(a) + Remaining(b)
    decreases |a|
  {
    hide Remains;
    if a == [] {
      assert a + b == b;
    } else {
      RemainingConcat(a[1..], b);
      var head := if Remains(a[0]) then [a[0]] else [];
      assert Remaining(a + b) == head + Remaining(a[1..] + b) by {
        assert (a + b)[1..] == a[1..] + b && (a + b)[0] == a[0];
      }
      assert head + (Remaining(a[1..]) + Remaining(b)) == (head + Remaining(a[1..])) + Remaining(b);
    }
  }

  lemma {:induction false} KeyScanReads(env: Env, acc: Access, view: map<string, Record>, stream: string, select: Stage, key: string, rest: seq<Stage>)
    requires Provides(acc, view) && acc.live(stream).Ok? && SelectsKey(select, key)
    ensures
      var k := CompoundKey(stream, key);
      ScanThenStages(env, acc, [From(stream), select] + rest) ==
        ApplyStages(env, rest, if k in view && view[k].stream == stream && view[k].key == key then [view[k]] else [])
  {
    var stages := [From(stream), select] + rest;
    var rs := acc.live(stream).value;
    assert stages[1..] == [select] + rest && stages[1..][1..] == rest;
    assert stages[0] == From(stream) && stages[1..][0] == select;
    KeepStreamAll(stream, rs);
    KeepWhereIsKeepKey(env, key, rs);
    ScanFinds(acc, view, stream, key);
    hide Provides, Evaluate;
    assert ApplyStage(env, From(stream), rs) == Ok(rs);
    assert ApplyStages(env, stages, rs) == ApplyStages(env, [select] + rest, rs);
    assert ApplyStage(env, select, rs) == Ok(KeepKey(key, rs));
  }

  /** Without further stages the two agree exactly when there is no alias. */
  lemma {:induction false} KeyPathExact(env: Env, acc: Access, view: map<string, Record>, stream: string, select: Stage, key: string)
    requires Provides(acc, view) && stream in acc.streams && acc.live(stream).Ok? && SelectsKey(select, key)
    ensures
      var stages := [From(stream), select];
      ExecuteQuery(env, acc, stages) == ScanThenStages(env, acc, stages) <==> Unaliased(view, stream, key)
  {
    hide Provides;
    assert [From(stream), select] + [] == [From(stream), select];
    assert [From(stream)] + [] + [select] + [] == [From(stream), select];
    KeyPathReads(env, acc, view, stream, [], select, key, []);
    KeyScanReads(env, acc, view, stream, select, key, []);
  }

  /**
   * Any filter that a key is taken from: the key path agrees with the scan if and only if every live record of
   * the stream that the filter accepts has that key and, where the filter is dropped, the record found passes it.
   */
  lemma {:induction false} KeyFilterExact(env: Env, acc: Access, view: map<string, Record>, stream: string, e: FilterExpr)
    requires Provides(acc, view) && stream in acc.streams && acc.live(stream).Ok?
    requires KeyOfFilter(e).Some? && Unaliased(view, stream, KeyOfFilter(e).value)
    ensures
      var key := KeyOfFilter(e).value;
      var k, stages := CompoundKey(stream, key), [From(stream), Where(e)];
      ExecuteQuery(env, acc, stages) == ScanThenStages(env, acc, stages)
      <==>
        && (forall r :: LiveIn(view, stream, r) && Evaluate(env, r, e) ==> r.key == key)
        && (IsKeyEquality(e) && k in view ==> Evaluate(env, view[k], e))
  {
    var key := KeyOfFilter(e).value;
    var k, found := CompoundKey(stream, key), FoundFor(view, stream, key);
    KeyFilterReads(env, acc, view, stream, e);
    KeepWhereOrder(env, e, acc.live(stream).value);
    KeyFilterMembers(env, acc, view, stream, e, key);
    KeepOne(env, e, found);
    var fast, slow := if IsKeyEquality(e) then found else KeepWhere(env, e, found), KeepWhere(env, e, acc.live(stream).value);
    assert BySeq(slow) by {
      hide Unaliased, Evaluate, KeyOfFilter, IsKeyEquality, LiveIn, CompoundKey;
    }
    hide Provides, Unaliased, Evaluate, KeyOfFilter, IsKeyEquality, LiveIn, CompoundKey, KeepWhere, BySeq;
    SameMembers(fast, slow);
    assert k in view ==> view[k] in found;
    if k in view {
      assert found == [view[k]];
    }
  }

  lemma {:induction false} SameMembers(a: seq<Record>, b: seq<Record>)
    requires BySeq(a) && BySeq(b)
    ensures a == b <==> forall r :: r in a <==> r in b
  {
    if forall r :: r in a <==> r in b {
      SameSeq(a, b);
    }
  }

  /** What the scan keeps, and what is found: the live record of that key. */
  lemma {:induction false} KeyFilterMembers(env: Env, acc: Access, view: map<string, Record>, stream: string, e: FilterExpr, key: string)
    requires Provides(acc, view) && acc.live(stream).Ok? && Unaliased(view, stream, key)
    ensures forall r :: r in KeepWhere(env, e, acc.live(stream).value) <==> LiveIn(view, stream, r) && Evaluate(env, r, e)
    ensures forall r :: r in FoundFor(view, stream, key) <==> LiveIn(view, stream, r) && r.key == key
  {
    KeepWhereMember(env, e, acc.live(stream).value);
    hide Evaluate;
    var k := CompoundKey(stream, key);
    assert k in view ==> LiveIn(view, stream, view[k]);
  }

  function FoundFor(view: map<string, Record>, stream: string, key: string): (rs: seq<Record>)
    ensures |rs| <= 1 && BySeq(rs)
  {
    var k := CompoundKey(stream, key);
    if k in view then [view[k]] else []
  }

  lemma {:induction false} KeyFilterReads(env: Env, acc: Access, view: map<string, Record>, stream: string, e: FilterExpr)
    requires Provides(acc, view) && stream in acc.streams && acc.live(stream).Ok? && KeyOfFilter(e).Some?
    ensures
      var stages, found := [From(stream), Where(e)], FoundFor(view, stream, KeyOfFilter(e).value);
      && ExecuteQuery(env, acc, stages) == Ok(if IsKeyEquality(e) then found else KeepWhere(env, e, found))
      && ScanThenStages(env, acc, stages) == Ok(KeepWhere(env, e, acc.live(stream).value))
  {
    var stages, key := [From(stream), Where(e)], KeyOfFilter(e).value;
    var found, live := FoundFor(view, stream, key), acc.live(stream).value;
    assert stages[1..] == [Where(e)] && [Where(e)][1..] == [];
    assert UniqueKey([Where(e)]) == Some(key) && UniqueKey(stages) == Some(key);
    assert Remaining([]) == [] && Remaining([Where(e)]) == Remaining(stages) == if IsKeyEquality(e) then [] else [Where(e)];
    KeepStreamAll(stream, live);
    assert acc.get(stream, key) == if CompoundKey(stream, key) in view then Some(view[CompoundKey(stream, key)]) else None;
    hide Provides, Evaluate, KeyOfFilter, IsKeyEquality;
    assert forall rs :: ApplyStages(env, [Where(e)], rs) == Ok(KeepWhere(env, e, rs));
    assert ApplyStages(env, stages, live) == ApplyStages(env, [Where(e)], live);
  }

  /**
   * A key equality inside a conjunction: the key path drops the whole filter, so it agrees with the scan
   * exactly when there is no such record or it satisfies the other conjunct as well.
   */
  lemma {:induction false} ConjoinedKeyExact(env: Env, acc: Access, view: map<string, Record>, stream: string, key: string, other: FilterExpr)
    requires Provides(acc, view) && stream in acc.streams && acc.live(stream).Ok? && Unaliased(view, stream, key)
    ensures
      var k := CompoundKey(stream, key);
      var stages := [From(stream), Where(And(Simple("key", Eq, String(key)), other))];
      ExecuteQuery(env, acc, stages) == ScanThenStages(env, acc, stages) <==> k !in view || Evaluate(env, view[k], other)
  {
    var k, first := CompoundKey(stream, key), Simple("key", Eq, String(key));
    var e := And(first, other);
    assert KeyOfFilter(first) == Some(key) && IsKeyEquality(first);
    assert KeyOfFilter(e) == Some(key) && IsKeyEquality(e);
    assert forall r :: Evaluate(env, r, e) <==> r.key == key && Evaluate(env, r, other);
    KeyFilterExact(env, acc, view, stream, e);
  }

  /** The negation of a key equality looks that key up, and agrees with the scan if and only if the stream has no other. */
  lemma {:induction false} NegatedKeyExact(env: Env, acc: Access, view: map<string, Record>, stream: string, key: string)
    requires Provides(acc, view) && stream in acc.streams && acc.live(stream).Ok? && Unaliased(view, stream, key)
    ensures
      var stages := [From(stream), Where(Not(Simple("key", Eq, String(key))))];
      ExecuteQuery(env, acc, stages) == ScanThenStages(env, acc, stages) <==> forall r :: LiveIn(view, stream, r) ==> r.key == key
  {
    var inner := Simple("key", Eq, String(key));
    var e := Not(inner);
    assert KeyOfFilter(inner) == Some(key);
    assert KeyOfFilter(e) == Some(key) && !IsKeyEquality(e);
    assert forall r :: Evaluate(env, r, inner) <==> r.key == key;
    assert forall r :: Evaluate(env, r, e) <==> r.key != key;
    KeyFilterExact(env, acc, view, stream, e);
  }

  /** `get`, or a filter that compares the key with anything for equality. */
  predicate AsksKey(st: Stage)
  {
    st.Get? || (st.Where? && st.expr.Simple? && st.expr.field == "key" && st.expr.op == Eq)
  }

  /** What such a stage keeps of a record that has been found. */
  lemma {:induction false} AskedOfFound(env: Env, st: Stage, r: Record)
    requires AsksKey(st)
    ensures ApplyStages(env, [st], []) == Ok([])
    ensures ApplyStages(env, [st], [r]) == Ok(if SelectsKey(st, r.key) then [r] else [])
  {
    LastStage(env, st, []);
    LastStage(env, st, [r]);
    if st.Where? {
      KeyComparison(env, st.expr, r);
      KeepOne(env, st.expr, [r]);
      KeepOne(env, st.expr, []);
      hide Evaluate, KeepWhere;
    } else {
      KeepKeyOne(st.key, [r]);
      KeepKeyOne(st.key, []);
      hide KeepKey;
    }
  }

  lemma {:induction false} LastStage(env: Env, st: Stage, rs: seq<Record>)
    requires !st.Other?
    ensures ApplyStages(env, [st], rs) == ApplyStage(env, st, rs)
  {
    hide KeepWhere, KeepKey, KeepStream;
    assert [st][1..] == [];
  }

  lemma {:induction false} KeepKeyOne(key: string, rs: seq<Record>)
    requires |rs| <= 1
    ensures KeepKey(key, rs) == if rs != [] && rs[0].key == key then rs else []
  {
  }

  lemma {:induction false} KeyComparison(env: Env, e: FilterExpr, r: Record)
    requires e.Simple? && e.field == "key" && e.op == Eq
    ensures Evaluate(env, r, e) <==> e.value == String(r.key)
  {
    OrderOperators(env, String(r.key), Eq, e.value);
    hide CompareValues;
    assert RecordField(env, r, "key") == Some(String(r.key));
  }

  /**
   * Once a key has been looked up, no other is asked for: a later `get` or key equality is passed over. This agrees
   * with the scan exactly when it names the same key or there is no record of the first.
   */
  lemma {:induction false} SecondKeyIgnored(env: Env, acc: Access, view: map<string, Record>, stream: string, first: Stage, second: Stage, key: string)
    requires Provides(acc, view) && stream in acc.streams && acc.live(stream).Ok? && Unaliased(view, stream, key)
    requires SelectsKey(first, key) && AsksKey(second)
    ensures
      var stages := [From(stream), first, second];
      && ExecuteQuery(env, acc, stages) == Ok(FoundFor(view, stream, key))
      && (ExecuteQuery(env, acc, stages) == ScanThenStages(env, acc, stages) <==> SelectsKey(second, key) || CompoundKey(stream, key) !in view)
  {
    var stages, found := [From(stream), first, second], FoundFor(view, stream, key);
    assert stages[1..] == [first, second] && [first, second][1..] == [second] && [second][1..] == [];
    assert UniqueKey([first, second]) == Some(key) && UniqueKey(stages) == Some(key);
    assert Remaining([]) == [] && Remaining([second]) == [] && Remaining([first, second]) == [] && Remaining(stages) == [];
    assert acc.get(stream, key) == if CompoundKey(stream, key) in view then Some(view[CompoundKey(stream, key)]) else None;
    KeyScanReads(env, acc, view, stream, first, key, [second]);
    assert [From(stream), first] + [second] == stages;
    hide Provides, Evaluate, ScanThenStages, AsksKey, SelectsKey;
    if found != [] {
      AskedOfFound(env, second, found[0]);
    } else {
      AskedOfFound(env, second, Record(0, 0, 0, 0, "", "", Null));
    }
  }

  lemma {:induction false} KeepOne(env: Env, e: FilterExpr, rs: seq<Record>)
    requires |rs| <= 1
    ensures KeepWhere(env, e, rs) == if rs != [] && Evaluate(env, rs[0], e) then rs else []
  {
    hide Evaluate;
  }

  // ---------- The time path ----------

  const EXACT: int := 0x20_0000_0000_0000

  /** Rounding to `f64`: monotone, and exact up to 2^53. */
  ghost predicate Rounds(env: Env)
  {
    && (forall i, j :: i <= j ==> env.round(i) <= env.round(j))
    && (forall i :: -EXACT <= i <= EXACT ==> env.round(i) == i as real)
  }

  predicate Small(x: real)
  {
    -(EXACT as real) < x < EXACT as real
  }

  /**
   * The bounds that lose a match: the range is closed after rounding towards zero, so an open bound that is
   * not an integer loses the integer next to it on the side of zero.
   */
  predicate LosesOne(op: Op, x: real)
  {
    x != x.Floor as real && ((op == Lt && x > 0.0) || (op == Gt && x < 0.0))
  }

  predicate SmallBound(env: Env, v: DataValue)
  {
    ToF64(env, v).Some? ==> Small(ToF64(env, v).value)
  }

  /** Every bound on `timestamp` that the range is taken from is below 2^53 and loses nothing. */
  predicate CoveringBounds(env: Env, e: FilterExpr)
  {
    match e
    case Simple(field, op, value) =>
      field == "timestamp" ==>
        if op == Between then value.Array? && |value.items| == 2 ==> SmallBound(env, value.items[0]) && SmallBound(env, value.items[1])
        else SmallBound(env, value) && (ToF64(env, value).Some? ==> !LosesOne(op, ToF64(env, value).value))
    case And(left, right) => CoveringBounds(env, left) && CoveringBounds(env, right)
    case _ => true
  }

  /** Comparing a rounded integer with a small number is comparing the integer itself. */
  lemma {:induction false} RoundedCompare(env: Env, t: int, x: real)
    requires Rounds(env) && Small(x)
    ensures env.round(t) < x <==> t as real < x
    ensures env.round(t) > x <==> t as real > x
  {
    assert env.round(EXACT) == EXACT as real && env.round(-EXACT) == -EXACT as real;
    if t > EXACT {
      assert env.round(EXACT) <= env.round(t);
    } else if t < -EXACT {
      assert env.round(t) <= env.round(-EXACT);
    } else {
      assert env.round(t) == t as real;
    }
  }

  /** The fields a filter can name: an equality on one selects the records that have that key, stream, id, time or value. */
  lemma {:induction false} FieldEqualities(env: Env, r: Record, text: string, n: nat, v: DataValue, other: string)
    requires Rounds(env) && n < EXACT
    requires other !in {"key", "timestamp", "sequence_id", "stream", "value"}
    ensures Evaluate(env, r, Simple("key", Eq, String(text))) <==> r.key == text
    ensures Evaluate(env, r, Simple("stream", Eq, String(text))) <==> r.stream == text
    ensures Evaluate(env, r, Simple("sequence_id", Eq, UInt(n))) <==> r.seqId == n
    ensures Evaluate(env, r, Simple("timestamp", Eq, UInt(n))) <==> r.timestamp == n
    ensures Evaluate(env, r, Simple("value", Eq, v)) <==> Equal(env, r.value, v)
    ensures Evaluate(env, r, Simple(other, Eq, v)) <==> env.extract(r.value, other).Some? && Equal(env, env.extract(r.value, other).value, v)
  {
    RoundedCompare(env, r.seqId, n as real);
    RoundedCompare(env, r.timestamp, n as real);
    assert env.round(n) == n as real;
    OrderOperators(env, r.value, Eq, v);
    OrderOperators(env, UInt(r.seqId), Eq, UInt(n));
    OrderOperators(env, Int(r.timestamp), Eq, UInt(n));
    OrderOperators(env, String(r.key), Eq, String(text));
    OrderOperators(env, String(r.stream), Eq, String(text));
    if env.extract(r.value, other).Some? {
      OrderOperators(env, env.extract(r.value, other).value, Eq, v);
    }
    hide CompareValues;
    assert RecordField(env, r, "key") == Some(String(r.key)) && RecordField(env, r, "stream") == Some(String(r.stream));
  }

  /** One comparison: the only match outside the range is the bound rounded towards zero, if the bound loses it. */
  lemma {:induction false} BoundMisses(env: Env, op: Op, value: DataValue, t: int)
    requires Rounds(env) && op in {Eq, Gt, GtEq, Lt, LtEq} && ToF64(env, value).Some? && Small(ToF64(env, value).value)
    requires I64_MIN <= t <= I64_MAX
    ensures
      var x, range := ToF64(env, value).value, BoundRange(env, op, value);
      && range.Some?
      && (CompareValues(env, Int(t), op, value) && !(range.value.0 <= t <= range.value.1) <==> LosesOne(op, x) && t == ToI64(x))
  {
    var x := ToF64(env, value).value;
    var n := ToI64(x);
    RoundedCompare(env, t, x);
  }

  /**
   * One comparison with a bound below 2^53: the extracted range covers every timestamp the comparison accepts
   * if and only if the bound is not a fraction above zero under `<` or below zero under `>`.
   */
  lemma {:induction false} BoundExact(env: Env, op: Op, value: DataValue)
    requires Rounds(env) && op in {Eq, Gt, GtEq, Lt, LtEq} && ToF64(env, value).Some? && Small(ToF64(env, value).value)
    ensures BoundRange(env, op, value).Some?
    ensures
      var range := BoundRange(env, op, value).value;
      (forall t :: I64_MIN <= t <= I64_MAX && CompareValues(env, Int(t), op, value) ==> range.0 <= t <= range.1)
      <==> !LosesOne(op, ToF64(env, value).value)
  {
    hide CompareValues, BoundRange, LosesOne;
    var x := ToF64(env, value).value;
    BoundMisses(env, op, value, ToI64(x));
    forall t | I64_MIN <= t <= I64_MAX
      ensures
        var range := BoundRange(env, op, value).value;
        CompareValues(env, Int(t), op, value) && !(range.0 <= t <= range.1) ==> LosesOne(op, x)
    {
      BoundMisses(env, op, value, t);
    }
  }

  /** With such bounds the range covers every record the filter accepts. */
  lemma {:induction false} RangeCovers(env: Env, e: FilterExpr, r: Record)
    requires Rounds(env) && CoveringBounds(env, e) && I64_MIN <= r.timestamp <= I64_MAX
    requires Evaluate(env, r, e) && TimeRange(env, e).Some?
    ensures TimeRange(env, e).value.0 <= r.timestamp <= TimeRange(env, e).value.1
  {
    match e
    case Simple(_, op, value) =>
      assert BoundRange(env, op, value).value.0 <= r.timestamp <= BoundRange(env, op, value).value.1 by {
        if op == Between {
          var lo, hi := ToF64(env, value.items[0]).value, ToF64(env, value.items[1]).value;
          RoundedCompare(env, r.timestamp, lo);
          RoundedCompare(env, r.timestamp, hi);
        } else {
          BoundMisses(env, op, value, r.timestamp);
        }
      }
    case And(left, right) =>
      if TimeRange(env, left).Some? {
        RangeCovers(env, left, r);
      }
      if TimeRange(env, right).Some? {
        RangeCovers(env, right, r);
      }
  }

  lemma {:induction false} KeepWhereMember(env: Env, e: FilterExpr, rs: seq<Record>)
    ensures forall r :: r in KeepWhere(env, e, rs) <==> r in rs && Evaluate(env, r, e)
  {
    hide Evaluate;
    if rs != [] {
      KeepWhereMember(env, e, rs[..|rs| - 1]);
      assert rs == rs[..|rs| - 1] + [rs[|rs| - 1]];
    }
  }

  lemma {:induction false} PushOrdered(kept: seq<Record>, r: Record)
    ensures ByTime(kept) && (forall q :: q in kept ==> TimeBefore(q, r)) ==> ByTime(kept + [r])
    ensures BySeq(kept) && (forall q :: q in kept ==> q.seqId < r.seqId) ==> BySeq(kept + [r])
  {
  }

  lemma {:induction false} InitOrdered(init: seq<Record>, last: Record)
    ensures ByTime(init + [last]) ==> ByTime(init) && forall q :: q in init ==> TimeBefore(q, last)
    ensures BySeq(init + [last]) ==> BySeq(init) && forall q :: q in init ==> q.seqId < last.seqId
  {
    var rs := init + [last];
    assert rs[|init|] == last && forall i :: 0 <= i < |init| ==> rs[i] == init[i];
  }

  lemma {:induction false} KeepWhereOrder(env: Env, e: FilterExpr, rs: seq<Record>)
    ensures ByTime(rs) ==> ByTime(KeepWhere(env, e, rs))
    ensures BySeq(rs) ==> BySeq(KeepWhere(env, e, rs))
  {
    hide Evaluate, ByTime, BySeq;
    if rs == [] {
      NothingRead();
    } else {
      var init, last := rs[..|rs| - 1], rs[|rs| - 1];
      assert rs == init + [last];
      InitOrdered(init, last);
      KeepWhereOrder(env, e, init);
      KeepWhereMember(env, e, init);
      PushOrdered(KeepWhere(env, e, init), last);
      assert KeepWhere(env, e, init) + [] == KeepWhere(env, e, init);
    }
  }

  lemma {:induction false} NothingRead()
    ensures ByTime([]) && BySeq([])
  {
  }

  lemma {:induction false} SameLast(a: seq<Record>, b: seq<Record>)
    requires a != [] && b != [] && BySeq(a) && BySeq(b) && forall r :: r in a <==> r in b
    ensures a[|a| - 1] == b[|b| - 1]
  {
    var x, y := a[|a| - 1], b[|b| - 1];
    assert x in b && y in a;
    var i :| 0 <= i < |b| && b[i] == x;
    var j :| 0 <= j < |a| && a[j] == y;
  }

  lemma {:induction false} BothEmpty(a: seq<Record>, b: seq<Record>)
    requires forall r :: r in a ==> r in b
    ensures a != [] ==> b != []
  {
    if a != [] {
      assert a[0] in b;
    }
  }

  lemma {:induction false} WithoutLast(a: seq<Record>, r: Record)
    requires a != [] && BySeq(a)
    ensures r in a[..|a| - 1] <==> r in a && r != a[|a| - 1]
    ensures BySeq(a[..|a| - 1])
  {
    var init := a[..|a| - 1];
    assert a == init + [a[|a| - 1]];
    if i :| 0 <= i < |init| && init[i] == r {
      assert a[i] == r;
    }
  }

  /** Two strictly ordered sequences with the same records are equal. */
  lemma {:induction false} SameSeq(a: seq<Record>, b: seq<Record>)
    requires BySeq(a) && BySeq(b) && forall r :: r in a <==> r in b
    ensures a == b
  {
    BothEmpty(a, b);
    BothEmpty(b, a);
    if a != [] {
      var a0, b0 := a[..|a| - 1], b[..|b| - 1];
      SameLast(a, b);
      WithoutLast(a, a[0]);
      WithoutLast(b, b[0]);
      hide BySeq;
      assert a == a0 + [a[|a| - 1]] && b == b0 + [b[|b| - 1]];
      forall r
        ensures r in a0 <==> r in b0
      {
        WithoutLast(a, r);
        WithoutLast(b, r);
      }
      SameSeq(a0, b0);
    }
  }

  predicate DistinctSeqs(rs: seq<Record>)
  {
    forall i, j :: 0 <= i < j < |rs| ==> rs[i].seqId != rs[j].seqId
  }

  /** Timestamps do not decrease with sequence ids. */
  predicate InStep(rs: seq<Record>)
  {
    forall i, j :: 0 <= i < |rs| && 0 <= j < |rs| && rs[i].seqId < rs[j].seqId ==> rs[i].timestamp <= rs[j].timestamp
  }

  /** What the two paths hand to the stages after the time filter. */
  lemma {:induction false} TimeReads(env: Env, acc: Access, view: map<string, Record>, stream: string, e: FilterExpr)
    requires Provides(acc, view) && acc.live(stream).Ok? && Rounds(env) && CoveringBounds(env, e)
    requires forall k :: k in view ==> I64_MIN <= view[k].timestamp <= I64_MAX
    requires TimeRange(env, e).Some?
    ensures
      var t := TimeRange(env, e).value;
      var fast, slow := KeepWhere(env, e, acc.range(stream, t.0, t.1)), KeepWhere(env, e, acc.live(stream).value);
      && (forall r :: r in fast <==> r in slow)
      && ByTime(fast) && BySeq(slow)
      && (InStep(slow) ==> fast == slow)
  {
    hide Evaluate, TimeRange, CoveringBounds, Rounds;
    var t := TimeRange(env, e).value;
    var ranged, live := acc.range(stream, t.0, t.1), acc.live(stream).value;
    var fast, slow := KeepWhere(env, e, ranged), KeepWhere(env, e, live);
    KeepWhereMember(env, e, ranged);
    KeepWhereMember(env, e, live);
    KeepWhereOrder(env, e, ranged);
    KeepWhereOrder(env, e, live);
    forall r
      ensures r in fast <==> r in slow
    {
      assert r in acc.live(stream).value <==> LiveIn(view, stream, r);
      assert r in acc.range(stream, t.0, t.1) <==> LiveIn(view, stream, r) && t.0 <= r.timestamp <= t.1;
      if r in slow {
        RangeCovers(env, e, r);
      }
    }
    LiveDistinct(acc, view, stream, t.0, t.1);
    hide Provides;
    SubOrder(env, e, ranged);
    if InStep(slow) {
      InStepEqual(fast, slow);
    }
  }

  lemma {:induction false} InStepEqual(fast: seq<Record>, slow: seq<Record>)
    requires ByTime(fast) && DistinctSeqs(fast) && BySeq(slow) && InStep(slow) && forall r :: r in fast <==> r in slow
    ensures fast == slow
  {
    assert InStep(fast) by {
      forall i, j | 0 <= i < |fast| && 0 <= j < |fast| && fast[i].seqId < fast[j].seqId
        ensures fast[i].timestamp <= fast[j].timestamp
      {
        assert fast[i] in slow && fast[j] in slow;
      }
    }
    hide ByTime, InStep;
    SameSeq(fast, slow);
  }

  lemma {:induction false} LiveDistinct(acc: Access, view: map<string, Record>, stream: string, lo: int, hi: int)
    requires Provides(acc, view)
    ensures DistinctSeqs(acc.range(stream, lo, hi))
  {
    var rs := acc.range(stream, lo, hi);
    forall i, j | 0 <= i < j < |rs|
      ensures rs[i].seqId != rs[j].seqId
    {
      assert LiveIn(view, stream, rs[i]) && LiveIn(view, stream, rs[j]);
      assert TimeBefore(rs[i], rs[j]);
    }
  }

  lemma {:induction false} SubOrder(env: Env, e: FilterExpr, rs: seq<Record>)
    requires DistinctSeqs(rs)
    ensures DistinctSeqs(KeepWhere(env, e, rs))
  {
    hide Evaluate;
    if rs != [] {
      var init, last := rs[..|rs| - 1], rs[|rs| - 1];
      SubOrder(env, e, init);
      KeepWhereMember(env, e, init);
      forall q | q in KeepWhere(env, e, init)
        ensures q.seqId != last.seqId
      {
        var i :| 0 <= i < |init| && init[i] == q;
        assert rs[i] == q;
      }
      var kept := KeepWhere(env, e, init);
      forall i, j | 0 <= i < j < |kept + [last]|
        ensures (kept + [last])[i].seqId != (kept + [last])[j].seqId
      {
        assert kept[i] in kept;
      }
    }
  }

  /**
   * `from(s)`, then a filter whose timestamp bounds lose nothing: the index hands the later stages the same set of
   * records as the scan, and the same sequence, hence the same answer, if timestamps keep step with ids.
   */
  lemma {:induction false} TimePathAgrees(env: Env, acc: Access, view: map<string, Record>, stream: string, e: FilterExpr, rest: seq<Stage>)
    requires Provides(acc, view) && stream in acc.streams && acc.live(stream).Ok? && Rounds(env) && CoveringBounds(env, e)
    requires forall k :: k in view ==> I64_MIN <= view[k].timestamp <= I64_MAX
    requires TimeRange(env, e).Some? && UniqueKey([From(stream), Where(e)] + rest).None?
    ensures
      var t := TimeRange(env, e).value;
      var stages := [From(stream), Where(e)] + rest;
      var fast, slow := KeepWhere(env, e, acc.range(stream, t.0, t.1)), KeepWhere(env, e, acc.live(stream).value);
      && ExecuteQuery(env, acc, stages) == ApplyStages(env, rest, fast)
      && ScanThenStages(env, acc, stages) == ApplyStages(env, rest, slow)
      && (forall r :: r in fast <==> r in slow) && |fast| == |slow|
      && (InStep(slow) ==> ExecuteQuery(env, acc, stages) == ScanThenStages(env, acc, stages))
  {
    var t := TimeRange(env, e).value;
    var ranged, live := acc.range(stream, t.0, t.1), acc.live(stream).value;
    assert (forall r :: r in ranged ==> r.stream == stream) && (forall r :: r in live ==> r.stream == stream);
    TimeReads(env, acc, view, stream, e);
    LiveDistinct(acc, view, stream, t.0, t.1);
    hide Provides, Evaluate, TimeRange, CoveringBounds, Rounds;
    SubOrder(env, e, ranged);
    SameSize(KeepWhere(env, e, ranged), KeepWhere(env, e, live));
    WhereApplied(env, stream, e, rest, ranged);
    WhereApplied(env, stream, e, rest, live);
    assert LeadingRange(env, [From(stream), Where(e)] + rest) == TimeRange(env, e);
  }

  lemma {:induction false} WhereApplied(env: Env, stream: string, e: FilterExpr, rest: seq<Stage>, rs: seq<Record>)
    requires forall r :: r in rs ==> r.stream == stream
    ensures ApplyStages(env, [From(stream), Where(e)] + rest, rs) == ApplyStages(env, rest, KeepWhere(env, e, rs))
  {
    hide Evaluate;
    var stages := [From(stream), Where(e)] + rest;
    assert stages[1..] == [Where(e)] + rest && stages[1..][1..] == rest;
    KeepStreamAll(stream, rs);
    assert ApplyStages(env, stages, rs) == ApplyStages(env, stages[1..], rs);
  }

  lemma {:induction false} SameSize(a: seq<Record>, b: seq<Record>)
    requires DistinctSeqs(a)
    requires BySeq(b) && forall r :: r in a <==> r in b
    ensures |a| == |b|
  {
    DistinctSize(a);
    DistinctSize(b);
    assert (set r | r in a) == (set r | r in b);
  }

  lemma {:induction false} DistinctSize(a: seq<Record>)
    requires DistinctSeqs(a)
    ensures |set r | r in a| == |a|
  {
    if a != [] {
      var init, x := a[..|a| - 1], a[|a| - 1];
      DistinctSize(init);
      assert a == init + [x];
      assert x !in init;
      assert (set r | r in a) == (set r | r in init) + {x};
    }
  }

  /**
   * A single comparison on `timestamp`: the index hands on the same records as the scan if and only if no live
   * record of the stream has the one timestamp such a bound loses.
   */
  lemma {:induction false} OneBoundExact(env: Env, acc: Access, view: map<string, Record>, stream: string, op: Op, value: DataValue)
    requires Provides(acc, view) && acc.live(stream).Ok? && Rounds(env)
    requires forall k :: k in view ==> I64_MIN <= view[k].timestamp <= I64_MAX
    requires op in {Eq, Gt, GtEq, Lt, LtEq} && ToF64(env, value).Some? && Small(ToF64(env, value).value)
    ensures
      var e := Simple("timestamp", op, value);
      && TimeRange(env, e).Some?
      && var t := TimeRange(env, e).value;
         var fast, slow := KeepWhere(env, e, acc.range(stream, t.0, t.1)), KeepWhere(env, e, acc.live(stream).value);
         (forall r :: r in fast <==> r in slow)
         <==> !(LosesOne(op, ToF64(env, value).value)
                && exists r :: LiveIn(view, stream, r) && r.timestamp == ToI64(ToF64(env, value).value))
  {
    var e, x := Simple("timestamp", op, value), ToF64(env, value).value;
    BoundMisses(env, op, value, 0);
    assert TimeRange(env, e) == BoundRange(env, op, value);
    var t := TimeRange(env, e).value;
    var ranged, live := acc.range(stream, t.0, t.1), acc.live(stream).value;
    KeepWhereMember(env, e, ranged);
    KeepWhereMember(env, e, live);
    forall r
      ensures Evaluate(env, r, e) <==> CompareValues(env, Int(r.timestamp), op, value)
    {
    }
    hide CompareValues, BoundRange, LosesOne, ToI64, KeepWhere, TimeRange, Evaluate;
    forall r
      ensures r in live <==> LiveIn(view, stream, r)
      ensures r in ranged <==> LiveIn(view, stream, r) && t.0 <= r.timestamp <= t.1
    {
    }
    hide Provides;
    forall r | LiveIn(view, stream, r)
      ensures r in KeepWhere(env, e, live) && r !in KeepWhere(env, e, ranged) <==> LosesOne(op, x) && r.timestamp == ToI64(x)
    {
      BoundMisses(env, op, value, r.timestamp);
    }
  }
}
