/**
 * Bounded top-k vector search: one pass that keeps the best `k` candidates, against the first `k` of a
 * full sort by score descending, then sequence id ascending.
 */
module VectorSearch {
  import opened Wrappers
  import opened Bytes
  import opened Types
  import opened Cosine

  // ---------- Strict conversion ----------

  function ToI8(item: DataValue): Option<i8>
  {
    match item
    case Int(i) => if -128 <= i < 128 then Some(i) else None
    case UInt(u) => if u < 128 then Some(u) else None
    case _ => None
  }

  /** `to_vector_strict`: an int8 vector, or an array of integers that all fit; anything else is an error. */
  function ToVectorStrict(v: DataValue): Option<seq<i8>>
  {
    match v
    case Vector(elems) => Some(elems)
    case Array(items) => ItemsToI8(items)
    case _ => None
  }

  function ItemsToI8(items: seq<DataValue>): (r: Option<seq<i8>>)
    ensures r.Some? <==> forall i :: 0 <= i < |items| ==> ToI8(items[i]).Some?
    ensures r.Some? ==> |r.value| == |items| && forall i :: 0 <= i < |items| ==> ToI8(items[i]) == Some(r.value[i])
  {
    if items == [] then Some([]) else
    var rest, last := ItemsToI8(items[..|items| - 1]), ToI8(items[|items| - 1]);
    if rest.Some? && last.Some? then Some(rest.value + [last.value]) else None
  }

  /** A value stands for a vector: as one, or as an array of its elements, signed or unsigned. */
  predicate Spells(v: DataValue, elems: seq<i8>)
  {
    || v == Vector(elems)
    || (v.Array? && |v.items| == |elems|
        && forall i :: 0 <= i < |elems| ==> v.items[i] == Int(elems[i]) || (elems[i] >= 0 && v.items[i] == UInt(elems[i])))
  }

  lemma {:induction false} VectorExact(v: DataValue, elems: seq<i8>)
    ensures ToVectorStrict(v) == Some(elems) <==> Spells(v, elems)
  {
    if v.Array? {
      forall i | 0 <= i < |v.items| && i < |elems|
        ensures ToI8(v.items[i]) == Some(elems[i]) <==> v.items[i] == Int(elems[i]) || (elems[i] >= 0 && v.items[i] == UInt(elems[i]))
      {
      }
      hide ToI8;
      if ToVectorStrict(v).Some? && Spells(v, elems) {
        assert ToVectorStrict(v).value == elems;
      }
    }
  }

  // ---------- Candidates and their order ----------

  datatype Candidate = Candidate(score: Score, record: Record)

  /** Best first: higher score, then lower sequence id. */
  predicate Better(a: Candidate, b: Candidate)
  {
    a.score > b.score || (a.score == b.score && a.record.seqId < b.record.seqId)
  }

  predicate BestFirst(cs: seq<Candidate>)
  {
    forall i, j :: 0 <= i < j < |cs| ==> !Better(cs[j], cs[i])
  }

  function InsertBest(cs: seq<Candidate>, c: Candidate): seq<Candidate>
  {
    if cs == [] || !Better(c, cs[|cs| - 1]) then cs + [c]
    else InsertBest(cs[..|cs| - 1], c) + [cs[|cs| - 1]]
  }

  /** The stable sort the results are returned in. */
  function SortBest(cs: seq<Candidate>): seq<Candidate>
  {
    if cs == [] then [] else InsertBest(SortBest(cs[..|cs| - 1]), cs[|cs| - 1])
  }

  lemma {:induction false} InsertElements(cs: seq<Candidate>, c: Candidate)
    ensures multiset(InsertBest(cs, c)) == multiset(cs) + multiset{c}
  {
    if cs != [] && Better(c, cs[|cs| - 1]) {
      InsertElements(cs[..|cs| - 1], c);
      assert cs == cs[..|cs| - 1] + [cs[|cs| - 1]];
    }
  }

  lemma {:induction false} InsertAbove(cs: seq<Candidate>, c: Candidate, w: Candidate)
    requires !Better(w, c) && forall x :: x in cs ==> !Better(w, x)
    ensures forall x :: x in InsertBest(cs, c) ==> !Better(w, x)
  {
    if cs != [] && Better(c, cs[|cs| - 1]) {
      InsertAbove(cs[..|cs| - 1], c, w);
    }
  }

  lemma {:induction false} InsertSorted(cs: seq<Candidate>, c: Candidate)
    requires BestFirst(cs)
    ensures BestFirst(InsertBest(cs, c))
  {
    if cs != [] && Better(c, cs[|cs| - 1]) {
      var init, w := cs[..|cs| - 1], cs[|cs| - 1];
      InsertSorted(init, c);
      InsertAbove(init, c, w);
    }
  }

  lemma {:induction false} SortBestSorts(cs: seq<Candidate>)
    ensures BestFirst(SortBest(cs)) && multiset(SortBest(cs)) == multiset(cs)
  {
    if cs != [] {
      SortBestSorts(cs[..|cs| - 1]);
      InsertSorted(SortBest(cs[..|cs| - 1]), cs[|cs| - 1]);
      InsertElements(SortBest(cs[..|cs| - 1]), cs[|cs| - 1]);
      assert cs == cs[..|cs| - 1] + [cs[|cs| - 1]];
    }
  }

  // ---------- The candidates of a scan ----------

  datatype Scored = Skip | Bad | Good(candidate: Candidate)

  /** One record: no such field is skipped; a field that is no vector of the query's length is an error. */
  function ScoreRecord(field: Record -> Option<DataValue>, query: seq<i8>, r: Record): Scored
  {
    var val := field(r);
    if val.None? then Skip else
    var v := ToVectorStrict(val.value);
    if v.None? || |v.value| != |query| then Bad else
    var s := Similarity(v.value, query);
    Good(Candidate(if s.Some? then s.value else 0.0, r))
  }

  /**
   * One record, by what its field stands for: a candidate with the score of that vector if its length is the
   * query's, passed over if there is no such field, and an error otherwise.
   */
  lemma {:induction false} ScoreRecordExact(field: Record -> Option<DataValue>, query: seq<i8>, r: Record, elems: seq<i8>)
    ensures ScoreRecord(field, query, r).Skip? <==> field(r).None?
    ensures field(r).Some? && Spells(field(r).value, elems) && |elems| == |query| ==>
      ScoreRecord(field, query, r) == Good(Candidate(if query == [] then 0.0 else Similarity(elems, query).value, r))
    ensures ScoreRecord(field, query, r).Good? ==> exists es :: Spells(field(r).value, es) && |es| == |query|
  {
    if field(r).Some? {
      VectorExact(field(r).value, elems);
      var v := ToVectorStrict(field(r).value);
      if v.Some? {
        VectorExact(field(r).value, v.value);
      }
    }
    hide ToVectorStrict, Spells;
  }

  function Candidates(field: Record -> Option<DataValue>, query: seq<i8>, records: seq<Record>): seq<Candidate>
  {
    if records == [] then [] else
    var s := ScoreRecord(field, query, records[|records| - 1]);
    Candidates(field, query, records[..|records| - 1]) + if s.Good? then [s.candidate] else []
  }

  predicate DistinctIds(records: seq<Record>)
  {
    forall i, j :: 0 <= i < j < |records| ==> records[i].seqId != records[j].seqId
  }

  predicate DistinctCandidates(cs: seq<Candidate>)
  {
    forall i, j :: 0 <= i < j < |cs| ==> cs[i].record.seqId != cs[j].record.seqId
  }

  lemma {:induction false} CandidatesDistinct(field: Record -> Option<DataValue>, query: seq<i8>, records: seq<Record>)
    requires DistinctIds(records)
    ensures DistinctCandidates(Candidates(field, query, records))
    ensures forall c :: c in Candidates(field, query, records) ==> c.record in records
  {
    hide ScoreRecord;
    if records != [] {
      var init, r := records[..|records| - 1], records[|records| - 1];
      CandidatesDistinct(field, query, init);
      OwnRecord(field, query, r);
      forall c | c in Candidates(field, query, init)
        ensures c.record.seqId != r.seqId
      {
        var i :| 0 <= i < |init| && init[i] == c.record;
        assert records[i] == c.record;
      }
    }
  }

  lemma {:induction false} OwnRecord(field: Record -> Option<DataValue>, query: seq<i8>, r: Record)
    ensures ScoreRecord(field, query, r).Good? ==> ScoreRecord(field, query, r).candidate.record == r
  {
  }

  // ---------- The bounded heap ----------

  /** `worst` is the least of the retained candidates: what the min-heap pops. */
  method PopWorst(heap: seq<Candidate>) returns (rest: seq<Candidate>, worst: Candidate)
    requires heap != []
    ensures multiset(rest) + multiset{worst} == multiset(heap) && |rest| + 1 == |heap|
    ensures forall c :: c in heap ==> !Better(worst, c)
  {
    var w := 0;
    for i := 1 to |heap|
      invariant 0 <= w < |heap|
      invariant forall j :: 0 <= j < i ==> !Better(heap[w], heap[j])
    {
      if Better(heap[w], heap[i]) {
        w := i;
      }
    }
    worst := heap[w];
    rest := heap[..w] + heap[w + 1..];
    assert heap == heap[..w] + [worst] + heap[w + 1..];
  }

  /** What has been retained and dropped of the candidates so far. */
  ghost predicate Kept(heap: seq<Candidate>, dropped: seq<Candidate>, cs: seq<Candidate>, k: nat)
  {
    && multiset(heap) + multiset(dropped) == multiset(cs)
    && |heap| <= k && (dropped != [] ==> |heap| == k)
    && forall h, d :: h in heap && d in dropped ==> !Better(d, h)
  }

  /** `vector_search`: an error for `k == 0` and for any unusable field value, else the best `k`. */
  method VectorSearch(field: Record -> Option<DataValue>, query: seq<i8>, topK: nat, records: seq<Record>)
    returns (r: Result<seq<Candidate>, string>)
    ensures r.Err? <==> topK == 0 || exists i :: 0 <= i < |records| && ScoreRecord(field, query, records[i]).Bad?
    ensures r.Ok? ==> forall i, j :: 0 <= i < j < |r.value| ==>
      || r.value[i].score > r.value[j].score
      || (r.value[i].score == r.value[j].score && r.value[i].record.seqId <= r.value[j].record.seqId)
    ensures r.Ok? && DistinctIds(records) ==>
      var all := SortBest(Candidates(field, query, records));
      r.value == all[..if topK < |all| then topK else |all|]
  {
    hide ScoreRecord, SortBest, Candidates, Kept, BestFirst, DistinctIds;
    if topK == 0 {
      return Err("vector_search: k must be >= 1");
    }
    var heap: seq<Candidate> := [];
    ghost var dropped: seq<Candidate> := [];
    NothingKept(field, query, topK);
    assert records[..0] == [];
    for i := 0 to |records|
      invariant forall j :: 0 <= j < i ==> !ScoreRecord(field, query, records[j]).Bad?
      invariant Kept(heap, dropped, Candidates(field, query, records[..i]), topK)
    {
      ghost var cs := Candidates(field, query, records[..i]);
      assert records[..i + 1] == records[..i] + [records[i]];
      CandidatesSnoc(field, query, records[..i], records[i]);
      var s := ScoreRecord(field, query, records[i]);
      match s {
        case Skip =>
        case Bad =>
          return Err("vector_search");
        case Good(c) =>
          var pushed := heap + [c];
          KeptBound(heap, dropped, cs, topK);
          if |pushed| > topK {
            var rest, worst := PopWorst(pushed);
            PoppedKept(heap, dropped, cs, topK, c, rest, worst);
            heap, dropped := rest, dropped + [worst];
          } else {
            PushedKept(heap, dropped, cs, topK, c);
            heap := pushed;
          }
      }
    }
    assert records[..|records|] == records;
    SortBestSorts(heap);
    if DistinctIds(records) {
      CandidatesDistinct(field, query, records);
      KeptIsTop(heap, dropped, Candidates(field, query, records), topK);
    }
    BestFirstIs(SortBest(heap));
    return Ok(SortBest(heap));
  }

  lemma {:induction false} BestFirstIs(cs: seq<Candidate>)
    requires BestFirst(cs)
    ensures forall i, j :: 0 <= i < j < |cs| ==>
      cs[i].score > cs[j].score || (cs[i].score == cs[j].score && cs[i].record.seqId <= cs[j].record.seqId)
  {
  }

  lemma {:induction false} CandidatesSnoc(field: Record -> Option<DataValue>, query: seq<i8>, records: seq<Record>, r: Record)
    ensures
      var s := ScoreRecord(field, query, r);
      Candidates(field, query, records + [r]) == if s.Good? then Candidates(field, query, records) + [s.candidate] else Candidates(field, query, records)
  {
    hide ScoreRecord;
    assert (records + [r])[..|records|] == records;
  }

  lemma {:induction false} NothingKept(field: Record -> Option<DataValue>, query: seq<i8>, k: nat)
    ensures Kept([], [], Candidates(field, query, []), k)
  {
  }

  lemma {:induction false} KeptBound(heap: seq<Candidate>, dropped: seq<Candidate>, cs: seq<Candidate>, k: nat)
    requires Kept(heap, dropped, cs, k)
    ensures |heap| <= k && (dropped != [] ==> |heap| == k)
  {
  }

  lemma {:induction false} PushedKept(heap: seq<Candidate>, dropped: seq<Candidate>, cs: seq<Candidate>, k: nat, c: Candidate)
    requires Kept(heap, dropped, cs, k) && |heap| < k
    ensures Kept(heap + [c], dropped, cs + [c], k)
  {
    assert dropped == [];
  }

  lemma {:induction false} PoppedKept(heap: seq<Candidate>, dropped: seq<Candidate>, cs: seq<Candidate>, k: nat,
                                      c: Candidate, rest: seq<Candidate>, worst: Candidate)
    requires Kept(heap, dropped, cs, k) && |heap| == k
    requires multiset(rest) + multiset{worst} == multiset(heap + [c]) && |rest| == k
    requires forall x :: x in heap + [c] ==> !Better(worst, x)
    ensures Kept(rest, dropped + [worst], cs + [c], k)
  {
    assert multiset(rest) + (multiset(dropped) + (multiset{worst})) == multiset(cs) + (multiset{c}) by {
      assert multiset(rest) + (multiset(dropped) + (multiset{worst})) == (multiset(rest) + (multiset{worst})) + multiset(dropped);
      assert (multiset(heap) + (multiset{c})) + multiset(dropped) == (multiset(heap) + multiset(dropped)) + (multiset{c});
    }
    forall h, d | h in rest && d in dropped + [worst]
      ensures !Better(d, h)
    {
      assert h in multiset(rest) + multiset{worst};
      assert h in heap + [c];
      assert worst in multiset(rest) + multiset{worst};
      assert worst in heap + [c];
    }
  }

  // ---------- The retained candidates are the head of the full sort ----------

  ghost predicate DistinctBag(m: multiset<Candidate>)
  {
    && (forall c :: m[c] <= 1)
    && forall a, b :: a in m && b in m && a != b ==> a.record.seqId != b.record.seqId
  }

  lemma {:induction false} DistinctIsBag(cs: seq<Candidate>)
    requires DistinctCandidates(cs)
    ensures DistinctBag(multiset(cs))
  {
    if cs != [] {
      var init, c := cs[..|cs| - 1], cs[|cs| - 1];
      assert cs == init + [c];
      DistinctIsBag(init);
      forall a | a in init
        ensures a.record.seqId != c.record.seqId
      {
        var i :| 0 <= i < |init| && init[i] == a;
        assert cs[i] == a;
      }
      assert c !in multiset(init) by {
        assert c in multiset(init) ==> c in init;
      }
    }
  }

  /** Two best-first orders of the same distinct candidates are equal. */
  lemma {:induction false} UniqueOrder(a: seq<Candidate>, b: seq<Candidate>)
    requires BestFirst(a) && BestFirst(b) && multiset(a) == multiset(b) && DistinctBag(multiset(a))
    ensures a == b
  {
    hide Better;
    assert |multiset(a)| == |a| && |multiset(b)| == |b|;
    if a != [] {
      assert a == [a[0]] + a[1..] && b == [b[0]] + b[1..];
      SameHead(a, b);
      assert multiset(a[1..]) == multiset(a) - multiset{a[0]};
      assert DistinctBag(multiset(a)) ==> DistinctBag(multiset(a[1..]));
      assert multiset(b[1..]) == multiset(b) - multiset{b[0]};
      assert DistinctBag(multiset(b)) ==> DistinctBag(multiset(b[1..]));
      TailSorted(a);
      TailSorted(b);
      hide BestFirst;
      UniqueOrder(a[1..], b[1..]);
    }
  }

  lemma {:induction false} TailSorted(a: seq<Candidate>)
    requires a != [] && BestFirst(a)
    ensures BestFirst(a[1..])
  {
    hide Better;
  }

  lemma {:induction false} SameHead(a: seq<Candidate>, b: seq<Candidate>)
    requires a != [] && b != [] && BestFirst(a) && BestFirst(b) && multiset(a) == multiset(b) && DistinctBag(multiset(a))
    ensures a[0] == b[0]
  {
    var x, y := a[0], b[0];
    assert x in multiset(b) && y in multiset(a);
    var i :| 0 <= i < |b| && b[i] == x;
    var j :| 0 <= j < |a| && a[j] == y;
  }

  lemma {:induction false} KeptIsTop(heap: seq<Candidate>, dropped: seq<Candidate>, cs: seq<Candidate>, k: nat)
    requires Kept(heap, dropped, cs, k) && DistinctCandidates(cs)
    ensures SortBest(heap) == SortBest(cs)[..if k < |SortBest(cs)| then k else |SortBest(cs)|]
  {
    var h, d, all := SortBest(heap), SortBest(dropped), SortBest(cs);
    SortBestSorts(heap);
    SortBestSorts(dropped);
    SortBestSorts(cs);
    DistinctIsBag(cs);
    assert BestFirst(h + d);
    assert multiset(h + d) == multiset(cs);
    UniqueOrder(h + d, all);
    assert |h| == |multiset(h)| == |heap| && |d| == |multiset(d)| == |dropped|;
    assert all[..|h|] == h;
  }
}
