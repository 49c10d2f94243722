/** The per-stream index from (timestamp, sequence id) to pointers, an ordered map with range scans. */
module TimeIndex {
  import opened Types
  import opened Index

  type TimeKey = (int, nat)

  predicate KeyBefore(a: TimeKey, b: TimeKey)
  {
    a.0 < b.0 || (a.0 == b.0 && a.1 < b.1)
  }

  predicate KeysAscend(ks: seq<TimeKey>)
  {
    forall i, j :: 0 <= i < j < |ks| ==> KeyBefore(ks[i], ks[j])
  }

  /** `pointers` are the entries with timestamps in [start, end], in key order; `keys` are their keys. */
  ghost predicate Lists(entries: TimeMap, start: int, end: int, pointers: seq<LogPointer>, keys: seq<TimeKey>)
  {
    && |keys| == |pointers| && KeysAscend(keys)
    && (forall k :: k in keys <==> k in entries && start <= k.0 <= end)
    && (forall i :: 0 <= i < |keys| ==> keys[i] in entries && pointers[i] == entries[keys[i]])
  }

  /** The first key in order. */
  method FirstKey(ks: set<TimeKey>) returns (k: TimeKey)
    requires ks != {}
    ensures k in ks && forall j :: j in ks && j != k ==> KeyBefore(k, j)
  {
    k :| k in ks;
    var rest := ks - {k};
    while rest != {}
      invariant k in ks && rest <= ks - {k}
      invariant forall j :: j in ks && j !in rest && j != k ==> KeyBefore(k, j)
      decreases |rest|
    {
      var j :| j in rest;
      rest := rest - {j};
      if KeyBefore(j, k) {
        k := j;
      }
    }
  }

  /** `range`. */
  method RangeOf(entries: TimeMap, start: int, end: int) returns (pointers: seq<LogPointer>)
    ensures exists keys :: Lists(entries, start, end, pointers, keys)
  {
    var left := set k | k in entries && start <= k.0 <= end;
    ghost var all := left;
    pointers := [];
    ghost var keys: seq<TimeKey> := [];
    while left != {}
      invariant |keys| == |pointers| && KeysAscend(keys) && left <= all
      invariant forall k :: k in keys <==> k in all && k !in left
      invariant forall i, k :: 0 <= i < |keys| && k in left ==> KeyBefore(keys[i], k)
      invariant forall i :: 0 <= i < |keys| ==> keys[i] in entries && pointers[i] == entries[keys[i]]
      decreases |left|
    {
      var k := FirstKey(left);
      pointers := pointers + [entries[k]];
      keys := keys + [k];
      left := left - {k};
    }
    assert Lists(entries, start, end, pointers, keys);
  }

  class TimestampIndex {
    var inner: TimeMap

    constructor ()
      ensures inner == map[]
    {
      inner := map[];
    }

    method Insert(timestamp: int, seqId: nat, pointer: LogPointer)
      modifies this
      ensures inner == old(inner)[(timestamp, seqId) := pointer]
    {
      inner := inner[(timestamp, seqId) := pointer];
    }

    /** Reports whether there was such an entry. */
    method Remove(timestamp: int, seqId: nat) returns (existed: bool)
      modifies this
      ensures existed == ((timestamp, seqId) in old(inner)) && inner == old(inner) - {(timestamp, seqId)}
    {
      existed := (timestamp, seqId) in inner;
      inner := inner - {(timestamp, seqId)};
    }

    method Range(start: int, end: int) returns (pointers: seq<LogPointer>)
      ensures exists keys :: Lists(inner, start, end, pointers, keys)
    {
      pointers := RangeOf(inner, start, end);
    }
  }
}
