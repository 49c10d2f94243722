/**
 * The on-disk frame: a 26-byte header
 * `seq_id(8) | timestamp(8) | type_tag(1) | flags(1) | payload_len(4) | crc32(4)`
 * followed by a payload `stream_len(2) | stream | key_len(2) | key | value`.
 *
 * MessagePack, CRC-32 and UTF-8 are the fields of a `Codec`; every theorem holds for each
 * codec that is `Lawful`.
 */
module Frames {
  import opened Wrappers
  import opened Bytes
  import opened Types

  datatype Codec = Codec(
    encValue: DataValue -> bytes,
    decValue: bytes -> Option<DataValue>,
    crc: bytes -> nat,
    encText: string -> bytes,
    decText: bytes -> Option<string>)
  {
    ghost predicate Lawful()
    {
      && (forall v: DataValue :: decValue(encValue(v)) == Some(v))
      && (forall p: bytes :: crc(p) < U32)
      && (forall s: string :: decText(encText(s)) == Some(s))
    }
  }

  const HEADER_LEN: nat := 26
  const MAX_KEY_LEN: nat := 32
  const VECTOR_TAG: byte := 8

  // ---------- Encoding ----------

  function ValueBytes(c: Codec, v: DataValue): bytes
  {
    if v.Vector? then seq(|v.elems|, i requires 0 <= i < |v.elems| => I8ToByte(v.elems[i]))
    else c.encValue(v)
  }

  /** `serialize_payload_into`: both lengths are written as truncating `u16`s. */
  function Payload(c: Codec, stream: string, key: string, value: DataValue): bytes
  {
    var s, k := c.encText(stream), c.encText(key);
    BE(|s|, 2) + s + (BE(|k|, 2) + k + ValueBytes(c, value))
  }

  function RecordPayload(c: Codec, r: Record): bytes
  {
    Payload(c, r.stream, r.key, r.value)
  }

  function Header(c: Codec, r: Record): (h: bytes)
    ensures |h| == HEADER_LEN
  {
    var p := RecordPayload(c, r);
    BE(r.seqId, 8) + BE(I64ToU64(r.timestamp), 8) + [r.typeTag, r.flags] + BE(|p|, 4) + BE(c.crc(p), 4)
  }

  function EncodeFrame(c: Codec, r: Record): (f: bytes)
    ensures |f| == HEADER_LEN + |RecordPayload(c, r)|
  {
    Header(c, r) + RecordPayload(c, r)
  }

  /**
   * The records whose frame decodes to themselves: what the engine ever writes.
   * Stream names stay below 2^16 bytes and payloads below 2^32 bytes; keys are `StreamKey`s.
   */
  ghost predicate Writable(c: Codec, r: Record)
  {
    && r.seqId < U64
    && -I64_MAX - 1 <= r.timestamp <= I64_MAX
    && r.typeTag == r.value.TypeTag()
    && (r.flags == FLAG_ACTIVE || r.flags == FLAG_TOMBSTONE)
    && |c.encText(r.stream)| < U16
    && |c.encText(r.key)| <= MAX_KEY_LEN
    && |RecordPayload(c, r)| < U32
  }

  ghost predicate AllWritable(c: Codec, rs: seq<Record>)
  {
    forall i :: 0 <= i < |rs| ==> Writable(c, rs[i])
  }

  lemma {:induction false} WritableConcat(c: Codec, a: seq<Record>, b: seq<Record>)
    ensures AllWritable(c, a + b) <==> AllWritable(c, a) && AllWritable(c, b)
  {
    hide Writable;
    if AllWritable(c, a + b) {
      assert forall i :: 0 <= i < |a| ==> a[i] == (a + b)[i];
      assert forall i :: 0 <= i < |b| ==> b[i] == (a + b)[|a| + i];
    }
  }

  function EncodeAll(c: Codec, rs: seq<Record>): bytes
  {
    if rs == [] then [] else EncodeFrame(c, rs[0]) + EncodeAll(c, rs[1..])
  }

  // ---------- Decoding ----------

  datatype FrameHeader = FrameHeader(seqId: nat, timestamp: int, typeTag: byte, flags: byte, payloadLen: nat, crc: nat)

  function DecodeHeader(h: bytes): FrameHeader
    requires |h| >= HEADER_LEN
  {
    FrameHeader(FromBE(h[0..8]), U64ToI64(FromBE(h[8..16])), h[16], h[17], FromBE(h[18..22]), FromBE(h[22..26]))
  }

  datatype Body = Body(stream: string, key: string, value: DataValue)

  /** `deserialize_payload_borrowed`; `None` for each of its error returns. */
  function DecodePayload(c: Codec, p: bytes, typeTag: byte): Option<Body>
  {
    if |p| < 4 then None else
    var streamLen := FromBE(p[0..2]);
    if |p| < 4 + streamLen then None else
    var stream := c.decText(p[2..2 + streamLen]);
    if stream.None? then None else
    var keyLen := FromBE(p[2 + streamLen..4 + streamLen]);
    if |p| < 4 + streamLen + keyLen then None else
    var key := c.decText(p[4 + streamLen..4 + streamLen + keyLen]);
    if key.None? then None else
    var raw := p[4 + streamLen + keyLen..];
    if typeTag == VECTOR_TAG then
      Some(Body(stream.value, key.value, Vector(seq(|raw|, i requires 0 <= i < |raw| => ByteToI8(raw[i])))))
    else
      var v := c.decValue(raw);
      if v.None? then None else Some(Body(stream.value, key.value, v.value))
  }

  datatype TearKind = HeaderTear | PayloadTear | CrcTear | ParseTear | TrailingTear

  datatype FrameOutcome =
    | Good(rec: Record, len: nat)
    | Bad(kind: TearKind, seqId: nat)

  /** One turn of recovery's replay loop on the frame that starts at `off`. */
  function FrameAt(c: Codec, file: bytes, off: nat): (o: FrameOutcome)
    requires off + HEADER_LEN <= |file|
    ensures o.Good? ==> HEADER_LEN <= o.len && off + o.len <= |file|
  {
    var h := DecodeHeader(file[off..off + HEADER_LEN]);
    if off + HEADER_LEN + h.payloadLen > |file| then Bad(PayloadTear, h.seqId) else
    var p := file[off + HEADER_LEN..off + HEADER_LEN + h.payloadLen];
    if c.crc(p) != h.crc then Bad(CrcTear, h.seqId) else
    var body := DecodePayload(c, p, h.typeTag);
    if body.None? then Bad(ParseTear, h.seqId) else
    Good(Record(h.seqId, h.timestamp, h.typeTag, h.flags, body.value.stream, body.value.key, body.value.value),
         HEADER_LEN + h.payloadLen)
  }

  datatype Located = Located(offset: nat, rec: Record)

  /**
   * What replaying one segment yields: the decoded frames, where replay stopped, why (if it was a
   * tear), and the two facts kept for choosing the active segment (`maxSeq`, `hasFrame`), which
   * count complete frames before CRC and decode validation.
   */
  datatype Replay = Replay(frames: seq<Located>, stop: nat, tear: Option<TearKind>, maxSeq: nat, hasFrame: bool)

  function Scan(c: Codec, file: bytes, off: nat): (s: Replay)
    requires off <= |file|
    ensures off <= s.stop <= |file|
    ensures s.tear.None? ==> s.stop == |file|
    ensures s.tear.Some? ==> s.stop < |file|
    decreases |file| - off
  {
    if off == |file| then Replay([], off, None, 0, false) else
    if off + HEADER_LEN > |file| then Replay([], off, Some(TrailingTear), 0, false) else
    match FrameAt(c, file, off)
    case Bad(PayloadTear, _) => Replay([], off, Some(PayloadTear), 0, false)
    case Bad(kind, seqId) => Replay([], off, Some(kind), seqId, true)
    case Good(rec, len) =>
      var rest := Scan(c, file, off + len);
      Replay([Located(off, rec)] + rest.frames, rest.stop, rest.tear, Max(rec.seqId, rest.maxSeq), true)
  }

  /** `read_record`: positional read through a pointer. `None` stands for each error return. */
  function ReadAt(c: Codec, file: bytes, off: nat): Option<Record>
  {
    if off + HEADER_LEN > |file| then None else
    match FrameAt(c, file, off)
    case Bad(_, _) => None
    case Good(rec, _) => if |c.encText(rec.key)| <= MAX_KEY_LEN then Some(rec) else None
  }

  // ---------- One frame decodes to its own record ----------

  lemma {:induction false} HeaderRoundTrip(c: Codec, r: Record)
    requires c.Lawful() && Writable(c, r)
    ensures DecodeHeader(Header(c, r)) ==
      FrameHeader(r.seqId, r.timestamp, r.typeTag, r.flags, |RecordPayload(c, r)|, c.crc(RecordPayload(c, r)))
  {
    WidthLimits();
    var p := RecordPayload(c, r);
    var h := Header(c, r);
    assert h[0..8] == BE(r.seqId, 8);
    assert h[8..16] == BE(I64ToU64(r.timestamp), 8);
    assert h[18..22] == BE(|p|, 4);
    assert h[22..26] == BE(c.crc(p), 4);
    BERoundTrip(r.seqId, 8);
    BERoundTrip(I64ToU64(r.timestamp), 8);
    BERoundTrip(|p|, 4);
    BERoundTrip(c.crc(p), 4);
  }

  lemma {:induction false} PayloadRoundTrip(c: Codec, stream: string, key: string, value: DataValue)
    requires c.Lawful()
    requires |c.encText(stream)| < U16 && |c.encText(key)| < U16
    ensures DecodePayload(c, Payload(c, stream, key, value), value.TypeTag()) == Some(Body(stream, key, value))
  {
    WidthLimits();
    var s, k, v := c.encText(stream), c.encText(key), ValueBytes(c, value);
    var p := Payload(c, stream, key, value);
    BERoundTrip(|s|, 2);
    BERoundTrip(|k|, 2);
    assert p[0..2] == BE(|s|, 2);
    assert p[2..2 + |s|] == s;
    assert p[2 + |s|..4 + |s|] == BE(|k|, 2);
    assert p[4 + |s|..4 + |s| + |k|] == k;
    var raw := p[4 + |s| + |k|..];
    assert raw == v;
    if value.Vector? {
      assert seq(|raw|, i requires 0 <= i < |raw| => ByteToI8(raw[i])) == value.elems;
    }
  }

  lemma {:induction false} FrameRoundTrip(c: Codec, r: Record, file: bytes, off: nat)
    requires c.Lawful() && Writable(c, r)
    requires off + |EncodeFrame(c, r)| <= |file|
    requires file[off..off + |EncodeFrame(c, r)|] == EncodeFrame(c, r)
    ensures FrameAt(c, file, off) == Good(r, |EncodeFrame(c, r)|)
    ensures ReadAt(c, file, off) == Some(r)
  {
    hide Header, Payload, DecodeHeader, DecodePayload;
    assert file[off..off + HEADER_LEN] == Header(c, r) && file[off + HEADER_LEN..off + |EncodeFrame(c, r)|] == RecordPayload(c, r) by {
      var f := EncodeFrame(c, r);
      SubSlice(file, off, off + |f|, 0, HEADER_LEN);
      SubSlice(file, off, off + |f|, HEADER_LEN, |f|);
      assert f[0..HEADER_LEN] == Header(c, r);
      assert f[HEADER_LEN..|f|] == RecordPayload(c, r);
    }
    HeaderRoundTrip(c, r);
    PayloadRoundTrip(c, r.stream, r.key, r.value);
  }

  // ---------- The log of many frames, cut anywhere ----------

  /** The frames of `rs` laid out from byte `base`. */
  ghost function Layout(c: Codec, rs: seq<Record>, base: nat): (ls: seq<Located>)
    ensures |ls| == |rs|
    ensures forall i :: 0 <= i < |rs| ==> ls[i].rec == rs[i]
  {
    if rs == [] then [] else [Located(base, rs[0])] + Layout(c, rs[1..], base + |EncodeFrame(c, rs[0])|)
  }

  /** How many leading frames of `rs` lie wholly inside the first `cut` bytes. */
  ghost function WholeFrames(c: Codec, rs: seq<Record>, cut: nat): (n: nat)
    ensures n <= |rs|
  {
    if rs == [] || cut < |EncodeFrame(c, rs[0])| then 0
    else 1 + WholeFrames(c, rs[1..], cut - |EncodeFrame(c, rs[0])|)
  }

  ghost function MaxSeq(rs: seq<Record>): nat
  {
    if rs == [] then 0 else Max(rs[0].seqId, MaxSeq(rs[1..]))
  }

  lemma {:induction false} WholeStep(c: Codec, rs: seq<Record>, cut: nat, base: nat)
    requires rs != []
    requires |EncodeFrame(c, rs[0])| <= cut
    ensures
      var f := |EncodeFrame(c, rs[0])|;
      var n, m := WholeFrames(c, rs, cut), WholeFrames(c, rs[1..], cut - f);
      && n == m + 1
      && |EncodeAll(c, rs[..n])| == f + |EncodeAll(c, rs[1..][..m])|
      && Layout(c, rs[..n], base) == [Located(base, rs[0])] + Layout(c, rs[1..][..m], base + f)
      && MaxSeq(rs[..n]) == Max(rs[0].seqId, MaxSeq(rs[1..][..m]))
  {
    var n := WholeFrames(c, rs, cut);
    assert rs[..n][1..] == rs[1..][..n - 1];
    assert rs[..n][0] == rs[0];
  }

  ghost function TearOf(left: nat): Option<TearKind>
  {
    if left == 0 then None else if left < HEADER_LEN then Some(TrailingTear) else Some(PayloadTear)
  }

  /** What replay must yield for the first `cut` bytes of the log of `rs` laid out from `base`. */
  ghost function CutReplay(c: Codec, rs: seq<Record>, cut: nat, base: nat): Replay
    requires |EncodeAll(c, rs[..WholeFrames(c, rs, cut)])| <= cut
  {
    var n := WholeFrames(c, rs, cut);
    var whole := |EncodeAll(c, rs[..n])|;
    Replay(Layout(c, rs[..n], base), base + whole, TearOf(cut - whole), MaxSeq(rs[..n]), n > 0)
  }

  lemma {:induction false} WholeFits(c: Codec, rs: seq<Record>, cut: nat)
    ensures |EncodeAll(c, rs[..WholeFrames(c, rs, cut)])| <= cut
    decreases |rs|
  {
    hide EncodeFrame;
    if rs == [] || cut < |EncodeFrame(c, rs[0])| {
      assert rs[..0] == [];
    } else {
      WholeFits(c, rs[1..], cut - |EncodeFrame(c, rs[0])|);
      WholeStep(c, rs, cut, 0);
    }
  }

  lemma {:induction false} ScanCutCons(c: Codec, file: bytes, base: nat, rs: seq<Record>, cut: nat)
    requires c.Lawful() && rs != [] && Writable(c, rs[0])
    requires |EncodeFrame(c, rs[0])| <= cut && base + |EncodeFrame(c, rs[0])| <= |file|
    requires file[base..base + |EncodeFrame(c, rs[0])|] == EncodeFrame(c, rs[0])
    requires
      var f := |EncodeFrame(c, rs[0])|;
      && |EncodeAll(c, rs[..WholeFrames(c, rs, cut)])| <= cut
      && |EncodeAll(c, rs[1..][..WholeFrames(c, rs[1..], cut - f)])| <= cut - f
      && Scan(c, file, base + f) == CutReplay(c, rs[1..], cut - f, base + f)
    ensures Scan(c, file, base) == CutReplay(c, rs, cut, base)
  {
    hide FrameAt, EncodeFrame, Writable, EncodeAll, WholeFrames, Layout, MaxSeq;
    FrameRoundTrip(c, rs[0], file, base);
    WholeStep(c, rs, cut, base);
  }

  /**
   * Cutting a log of frames at any byte leaves exactly the frames wholly inside the cut, and replay
   * stops at their boundary with a torn tail exactly when bytes are left over.
   */
  lemma {:induction false} ScanCut(c: Codec, file: bytes, base: nat, rs: seq<Record>, cut: nat)
    requires c.Lawful() && AllWritable(c, rs)
    requires cut <= |EncodeAll(c, rs)| && base <= |file|
    requires file[base..] == EncodeAll(c, rs)[..cut]
    ensures |EncodeAll(c, rs[..WholeFrames(c, rs, cut)])| <= cut
    ensures Scan(c, file, base) == CutReplay(c, rs, cut, base)
    decreases |rs|
  {
    hide FrameAt, EncodeFrame, EncodeAll, WholeFrames, Writable, Scan, CutReplay;
    WholeFits(c, rs, cut);
    if rs == [] || cut < |EncodeFrame(c, rs[0])| {
      CutInsideFirst(c, file, base, rs, cut);
    } else {
      var f := EncodeFrame(c, rs[0]);
      CutHead(c, file, base, rs, cut);
      ScanCut(c, file, base + |f|, rs[1..], cut - |f|);
      ScanCutCons(c, file, base, rs, cut);
    }
  }

  lemma {:induction false} CutHead(c: Codec, file: bytes, base: nat, rs: seq<Record>, cut: nat)
    requires rs != [] && |EncodeFrame(c, rs[0])| <= cut <= |EncodeAll(c, rs)| && base <= |file|
    requires file[base..] == EncodeAll(c, rs)[..cut]
    ensures
      var f := EncodeFrame(c, rs[0]);
      && base + |f| <= |file|
      && file[base..base + |f|] == f
      && cut - |f| <= |EncodeAll(c, rs[1..])|
      && file[base + |f|..] == EncodeAll(c, rs[1..])[..cut - |f|]
  {
    var f, rest := EncodeFrame(c, rs[0]), EncodeAll(c, rs[1..]);
    var t := file[base..];
    assert (f + rest)[..cut] == f + rest[..cut - |f|];
    assert t[..|f|] == f && t[|f|..] == rest[..cut - |f|];
    assert file[base + |f|..] == t[|f|..];
  }

  lemma {:induction false} CutInsideFirst(c: Codec, file: bytes, base: nat, rs: seq<Record>, cut: nat)
    requires c.Lawful() && AllWritable(c, rs)
    requires rs == [] || cut < |EncodeFrame(c, rs[0])|
    requires cut <= |EncodeAll(c, rs)| && base <= |file|
    requires file[base..] == EncodeAll(c, rs)[..cut]
    requires |EncodeAll(c, rs[..WholeFrames(c, rs, cut)])| <= cut
    ensures Scan(c, file, base) == CutReplay(c, rs, cut, base)
  {
    assert rs[..0] == [];
    if rs != [] && HEADER_LEN <= cut {
      assert file[base..] == EncodeFrame(c, rs[0])[..cut];
      assert FrameAt(c, file, base) == Bad(PayloadTear, rs[0].seqId) by {
        assert file[base..base + HEADER_LEN] == file[base..][..HEADER_LEN] == Header(c, rs[0]);
        HeaderRoundTrip(c, rs[0]);
      }
    }
  }

  lemma {:induction false} LogHead(c: Codec, file: bytes, base: nat, rs: seq<Record>)
    requires rs != []
    requires base <= |file| && EncodeAll(c, rs) <= file[base..]
    ensures
      var f := EncodeFrame(c, rs[0]);
      && base + |f| <= |file|
      && file[base..base + |f|] == f
      && EncodeAll(c, rs[1..]) <= file[base + |f|..]
  {
    var f, rest := EncodeFrame(c, rs[0]), EncodeAll(c, rs[1..]);
    var t := file[base..];
    assert t[..|f| + |rest|] == f + rest;
    assert t[..|f|] == f;
    assert t[|f|..][..|rest|] == rest;
    assert file[base + |f|..] == t[|f|..];
  }

  /** Every pointer stored while laying out `rs` reads back its own record, whatever is appended later. */
  lemma {:induction false} LayoutReads(c: Codec, file: bytes, base: nat, rs: seq<Record>, i: nat)
    requires c.Lawful() && AllWritable(c, rs) && i < |rs|
    requires base <= |file| && EncodeAll(c, rs) <= file[base..]
    ensures ReadAt(c, file, Layout(c, rs, base)[i].offset) == Some(rs[i])
    decreases |rs|
  {
    hide FrameAt, ReadAt, EncodeFrame, Writable, EncodeAll;
    var f := EncodeFrame(c, rs[0]);
    LogHead(c, file, base, rs);
    if i == 0 {
      FrameRoundTrip(c, rs[0], file, base);
    } else {
      LayoutReads(c, file, base + |f|, rs[1..], i - 1);
      assert Layout(c, rs, base)[i] == Layout(c, rs[1..], base + |f|)[i - 1];
    }
  }

  /** Appending never changes what an earlier pointer reads. */
  lemma {:induction false} AppendKeepsReads(c: Codec, file: bytes, tail: bytes, off: nat)
    requires ReadAt(c, file, off).Some?
    ensures ReadAt(c, file + tail, off) == ReadAt(c, file, off)
  {
    var file' := file + tail;
    assert file'[off..off + HEADER_LEN] == file[off..off + HEADER_LEN];
    var h := DecodeHeader(file[off..off + HEADER_LEN]);
    assert file'[off + HEADER_LEN..off + HEADER_LEN + h.payloadLen] == file[off + HEADER_LEN..off + HEADER_LEN + h.payloadLen];
  }

  /** Every frame that replay yields reads back through its own offset, if and only if its key has at most 32 bytes. */
  lemma {:induction false} ScanReads(c: Codec, file: bytes, off: nat, i: nat)
    requires off <= |file| && i < |Scan(c, file, off).frames|
    ensures
      var l := Scan(c, file, off).frames[i];
      ReadAt(c, file, l.offset) == if |c.encText(l.rec.key)| <= MAX_KEY_LEN then Some(l.rec) else None
    decreases |file| - off
  {
    hide FrameAt;
    if i > 0 {
      ScanReads(c, file, off + FrameAt(c, file, off).len, i - 1);
    }
  }
}
