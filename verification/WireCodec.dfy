/**
 * Wire framing: an incremental decoder over a buffer that grows chunk by chunk. Version 1 frames are
 * `[version][length][discriminator][payload]`; legacy frames have no version byte.
 */
module WireCodec {
  import opened Wrappers
  import opened Bytes
  import opened Types

  datatype LivenFrame =
    | Query(text: string)
    | Records(records: seq<Record>)
    | Connect(clientId: string, protocolVersion: Option<byte>)
    | Ack
    | Failure(message: string)
    | Vector(elems: seq<i8>)

  /** MessagePack, with the round trip assumed of it. */
  datatype MsgPack = MsgPack(enc: LivenFrame -> bytes, dec: bytes -> Option<LivenFrame>)
  {
    ghost predicate Lawful()
    {
      forall f :: dec(enc(f)) == Some(f)
    }
  }

  const VERSION: byte := 1
  const MESSAGE: byte := 2
  const VECTOR: byte := 3

  function VectorBytes(v: seq<i8>): (p: bytes)
    ensures |p| == |v| && forall i :: 0 <= i < |v| ==> ByteToI8(p[i]) == v[i]
  {
    seq(|v|, i requires 0 <= i < |v| => I8ToByte(v[i]))
  }

  // ---------- Encoding ----------

  /** Discriminator and payload. */
  function Body(m: MsgPack, f: LivenFrame): bytes
  {
    if f.Vector? then [VECTOR] + VectorBytes(f.elems) else [MESSAGE] + m.enc(f)
  }

  function EncodeV1(m: MsgPack, f: LivenFrame): bytes
  {
    [VERSION] + BE(|Body(m, f)|, 4) + Body(m, f)
  }

  /** The length field is `u32`. */
  predicate Fits(m: MsgPack, f: LivenFrame)
  {
    |Body(m, f)| < U32
  }

  function EncodeStream(m: MsgPack, fs: seq<LivenFrame>): bytes
  {
    if fs == [] then [] else EncodeV1(m, fs[0]) + EncodeStream(m, fs[1..])
  }

  // ---------- Decoding ----------

  /** What a complete frame's payload decodes to. */
  function DecodeBody(m: MsgPack, p: bytes): Option<LivenFrame>
  {
    if p == [] then None
    else if p[0] == VECTOR then Some(LivenFrame.Vector(seq(|p| - 1, i requires 0 <= i < |p| - 1 => ByteToI8(p[i + 1]))))
    else if p[0] == MESSAGE then m.dec(p[1..])
    else m.dec(p)
  }

  predicate IsV1(data: bytes)
  {
    data != [] && (data[0] == 0 || data[0] == 1)
  }

  function HeaderLen(data: bytes): nat
  {
    if IsV1(data) then 5 else 4
  }

  /** The length of the first frame, header included, once its header is there. */
  function FrameLen(data: bytes): nat
    requires |data| >= HeaderLen(data)
  {
    HeaderLen(data) + FromBE(data[HeaderLen(data) - 4..HeaderLen(data)])
  }

  predicate Incomplete(data: bytes)
  {
    |data| < HeaderLen(data) || |data| < FrameLen(data)
  }

  class Buffer {
    var data: bytes

    constructor ()
      ensures data == []
    {
      data := [];
    }

    method Advance(n: nat)
      requires n <= |data|
      modifies this
      ensures data == old(data[n..])
    {
      data := data[n..];
    }

    method SplitTo(n: nat) returns (head: bytes)
      requires n <= |data|
      modifies this
      ensures head == old(data[..n]) && data == old(data[n..])
    {
      head := data[..n];
      data := data[n..];
    }

    method Extend(more: bytes)
      modifies this
      ensures data == old(data) + more
    {
      data := data + more;
    }
  }

  method Encode(m: MsgPack, f: LivenFrame, dst: Buffer)
    modifies dst
    ensures dst.data == old(dst.data) + EncodeV1(m, f)
  {
    hide EncodeV1, BE;
    if f.Vector? {
      PutHeader(dst, 1 + |f.elems|, VECTOR);
      PutElements(dst, f.elems);
      Assemble(m, f, old(dst.data), VECTOR, VectorBytes(f.elems));
    } else {
      var serialized := m.enc(f);
      PutHeader(dst, 1 + |serialized|, MESSAGE);
      dst.Extend(serialized);
      Assemble(m, f, old(dst.data), MESSAGE, serialized);
    }
  }

  /** Version, payload length (as `u32`) and discriminator. */
  method PutHeader(dst: Buffer, len: nat, discriminator: byte)
    modifies dst
    ensures dst.data == old(dst.data) + [VERSION] + BE(len, 4) + [discriminator]
  {
    dst.Extend([VERSION]);
    dst.Extend(BE(len, 4));
    dst.Extend([discriminator]);
  }

  method PutElements(dst: Buffer, v: seq<i8>)
    modifies dst
    ensures dst.data == old(dst.data) + VectorBytes(v)
  {
    ghost var body := VectorBytes(v);
    for i := 0 to |v|
      invariant dst.data == old(dst.data) + body[..i]
    {
      dst.Extend([I8ToByte(v[i])]);
      assert body[..i + 1] == body[..i] + [I8ToByte(v[i])];
    }
    assert body[..|v|] == body;
  }

  lemma {:induction false} Assemble(m: MsgPack, f: LivenFrame, before: bytes, discriminator: byte, payload: bytes)
    requires Body(m, f) == [discriminator] + payload
    ensures before + [VERSION] + BE(1 + |payload|, 4) + [discriminator] + payload == before + EncodeV1(m, f)
  {
    hide BE, Body;
  }

  /**
   * One call: nothing is consumed while the first frame is incomplete; a complete frame is taken off the
   * buffer whole, and decoded or reported as an error.
   */
  method Decode(m: MsgPack, src: Buffer) returns (r: Result<Option<LivenFrame>, string>)
    modifies src
    ensures Incomplete(old(src.data)) ==> src.data == old(src.data) && r == Ok(None)
    ensures !Incomplete(old(src.data)) ==>
      var d := old(src.data);
      && src.data == d[FrameLen(d)..]
      && |src.data| < |d|
      && match DecodeBody(m, d[HeaderLen(d)..FrameLen(d)])
         case Some(f) => r == Ok(Some(f))
         case None => r.Err?
  {
    if src.data == [] {
      return Ok(None);
    }
    var header := HeaderLen(src.data);
    if |src.data| < header {
      return Ok(None);
    }
    var len := FromBE(src.data[header - 4..header]);
    if |src.data| < header + len {
      return Ok(None);
    }
    src.Advance(header);
    var payload := src.SplitTo(len);
    assert payload == old(src.data)[header..header + len];
    var f := DecodeBody(m, payload);
    return if f.Some? then Ok(Some(f.value)) else Err("invalid frame");
  }

  // ---------- Round trips ----------

  /** A buffer that starts with a whole encoded frame. */
  lemma {:induction false} WholeFrame(m: MsgPack, f: LivenFrame, rest: bytes)
    requires m.Lawful() && Fits(m, f)
    ensures
      var d := EncodeV1(m, f) + rest;
      && !Incomplete(d) && FrameLen(d) == |EncodeV1(m, f)|
      && d[FrameLen(d)..] == rest
      && DecodeBody(m, d[HeaderLen(d)..FrameLen(d)]) == Some(f)
  {
    var b := Body(m, f);
    var d := EncodeV1(m, f) + rest;
    HeaderReads(m, f, rest);
    assert d[5..5 + |b|] == b;
    assert DecodeBody(m, Body(m, f)) == Some(f) by {
      var p := Body(m, f);
      if f.Vector? {
        assert seq(|p| - 1, i requires 0 <= i < |p| - 1 => ByteToI8(p[i + 1])) == f.elems;
      } else {
        assert p[1..] == m.enc(f);
      }
    }
    assert d[|EncodeV1(m, f)|..] == rest;
  }

  lemma {:induction false} HeaderReads(m: MsgPack, f: LivenFrame, rest: bytes)
    requires Fits(m, f)
    ensures
      var d := EncodeV1(m, f) + rest;
      |d| >= 5 && IsV1(d) && FrameLen(d) == 5 + |Body(m, f)| == |EncodeV1(m, f)|
  {
    var b := Body(m, f);
    var d := EncodeV1(m, f) + rest;
    WidthLimits();
    BERoundTrip(|b|, 4);
    assert d[1..5] == BE(|b|, 4);
  }

  /** A proper prefix of an encoded frame is incomplete. */
  lemma {:induction false} CutFrame(m: MsgPack, f: LivenFrame, d: bytes)
    requires Fits(m, f) && d < EncodeV1(m, f)
    ensures Incomplete(d)
  {
    if |d| >= 5 {
      HeaderReads(m, f, []);
      var e := EncodeV1(m, f);
      assert e + [] == e;
      assert d[1..5] == e[1..5] && d[0] == e[0];
    } else if d != [] {
      assert d[0] == EncodeV1(m, f)[0];
    }
  }

  /** Decode until no whole frame is left. */
  method Drain(m: MsgPack, src: Buffer, ghost left: seq<LivenFrame>) returns (got: seq<LivenFrame>)
    requires m.Lawful() && (forall f :: f in left ==> Fits(m, f)) && src.data <= EncodeStream(m, left)
    modifies src
    ensures |got| <= |left| && got == left[..|got|]
    ensures EncodeStream(m, left[..|got|]) + src.data == old(src.data)
    ensures src.data <= EncodeStream(m, left[|got|..])
    ensures |got| < |left| ==> src.data < EncodeV1(m, left[|got|])
  {
    hide EncodeV1, Fits;
    got := [];
    var more := true;
    NoFrames(m, left, src.data);
    while more
      invariant |got| <= |left| && got == left[..|got|]
      invariant EncodeStream(m, left[..|got|]) + src.data == old(src.data)
      invariant src.data <= EncodeStream(m, left[|got|..])
      invariant !more ==> Incomplete(src.data)
      decreases |src.data|, more
    {
      ghost var before := src.data;
      ghost var rest := left[|got|..];
      StreamHead(m, rest, before);
      var r := Decode(m, src);
      if r.Ok? && r.value.Some? {
        assert rest != [] && r.value.value == rest[0];
        StreamSnoc(m, left, |got|, src.data);
        got := got + [r.value.value];
      } else {
        more := false;
      }
    }
    StreamHead(m, left[|got|..], src.data);
  }

  lemma {:induction false} NoFrames(m: MsgPack, left: seq<LivenFrame>, d: bytes)
    ensures left[..0] == [] && left[0..] == left && EncodeStream(m, left[..0]) + d == d
  {
  }

  /** The start of a stream is either cut inside the first frame or begins with it. */
  lemma {:induction false} StreamHead(m: MsgPack, fs: seq<LivenFrame>, d: bytes)
    requires m.Lawful() && (forall f :: f in fs ==> Fits(m, f)) && d <= EncodeStream(m, fs)
    ensures fs == [] ==> Incomplete(d)
    ensures fs != [] ==>
      if |d| < |EncodeV1(m, fs[0])| then Incomplete(d) && d < EncodeV1(m, fs[0])
      else
        && !Incomplete(d) && FrameLen(d) == |EncodeV1(m, fs[0])|
        && DecodeBody(m, d[HeaderLen(d)..FrameLen(d)]) == Some(fs[0])
        && d == EncodeV1(m, fs[0]) + d[FrameLen(d)..]
        && d[FrameLen(d)..] <= EncodeStream(m, fs[1..])
  {
    if fs != [] {
      hide Fits, Incomplete, DecodeBody;
      var e, t := EncodeV1(m, fs[0]), EncodeStream(m, fs[1..]);
      hide EncodeV1;
      assert EncodeStream(m, fs) == e + t;
      if |d| < |e| {
        assert d == (e + t)[..|d|] == e[..|d|];
        CutFrame(m, fs[0], d);
      } else {
        var rest := d[|e|..];
        assert d == (e + t)[..|d|];
        assert d[..|e|] == e;
        assert rest == t[..|rest|];
        assert d == e + rest;
        WholeFrame(m, fs[0], rest);
      }
    }
  }

  lemma {:induction false} StreamSnoc(m: MsgPack, fs: seq<LivenFrame>, n: nat, rest: bytes)
    requires n < |fs|
    ensures fs[n..] == [fs[n]] + fs[n + 1..] && fs[n..][1..] == fs[n + 1..] && fs[..n + 1] == fs[..n] + [fs[n]]
    ensures EncodeStream(m, fs[..n + 1]) + rest == EncodeStream(m, fs[..n]) + (EncodeV1(m, fs[n]) + rest)
  {
    hide EncodeV1;
    StreamConcat(m, fs[..n], [fs[n]]);
    assert fs[..n + 1] == fs[..n] + [fs[n]];
    assert EncodeStream(m, [fs[n]]) == EncodeV1(m, fs[n]) by {
      assert [fs[n]][1..] == [];
      assert EncodeV1(m, fs[n]) + [] == EncodeV1(m, fs[n]);
    }
  }

  lemma {:induction false} StreamConcat(m: MsgPack, a: seq<LivenFrame>, b: seq<LivenFrame>)
    ensures EncodeStream(m, a + b) == EncodeStream(m, a) + EncodeStream(m, b)
    decreases |a|
  {
    hide EncodeV1;
    if a == [] {
      assert a + b == b;
    } else {
      StreamConcat(m, a[1..], b);
      assert (a + b)[1..] == a[1..] + b;
    }
  }

  function Join(chunks: seq<bytes>): bytes
  {
    if chunks == [] then [] else Join(chunks[..|chunks| - 1]) + chunks[|chunks| - 1]
  }

  /**
   * However the encoded frames are cut into chunks, feeding the chunks one after the other yields exactly
   * those frames in order, and leaves nothing behind. A stream cut short yields the frames wholly inside.
   */
  method Receive(m: MsgPack, chunks: seq<bytes>, ghost fs: seq<LivenFrame>) returns (got: seq<LivenFrame>)
    requires m.Lawful() && (forall f :: f in fs ==> Fits(m, f))
    requires Join(chunks) <= EncodeStream(m, fs)
    ensures |got| <= |fs| && got == fs[..|got|]
    ensures EncodeStream(m, got) <= Join(chunks)
    ensures |got| < |fs| ==> |Join(chunks)| < |EncodeStream(m, fs[..|got| + 1])|
    ensures Join(chunks) == EncodeStream(m, fs) ==> got == fs
  {
    hide EncodeV1, Fits, EncodeStream;
    var src := new Buffer();
    got := [];
    EmptyStream(m, fs);
    assert chunks[..0] == [];
    for i := 0 to |chunks|
      invariant |got| <= |fs| && got == fs[..|got|]
      invariant EncodeStream(m, fs[..|got|]) + src.data == Join(chunks[..i])
      invariant |got| < |fs| ==> src.data < EncodeV1(m, fs[|got|]) || src.data == []
      invariant src.data <= EncodeStream(m, fs[|got|..])
    {
      assert chunks[..i + 1][..i] == chunks[..i];
      JoinPrefix(chunks, i + 1);
      Feed(m, fs, |got|, src.data, chunks[i], Join(chunks[..i]), Join(chunks));
      src.Extend(chunks[i]);
      ghost var n, before := |got|, src.data;
      ghost var done := Join(chunks[..i]);
      var more := Drain(m, src, fs[n..]);
      Fed(m, fs, n, |more|, before, src.data);
      assert fs[n..][..|more|] == fs[n..n + |more|];
      got := got + more;
    }
    assert chunks[..|chunks|] == chunks;
    Finished(m, fs, |got|, src.data);
  }

  lemma {:induction false} EmptyStream(m: MsgPack, fs: seq<LivenFrame>)
    ensures fs[..0] == [] && EncodeStream(m, []) == [] && fs[0..] == fs
  {
  }

  lemma {:induction false} JoinPrefix(chunks: seq<bytes>, n: nat)
    requires n <= |chunks|
    ensures Join(chunks[..n]) <= Join(chunks)
    decreases |chunks| - n
  {
    if n < |chunks| {
      JoinPrefix(chunks, n + 1);
      assert chunks[..n + 1][..n] == chunks[..n];
    } else {
      assert chunks[..n] == chunks;
    }
  }

  /** The buffer, with one more chunk, is still the start of what is left of the stream. */
  lemma {:induction false} Feed(m: MsgPack, fs: seq<LivenFrame>, n: nat, data: bytes, chunk: bytes, before: bytes, all: bytes)
    requires n <= |fs| && EncodeStream(m, fs[..n]) + data == before && before + chunk <= all <= EncodeStream(m, fs)
    ensures data + chunk <= EncodeStream(m, fs[n..])
    ensures EncodeStream(m, fs[..n]) + (data + chunk) == before + chunk
  {
    hide EncodeStream;
    StreamConcat(m, fs[..n], fs[n..]);
    assert fs == fs[..n] + fs[n..];
    var head, tail, x := EncodeStream(m, fs[..n]), EncodeStream(m, fs[n..]), data + chunk;
    assert head + x == before + chunk;
    assert head + x <= head + tail;
    assert x == (head + x)[|head|..] == (head + tail)[|head|..|head| + |x|] == tail[..|x|];
  }

  lemma {:induction false} Fed(m: MsgPack, fs: seq<LivenFrame>, n: nat, k: nat, before: bytes, data: bytes)
    requires n + k <= |fs| && EncodeStream(m, fs[n..][..k]) + data == before
    ensures fs[..n + k] == fs[..n] + fs[n..][..k] && fs[n..][k..] == fs[n + k..]
    ensures EncodeStream(m, fs[..n + k]) + data == EncodeStream(m, fs[..n]) + before
  {
    hide EncodeStream;
    assert fs[..n + k] == fs[..n] + fs[n..][..k];
    StreamConcat(m, fs[..n], fs[n..][..k]);
  }

  lemma {:induction false} Finished(m: MsgPack, fs: seq<LivenFrame>, n: nat, data: bytes)
    requires n <= |fs| && (n < |fs| ==> data < EncodeV1(m, fs[n]) || data == [])
    ensures n < |fs| ==> |EncodeStream(m, fs[..n]) + data| < |EncodeStream(m, fs[..n + 1])|
    ensures n < |fs| ==> |EncodeStream(m, fs[..n + 1])| <= |EncodeStream(m, fs)|
  {
    if n < |fs| {
      assert |data| < |EncodeV1(m, fs[n])|;
      hide EncodeV1, EncodeStream;
      assert |EncodeStream(m, fs[..n + 1])| == |EncodeStream(m, fs[..n])| + |EncodeV1(m, fs[n])| by {
        StreamSnoc(m, fs, n, []);
        assert EncodeStream(m, fs[..n + 1]) + [] == EncodeStream(m, fs[..n + 1]);
        assert EncodeV1(m, fs[n]) + [] == EncodeV1(m, fs[n]);
      }
      StreamConcat(m, fs[..n + 1], fs[n + 1..]);
      assert fs == fs[..n + 1] + fs[n + 1..];
    }
  }

  // ---------- Legacy frames ----------

  /** A legacy frame is told apart from a version 1 frame exactly when its length is at least 2^25. */
  lemma {:induction false} LegacyRecognised(len: nat, payload: bytes)
    requires len < U32
    ensures !IsV1(BE(len, 4) + payload) <==> len >= 0x200_0000
  {
    assert BE(len, 4)[0] == len / 256 / 256 / 256 % 256 by {
      assert BE(len, 4) == BE(len / 256, 3) + [len % 256];
      assert BE(len / 256, 3) == BE(len / 256 / 256, 2) + [len / 256 % 256];
      assert BE(len / 256 / 256, 2) == BE(len / 256 / 256 / 256, 1) + [len / 256 / 256 % 256];
      assert BE(len / 256 / 256 / 256, 1) == BE(len / 256 / 256 / 256 / 256, 0) + [len / 256 / 256 / 256 % 256];
    }
  }

  /** The headers the decoder takes for a payload of `len` bytes: a version byte and the length, or a legacy length. */
  predicate IsHeader(head: bytes, len: nat)
  {
    head == [0] + BE(len, 4) || head == [VERSION] + BE(len, 4) || (head == BE(len, 4) && len >= 0x200_0000)
  }

  /**
   * A whole frame behind any such header is taken off and nothing else. Without a discriminator it decodes to the
   * message it holds, unless that begins like a discriminator; with nothing in it, it is rejected.
   */
  lemma {:induction false} UntaggedFrame(m: MsgPack, head: bytes, p: bytes, rest: bytes)
    requires m.Lawful() && |p| < U32 && IsHeader(head, |p|)
    ensures
      var d := head + p + rest;
      && !Incomplete(d) && HeaderLen(d) == |head| && FrameLen(d) == |head| + |p|
      && d[HeaderLen(d)..FrameLen(d)] == p && d[FrameLen(d)..] == rest
    ensures p == [] ==> DecodeBody(m, p).None?
    ensures forall f :: p == m.enc(f) && p != [] && p[0] != VECTOR && p[0] != MESSAGE ==> DecodeBody(m, p) == Some(f)
  {
    HeaderIs(head, |p|, p + rest);
    hide IsHeader, FromBE;
    var d := head + p + rest;
    assert d == head + (p + rest);
    assert HeaderLen(d) == |head| && d[|head| - 4..|head|] == head[|head| - 4..];
    assert d[|head|..|head| + |p|] == p && d[|head| + |p|..] == rest;
  }

  lemma {:induction false} HeaderIs(head: bytes, len: nat, more: bytes)
    requires len < U32 && IsHeader(head, len)
    ensures |head| == 4 || |head| == 5
    ensures IsV1(head + more) <==> |head| == 5
    ensures FromBE(head[|head| - 4..]) == len
  {
    LegacyRecognised(len, more);
    WidthLimits();
    BERoundTrip(len, 4);
    hide BE, FromBE;
    assert head[|head| - 4..] == BE(len, 4);
    assert |head| == 5 ==> (head + more)[0] == head[0];
  }
}
