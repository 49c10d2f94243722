/**
 * Looking for valid frames stranded behind a tear: which bytes are a credible frame, the forward
 * scan for a resync point, and the run of frames collected from it.
 */
module Resync {
  import opened Wrappers
  import opened Bytes
  import opened Types
  import opened Frames

  const MAX_SALVAGE_PAYLOAD: nat := 512 * 1024 * 1024
  const RESYNC_CHUNK: nat := 1024 * 1024
  const YEAR_2000_MS: int := 946_684_800_000
  const DAY_MS: int := 86_400_000

  datatype Stranded = Stranded(offset: nat, len: nat, seqId: nat)

  predicate PlausibleShape(h: FrameHeader, now: int)
  {
    && h.seqId != 0
    && YEAR_2000_MS <= h.timestamp <= now + DAY_MS
    && h.typeTag <= 9
    && (h.flags == FLAG_ACTIVE || h.flags == FLAG_TOMBSTONE)
    && 4 <= h.payloadLen <= MAX_SALVAGE_PAYLOAD
  }

  /** `validate_frame_at`: the length and sequence id of the credible frame at `off`, if there is one. */
  function ValidFrame(c: Codec, file: bytes, off: nat, now: int): (r: Option<Stranded>)
    ensures r.Some? ==> r.value.offset == off && r.value.len >= HEADER_LEN + 4 && off + r.value.len <= |file|
  {
    if off + HEADER_LEN > |file| then None else
    var h := DecodeHeader(file[off..off + HEADER_LEN]);
    if !PlausibleShape(h, now) || off + HEADER_LEN + h.payloadLen > |file| then None else
    if SoundPayload(c, file[off + HEADER_LEN..off + HEADER_LEN + h.payloadLen], h.crc) then
      Some(Stranded(off, HEADER_LEN + h.payloadLen, h.seqId))
    else None
  }

  /** The names fit, are UTF-8, and the checksum is right; the value is not looked at. */
  predicate SoundPayload(c: Codec, p: bytes, crc: nat)
    requires |p| >= 4
  {
    var streamLen := FromBE(p[0..2]);
    4 + streamLen <= |p|
    && var keyLen := FromBE(p[2 + streamLen..4 + streamLen]);
       && 4 + streamLen + keyLen <= |p|
       && c.decText(p[2..2 + streamLen]).Some?
       && c.decText(p[4 + streamLen..4 + streamLen + keyLen]).Some?
       && keyLen <= MAX_KEY_LEN
       && c.crc(p) == crc
  }

  /** `tail_looks_torn`: end of file, or the beginning of a frame that does not fit. */
  predicate TailLooksTorn(file: bytes, off: nat, now: int)
  {
    off >= |file| || |file| - off < HEADER_LEN ||
    var h := DecodeHeader(file[off..off + HEADER_LEN]);
    PlausibleShape(h, now) && off + HEADER_LEN + h.payloadLen > |file|
  }

  /**
   * A resync point: a valid frame newer than `minSeq` that is followed by a second valid frame or by
   * a torn one. Sequence order is only asked of segments outside the compaction range (`minSeq.Some?`).
   */
  predicate Credible(c: Codec, file: bytes, pos: nat, now: int, minSeq: Option<nat>)
  {
    var f := ValidFrame(c, file, pos, now);
    && f.Some?
    && (minSeq.Some? ==> f.value.seqId > minSeq.value)
    && var next := ValidFrame(c, file, pos + f.value.len, now);
       ((next.Some? && (minSeq.Some? ==> next.value.seqId > f.value.seqId))
        || TailLooksTorn(file, pos + f.value.len, now))
  }

  /** The first resync point at or after `pos`. */
  function FirstCredible(c: Codec, file: bytes, pos: nat, now: int, minSeq: Option<nat>): (r: Option<nat>)
    ensures r.Some? ==> pos <= r.value && Credible(c, file, r.value, now, minSeq)
    ensures forall q :: pos <= q < (if r.Some? then r.value else |file|) ==> !Credible(c, file, q, now, minSeq)
    decreases |file| - pos
  {
    if pos + HEADER_LEN > |file| then None
    else if Credible(c, file, pos, now, minSeq) then Some(pos)
    else FirstCredible(c, file, pos + 1, now, minSeq)
  }

  /** The test `find_resync` runs on one position: cheap header checks first, then full validation. */
  method TestCandidate(c: Codec, file: bytes, pos: nat, header: bytes, now: int, minSeq: Option<nat>) returns (credible: bool)
    requires pos + HEADER_LEN <= |file| && header == file[pos..pos + HEADER_LEN]
    ensures credible == Credible(c, file, pos, now, minSeq)
  {
    hide FromBE;
    var h := DecodeHeader(header);
    if !PlausibleShape(h, now) || pos + HEADER_LEN + h.payloadLen > |file| {
      return false;
    }
    var frame := ValidFrame(c, file, pos, now);
    if frame.None? || (minSeq.Some? && frame.value.seqId <= minSeq.value) {
      return false;
    }
    hide ValidFrame;
    var next := pos + frame.value.len;
    var following := ValidFrame(c, file, next, now);
    var nextValid := following.Some? && (minSeq.None? || following.value.seqId > frame.value.seqId);
    return nextValid || TailLooksTorn(file, next, now);
  }

  /** `find_resync`: a bytewise scan over a sliding read window. */
  method FindResync(c: Codec, file: bytes, start: nat, now: int, minSeq: Option<nat>) returns (r: Option<nat>)
    ensures r == FirstCredible(c, file, start, now, minSeq)
  {
    hide Credible;
    if start + HEADER_LEN > |file| {
      return None;
    }
    var chunkStart: nat := start;
    var chunk := file[start..start + Min(RESYNC_CHUNK, |file| - start)];
    var pos: nat := start;
    while pos <= |file| - HEADER_LEN
      invariant start <= pos <= |file| - HEADER_LEN + 1
      invariant chunkStart <= pos && chunkStart + |chunk| <= |file|
      invariant chunk == file[chunkStart..chunkStart + |chunk|]
      invariant FirstCredible(c, file, start, now, minSeq) == FirstCredible(c, file, pos, now, minSeq)
    {
      if pos + HEADER_LEN > chunkStart + |chunk| {
        chunk := file[pos..pos + Min(RESYNC_CHUNK, |file| - pos)];
        chunkStart := pos;
      }
      var i := pos - chunkStart;
      var header := chunk[i..i + HEADER_LEN];
      SubSlice(file, chunkStart, chunkStart + |chunk|, i, i + HEADER_LEN);
      var credible := TestCandidate(c, file, pos, header, now, minSeq);
      if credible {
        return Some(pos);
      }
      pos := pos + 1;
    }
    return None;
  }

  /** The run of valid frames from `pos`; with `minSeq` given, ids must keep increasing past it. */
  function Run(c: Codec, file: bytes, pos: nat, now: int, minSeq: Option<nat>, last: nat): (fs: seq<Stranded>)
    decreases |file| - pos
  {
    var f := ValidFrame(c, file, pos, now);
    if f.None? || (minSeq.Some? && (f.value.seqId <= minSeq.value || f.value.seqId <= last)) then []
    else [f.value] + Run(c, file, pos + f.value.len, now, minSeq, f.value.seqId)
  }

  function RunEnd(pos: nat, fs: seq<Stranded>): nat
    decreases |fs|
  {
    if fs == [] then pos else RunEnd(pos + fs[0].len, fs[1..])
  }

  function LastSeq(minSeq: Option<nat>): nat
  {
    if minSeq.Some? then minSeq.value else 0
  }

  /** `collect_stranded`. */
  method CollectStranded(c: Codec, file: bytes, resync: nat, now: int, minSeq: Option<nat>) returns (frames: seq<Stranded>, end: nat)
    ensures frames == Run(c, file, resync, now, minSeq, LastSeq(minSeq))
    ensures end == RunEnd(resync, frames)
  {
    hide ValidFrame;
    frames := [];
    var pos: nat := resync;
    var lastSeq := LastSeq(minSeq);
    while true
      invariant resync <= pos
      invariant Run(c, file, resync, now, minSeq, LastSeq(minSeq)) == frames + Run(c, file, pos, now, minSeq, lastSeq)
      invariant RunEnd(resync, frames) == pos
      decreases |file| - pos
    {
      var f := ValidFrame(c, file, pos, now);
      if f.None? {
        break;
      }
      if minSeq.Some? && (f.value.seqId <= minSeq.value || f.value.seqId <= lastSeq) {
        break;
      }
      RunEndSnoc(resync, frames, f.value);
      frames := frames + [f.value];
      lastSeq := f.value.seqId;
      pos := pos + f.value.len;
    }
    assert frames + [] == frames;
    end := pos;
  }

  lemma {:induction false} RunEndSnoc(pos: nat, fs: seq<Stranded>, f: Stranded)
    ensures RunEnd(pos, fs + [f]) == RunEnd(pos, fs) + f.len
    decreases |fs|
  {
    if fs == [] {
      assert fs + [f] == [f];
    } else {
      RunEndSnoc(pos + fs[0].len, fs[1..], f);
      assert (fs + [f])[1..] == fs[1..] + [f];
    }
  }

  /** The frames `handle_tear` finds behind a tear at `tear`, and where they start. */
  function StrandedAfter(c: Codec, file: bytes, tear: nat, now: int, minSeq: Option<nat>): seq<Stranded>
  {
    var resync := FirstCredible(c, file, tear + 1, now, minSeq);
    if resync.None? then [] else Run(c, file, resync.value, now, minSeq, LastSeq(minSeq))
  }
}
