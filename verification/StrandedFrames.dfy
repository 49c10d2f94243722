/**
 * Which frames the search behind a tear finds: every frame the engine has written that passes the plausibility
 * limits, and, behind damage, exactly the run of frames that ends the file.
 */
module StrandedFrames {
  import opened Wrappers
  import opened Bytes
  import opened Types
  import opened Frames
  import opened Recovery
  import opened Resync

  // ---------- One frame ----------

  /** A record whose frame can be recovered: numbered, stamped between 2000 and tomorrow, and of at most 512 MB. */
  ghost predicate Plausible(c: Codec, now: int, r: Record)
  {
    r.seqId > 0 && YEAR_2000_MS <= r.timestamp <= now + DAY_MS && |RecordPayload(c, r)| <= MAX_SALVAGE_PAYLOAD
  }

  lemma {:induction false} TagOk(v: DataValue)
    ensures v.TypeTag() <= 9
  {
  }

  lemma {:induction false} FrameParts(c: Codec, r: Record, file: bytes, off: nat)
    requires off + |EncodeFrame(c, r)| <= |file| && file[off..off + |EncodeFrame(c, r)|] == EncodeFrame(c, r)
    ensures |EncodeFrame(c, r)| == HEADER_LEN + |RecordPayload(c, r)|
    ensures file[off..off + HEADER_LEN] == Header(c, r)
    ensures file[off + HEADER_LEN..off + HEADER_LEN + |RecordPayload(c, r)|] == RecordPayload(c, r)
  {
    hide Header, Payload;
    var f := EncodeFrame(c, r);
    SubSlice(file, off, off + |f|, 0, HEADER_LEN);
    SubSlice(file, off, off + |f|, HEADER_LEN, |f|);
    assert f[0..HEADER_LEN] == Header(c, r);
    assert f[HEADER_LEN..|f|] == RecordPayload(c, r);
  }

  lemma {:induction false} PayloadParts(c: Codec, r: Record)
    requires Writable(c, r)
    ensures
      var p, s, k := RecordPayload(c, r), c.encText(r.stream), c.encText(r.key);
      && |p| >= 4 + |s| + |k|
      && FromBE(p[0..2]) == |s| && p[2..2 + |s|] == s
      && FromBE(p[2 + |s|..4 + |s|]) == |k| && p[4 + |s|..4 + |s| + |k|] == k
  {
    WidthLimits();
    var p, s, k := RecordPayload(c, r), c.encText(r.stream), c.encText(r.key);
    BERoundTrip(|s|, 2);
    BERoundTrip(|k|, 2);
    assert p[0..2] == BE(|s|, 2);
    assert p[2..2 + |s|] == s;
    assert p[2 + |s|..4 + |s|] == BE(|k|, 2);
    assert p[4 + |s|..4 + |s| + |k|] == k;
  }

  /** A frame the engine has written is a valid frame, wherever it lies, if and only if its record is plausible. */
  lemma {:induction false} ValidExact(c: Codec, file: bytes, off: nat, now: int, r: Record)
    requires c.Lawful() && Writable(c, r)
    requires off + |EncodeFrame(c, r)| <= |file| && file[off..off + |EncodeFrame(c, r)|] == EncodeFrame(c, r)
    ensures ValidFrame(c, file, off, now) ==
      if Plausible(c, now, r) then Some(Stranded(off, |EncodeFrame(c, r)|, r.seqId)) else None
  {
    hide EncodeFrame, Header, RecordPayload, DecodeHeader, SoundPayload, PlausibleShape, Plausible;
    FrameParts(c, r, file, off);
    HeaderRoundTrip(c, r);
    PlausibleHeader(c, now, r);
    WrittenIsSound(c, r);
  }

  lemma {:induction false} WrittenIsSound(c: Codec, r: Record)
    requires c.Lawful() && Writable(c, r)
    ensures |RecordPayload(c, r)| >= 4 && SoundPayload(c, RecordPayload(c, r), c.crc(RecordPayload(c, r)))
  {
    PayloadParts(c, r);
    hide Payload, FromBE;
  }

  lemma {:induction false} PlausibleHeader(c: Codec, now: int, r: Record)
    requires Writable(c, r)
    ensures
      var p := RecordPayload(c, r);
      PlausibleShape(FrameHeader(r.seqId, r.timestamp, r.typeTag, r.flags, |p|, c.crc(p)), now) <==> Plausible(c, now, r)
  {
    TagOk(r.value);
    PayloadParts(c, r);
    hide Payload, FromBE, DataValue.TypeTag;
  }

  /** What is found is whole and undamaged: replay takes the same frame, or at most cannot decode its value. */
  lemma {:induction false} ValidIsWhole(c: Codec, file: bytes, off: nat, now: int)
    requires ValidFrame(c, file, off, now).Some?
    ensures off + HEADER_LEN <= |file|
    ensures
      var f := ValidFrame(c, file, off, now).value;
      match FrameAt(c, file, off)
      case Good(r, len) =>
        && f == Stranded(off, len, r.seqId) && r.seqId > 0 && YEAR_2000_MS <= r.timestamp <= now + DAY_MS
        && r.typeTag <= 9 && (r.flags == FLAG_ACTIVE || r.flags == FLAG_TOMBSTONE) && len <= HEADER_LEN + MAX_SALVAGE_PAYLOAD
      case Bad(kind, seqId) => kind == ParseTear && f.seqId == seqId
  {
    hide DecodePayload, FromBE;
  }

  // ---------- The run behind a tear ----------

  ghost predicate AllPlausible(c: Codec, now: int, rs: seq<Record>)
  {
    forall i :: 0 <= i < |rs| ==> Plausible(c, now, rs[i])
  }

  /** Ids increase, from above `last`. */
  ghost predicate AscendFrom(last: nat, rs: seq<Record>)
    decreases |rs|
  {
    rs != [] ==> last < rs[0].seqId && AscendFrom(rs[0].seqId, rs[1..])
  }

  /** The end of a file: nothing, or the beginning of one more frame that was torn. */
  ghost predicate TornEnd(c: Codec, now: int, end: bytes)
  {
    end == [] || exists r, t :: Writable(c, r) && Plausible(c, now, r) && 0 < t < |EncodeFrame(c, r)| && end == EncodeFrame(c, r)[..t]
  }

  /** The frames of `rs` laid out from `base`, as the search reports them. */
  ghost function Reported(c: Codec, rs: seq<Record>, base: nat): (fs: seq<Stranded>)
    ensures |fs| == |rs|
  {
    if rs == [] then [] else
    [Stranded(base, |EncodeFrame(c, rs[0])|, rs[0].seqId)] + Reported(c, rs[1..], base + |EncodeFrame(c, rs[0])|)
  }

  /** At such an end no frame starts, and it looks torn. */
  lemma {:induction false} EndIsTorn(c: Codec, file: bytes, off: nat, now: int)
    requires c.Lawful() && off <= |file| && TornEnd(c, now, file[off..])
    ensures ValidFrame(c, file, off, now).None? && TailLooksTorn(file, off, now)
  {
    var end := file[off..];
    if |end| >= HEADER_LEN {
      var r, t :| Writable(c, r) && Plausible(c, now, r) && 0 < t < |EncodeFrame(c, r)| && end == EncodeFrame(c, r)[..t];
      assert file[off..off + HEADER_LEN] == end[..HEADER_LEN] == Header(c, r);
      HeaderRoundTrip(c, r);
      TagOk(r.value);
      PayloadParts(c, r);
      hide Header, Payload, DecodeHeader, FromBE, DataValue.TypeTag;
    }
  }

  lemma {:induction false} LogHead(c: Codec, file: bytes, off: nat, rs: seq<Record>, end: bytes)
    requires rs != [] && off <= |file| && file[off..] == EncodeAll(c, rs) + end
    ensures
      var f := EncodeFrame(c, rs[0]);
      && off + |f| <= |file| && file[off..off + |f|] == f
      && file[off + |f|..] == EncodeAll(c, rs[1..]) + end
      && EncodeAll(c, rs) == f + EncodeAll(c, rs[1..])
  {
    hide EncodeFrame;
    var f, rest := EncodeFrame(c, rs[0]), EncodeAll(c, rs[1..]);
    assert EncodeAll(c, rs) == f + rest;
    hide EncodeAll;
    var t := file[off..];
    assert t == f + (rest + end);
    assert t[..|f|] == f && t[|f|..] == rest + end;
    assert file[off..off + |f|] == t[..|f|] && file[off + |f|..] == t[|f|..];
  }

  lemma {:induction false} RunHead(c: Codec, file: bytes, off: nat, now: int, rs: seq<Record>, end: bytes)
    requires c.Lawful() && AllWritable(c, rs) && AllPlausible(c, now, rs) && rs != []
    requires off <= |file| && file[off..] == EncodeAll(c, rs) + end
    ensures
      var n := |EncodeFrame(c, rs[0])|;
      && off + n <= |file| && file[off + n..] == EncodeAll(c, rs[1..]) + end
      && ValidFrame(c, file, off, now) == Some(Stranded(off, n, rs[0].seqId))
  {
    hide EncodeFrame, EncodeAll, ValidFrame, Writable, Plausible;
    LogHead(c, file, off, rs, end);
    ValidExact(c, file, off, now, rs[0]);
  }

  /** From the first frame of a log that ends the file, the run is that log. */
  lemma {:induction false} RunIsLog(c: Codec, file: bytes, off: nat, now: int, minSeq: Option<nat>, last: nat, rs: seq<Record>, end: bytes)
    requires c.Lawful() && AllWritable(c, rs) && AllPlausible(c, now, rs) && TornEnd(c, now, end)
    requires off <= |file| && file[off..] == EncodeAll(c, rs) + end
    requires minSeq.Some? ==> minSeq.value <= last && AscendFrom(last, rs)
    ensures Run(c, file, off, now, minSeq, last) == Reported(c, rs, off)
    decreases |rs|
  {
    hide ValidFrame, EncodeFrame, Writable, Plausible, TornEnd;
    if rs == [] {
      assert [] + end == end;
      EndIsTorn(c, file, off, now);
    } else {
      RunHead(c, file, off, now, rs, end);
      RunIsLog(c, file, off + |EncodeFrame(c, rs[0])|, now, minSeq, rs[0].seqId, rs[1..], end);
    }
  }

  lemma {:induction false} LogIsCredible(c: Codec, file: bytes, off: nat, now: int, minSeq: Option<nat>, rs: seq<Record>, end: bytes)
    requires c.Lawful() && AllWritable(c, rs) && AllPlausible(c, now, rs) && TornEnd(c, now, end) && rs != []
    requires off <= |file| && file[off..] == EncodeAll(c, rs) + end
    requires minSeq.Some? ==> AscendFrom(minSeq.value, rs)
    ensures Credible(c, file, off, now, minSeq)
  {
    hide ValidFrame, TailLooksTorn, EncodeFrame, Writable, Plausible, TornEnd;
    RunHead(c, file, off, now, rs, end);
    var next := off + |EncodeFrame(c, rs[0])|;
    if rs[1..] == [] {
      assert [] + end == end;
      EndIsTorn(c, file, next, now);
    } else {
      RunHead(c, file, next, now, rs[1..], end);
    }
  }

  lemma {:induction false} WholeIsNotTorn(c: Codec, file: bytes, off: nat, now: int, r: Record)
    requires c.Lawful() && Writable(c, r)
    requires off + |EncodeFrame(c, r)| <= |file| && file[off..off + |EncodeFrame(c, r)|] == EncodeFrame(c, r)
    ensures !TailLooksTorn(file, off, now)
  {
    hide EncodeFrame, Header, RecordPayload, DecodeHeader;
    FrameParts(c, r, file, off);
    HeaderRoundTrip(c, r);
  }

  /**
   * Of two frames that lie behind each other the first is a resync point if and only if both are plausible, and,
   * where ids are asked for, newer than the frames before the tear and in order.
   */
  lemma {:induction false} CredibleExact(c: Codec, file: bytes, off: nat, now: int, minSeq: Option<nat>, r: Record, next: Record)
    requires c.Lawful() && Writable(c, r) && Writable(c, next)
    requires
      var n, m := |EncodeFrame(c, r)|, |EncodeFrame(c, next)|;
      && off + n + m <= |file|
      && file[off..off + n] == EncodeFrame(c, r) && file[off + n..off + n + m] == EncodeFrame(c, next)
    ensures Credible(c, file, off, now, minSeq) <==>
      && Plausible(c, now, r) && Plausible(c, now, next)
      && (minSeq.Some? ==> minSeq.value < r.seqId < next.seqId)
  {
    hide EncodeFrame, ValidFrame, TailLooksTorn, Plausible, Writable;
    var at := off + |EncodeFrame(c, r)|;
    ValidExact(c, file, off, now, r);
    ValidExact(c, file, at, now, next);
    WholeIsNotTorn(c, file, at, now, next);
  }

  /**
   * Behind a tear, if no earlier position is credible, a log of plausible records that ends the file, torn in a
   * last frame or not, is found whole: those frames and no others.
   */
  lemma {:induction false} StrandedExact(c: Codec, file: bytes, tear: nat, off: nat, now: int, minSeq: Option<nat>, rs: seq<Record>, end: bytes)
    requires c.Lawful() && AllWritable(c, rs) && AllPlausible(c, now, rs) && TornEnd(c, now, end) && rs != []
    requires tear < off <= |file| && file[off..] == EncodeAll(c, rs) + end
    requires minSeq.Some? ==> AscendFrom(minSeq.value, rs)
    requires forall q :: tear < q < off ==> !Credible(c, file, q, now, minSeq)
    ensures StrandedAfter(c, file, tear, now, minSeq) == Reported(c, rs, off)
  {
    hide Credible, EncodeAll, EncodeFrame, ValidFrame, Writable, Plausible, TornEnd, AscendFrom, Resync.Run;
    LogIsCredible(c, file, off, now, minSeq, rs, end);
    RunIsLog(c, file, off, now, minSeq, LastSeq(minSeq), rs, end);
    RunHead(c, file, off, now, rs, end);
    var found := FirstCredible(c, file, tear + 1, now, minSeq);
    assert off < |file|;
    assert found == Some(off);
  }

  /** Their bytes are the log itself. */
  lemma {:induction false} StrandedBytes(c: Codec, file: bytes, off: nat, rs: seq<Record>, end: bytes)
    requires off <= |file| && file[off..] == EncodeAll(c, rs) + end
    ensures RunBytes(file, Reported(c, rs, off)) == EncodeAll(c, rs)
    decreases |rs|
  {
    hide EncodeFrame;
    if rs != [] {
      LogHead(c, file, off, rs, end);
      hide EncodeAll, RunBytes;
      var n := |EncodeFrame(c, rs[0])|;
      StrandedBytes(c, file, off + n, rs[1..], end);
      RunBytesCons(file, Stranded(off, n, rs[0].seqId), Reported(c, rs[1..], off + n));
    }
  }

  lemma {:induction false} RunBytesCons(file: bytes, f: Stranded, fs: seq<Stranded>)
    ensures RunBytes(file, [f] + fs) == (if f.offset + f.len <= |file| then file[f.offset..f.offset + f.len] else []) + RunBytes(file, fs)
    decreases |fs|
  {
    var all := [f] + fs;
    if fs == [] {
      assert all[..0] == [] && all[0] == f;
    } else {
      assert all[..|all| - 1] == [f] + fs[..|fs| - 1] && all[|all| - 1] == fs[|fs| - 1];
      RunBytesCons(file, f, fs[..|fs| - 1]);
    }
  }
}
