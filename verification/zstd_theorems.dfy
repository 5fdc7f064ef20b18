/** What the scanner finds, stated against the frame layout of RFC 8878 and against appended bytes. */
module ZstdTheorems {
  import opened Common
  import opened ZstdFormat
  import opened ZstdScanner

  // ----- Bytes that arrive later never change what was already decided -----

  lemma {:induction false} BlocksStepStable(t: seq<byte>, s: seq<byte>)
    ensures BlocksStep(t) != Torn ==> BlocksStep(t + s) == BlocksStep(t)
    decreases |t|
  {
    if |t| >= 3 {
      assert ReadUInt24LE(t + s) == ReadUInt24LE(t);
      var length := 3 + PayloadBytes(ReadUInt24LE(t));
      if |t| >= length {
        assert (t + s)[length..] == t[length..] + s;
        BlocksStepStable(t[length..], s);
      }
    }
  }

  lemma {:induction false} FrameStepStable(t: seq<byte>, s: seq<byte>)
    ensures FrameStep(t) != Torn ==> FrameStep(t + s) == FrameStep(t)
  {
    if |t| >= 4 {
      assert ReadUInt32LE(t + s) == ReadUInt32LE(t);
      if |t| > 4 && !ReservedBits(t[4]) {
        var header := 5 + RemainingHeaderBytes(t[4]);
        if |t| >= header {
          assert (t + s)[header..] == t[header..] + s;
          BlocksStepStable(t[header..], s);
        }
      }
    }
  }

  function ShiftedRanges(frames: seq<FrameRange>, delta: nat): seq<FrameRange> {
    if frames == [] then []
    else [FrameRange(delta + frames[0].start, delta + frames[0].end)] + ShiftedRanges(frames[1..], delta)
  }

  function Shifted(r: Result<Scan, ScanError>, delta: nat): Result<Scan, ScanError> {
    match r
    case Ok(scan) =>
      Ok(Scan(ShiftedRanges(scan.frames, delta), if scan.tornStart.None? then None else Some(delta + scan.tornStart.value)))
    case Err(e) => Err(ScanError(e.fault, delta + e.at))
  }

  lemma ShiftedPrepend(f: FrameRange, rest: Result<Scan, ScanError>, delta: nat)
    ensures Shifted(Prepend([f], rest), delta) == Prepend([FrameRange(delta + f.start, delta + f.end)], Shifted(rest, delta))
  {
    if rest.Ok? {
      assert ([f] + rest.value.frames)[1..] == rest.value.frames;
    }
  }

  /** Scanning a suffix on its own gives the same answer, moved by the suffix's position. */
  lemma {:induction false} ScanIsPositional(t: seq<byte>, base: nat, more: nat)
    ensures ScanFrom(t, base + more) == Shifted(ScanFrom(t, base), more)
    decreases |t|
  {
    hide FrameStep;
    if t != [] && FrameStep(t).Done? {
      FrameStepBounds(t);
      var n := FrameStep(t).length;
      ScanIsPositional(t[n..], base + n, more);
      assert base + n + more == base + more + n;
      ShiftedPrepend(FrameRange(base, base + n), ScanFrom(t[n..], base + n), more);
    }
  }

  /** Where a successful scan stopped: the start of the torn frame, or the end of the bytes. */
  function ScannedEnd(scan: Scan, end: nat): nat {
    match scan.tornStart
    case None => end
    case Some(at) => at
  }

  ghost predicate Resumes(t: seq<byte>, s: seq<byte>, base: nat, r: Result<Scan, ScanError>) {
    match r
    case Err(_) => ScanFrom(t + s, base) == r
    case Ok(scan) =>
      var e := ScannedEnd(scan, base + |t|);
      && base <= e <= base + |t|
      && ScanFrom(t + s, base) == Prepend(scan.frames, ScanFrom((t + s)[e - base..], e))
  }

  lemma ScanOverFrame(t: seq<byte>, base: nat, n: nat)
    requires FrameStep(t) == Done(n)
    ensures 0 < n <= |t|
    ensures ScanFrom(t, base) == Prepend([FrameRange(base, base + n)], ScanFrom(t[n..], base + n))
  {
    hide FrameStep;
    FrameStepBounds(t);
  }

  lemma ResumesOverFrame(t: seq<byte>, s: seq<byte>, base: nat, n: nat)
    requires FrameStep(t) == Done(n) && FrameStep(t + s) == Done(n) && n <= |t|
    requires Resumes(t[n..], s, base + n, ScanFrom(t[n..], base + n))
    ensures Resumes(t, s, base, ScanFrom(t, base))
  {
    hide FrameStep, ScanFrom;
    ScanOverFrame(t, base, n);
    ScanOverFrame(t + s, base, n);
    assert (t + s)[n..] == t[n..] + s;
    if ScanFrom(t[n..], base + n).Ok? {
      var inner := ScanFrom(t[n..], base + n).value;
      var e := ScannedEnd(inner, base + |t|);
      assert (t + s)[e - base..] == (t[n..] + s)[e - (base + n)..];
      PrependTwice([FrameRange(base, base + n)], inner.frames, ScanFrom((t + s)[e - base..], e));
    }
  }

  lemma {:induction false} ScanResumes(t: seq<byte>, s: seq<byte>, base: nat)
    ensures Resumes(t, s, base, ScanFrom(t, base))
    decreases |t|
  {
    hide FrameStep;
    if t == [] || FrameStep(t).Torn? {
      assert (t + s)[0..] == t + s;
      PrependNothing(ScanFrom(t + s, base));
    } else {
      FrameStepStable(t, s);
      FrameStepBounds(t);
      if FrameStep(t).Done? {
        var n := FrameStep(t).length;
        ScanResumes(t[n..], s, base + n);
        ResumesOverFrame(t, s, base, n);
      }
    }
  }

  /**
   * Appending bytes: a scan that threw still throws the same error, and a scan that succeeded
   * keeps every frame it reported and goes on from where it stopped, as a scan of its own would.
   */
  lemma ScanStableUnderAppend(b: seq<byte>, s: seq<byte>)
    ensures ScanFrom(b, 0).Err? ==> ScanFrom(b + s, 0) == ScanFrom(b, 0)
    ensures ScanFrom(b, 0).Ok? ==>
              var scan := ScanFrom(b, 0).value;
              var e := ScannedEnd(scan, |b|);
              && e <= |b|
              && ScanFrom(b + s, 0) == Prepend(scan.frames, Shifted(ScanFrom((b + s)[e..], 0), e))
  {
    hide FrameStep;
    ScanResumes(b, s, 0);
    if ScanFrom(b, 0).Ok? {
      var e := ScannedEnd(ScanFrom(b, 0).value, |b|);
      ScanIsPositional((b + s)[e..], 0, e);
    }
  }

  // ----- The reported frames tile the buffer -----

  predicate Contiguous(frames: seq<FrameRange>, start: nat, end: nat) {
    if frames == [] then start == end
    else frames[0].start == start && start + 9 <= frames[0].end && Contiguous(frames[1..], frames[0].end, end)
  }

  lemma {:induction false} ScanIsContiguous(t: seq<byte>, base: nat)
    requires ScanFrom(t, base).Ok?
    ensures var scan := ScanFrom(t, base).value;
            var e := ScannedEnd(scan, base + |t|);
            && Contiguous(scan.frames, base, e)
            && (scan.tornStart.Some? ==> base <= e < base + |t|)
            && 9 * |scan.frames| <= e - base <= |t|
    decreases |t|
  {
    hide FrameStep;
    if t != [] && FrameStep(t).Done? {
      FrameStepBounds(t);
      var n := FrameStep(t).length;
      ScanIsContiguous(t[n..], base + n);
      var inner := ScanFrom(t[n..], base + n).value;
      assert ([FrameRange(base, base + n)] + inner.frames)[1..] == inner.frames;
    }
  }

  // ----- Encoded structures are stepped over exactly -----

  lemma LittleEndian24IsRead(n: nat)
    requires n < 0x100_0000
    ensures ReadUInt24LE(LittleEndian24(n)) == n
  {
    assert n / 256 == n / 256 % 256 + 256 * (n / 65536);
  }

  lemma BlockHeaderFields(last: bool, code: nat, size: nat)
    requires code < 4 && size < 0x20_0000
    ensures var n := (if last then 1 else 0) + 2 * code + 8 * size;
            && n < 0x100_0000
            && (n % 2 == 1 <==> last) && n / 2 % 4 == code && n / 8 == size
  {
    var n := (if last then 1 else 0) + 2 * code + 8 * size;
    assert n / 2 == code + 4 * size;
  }

  lemma EncodedBlockStep(b: Block, last: bool, rest: seq<byte>)
    requires b.Valid()
    ensures BlocksStep(EncodeBlock(b, last) + rest)
         == if last then Done(|EncodeBlock(b, last)|) else BlocksStep(rest).After(|EncodeBlock(b, last)|)
  {
    BlockHeaderFields(last, b.kind.Code(), b.size);
    var n := (if last then 1 else 0) + 2 * b.kind.Code() + 8 * b.size;
    LittleEndian24IsRead(n);
    var t := EncodeBlock(b, last) + rest;
    assert ReadUInt24LE(t) == n;
    assert 3 + PayloadBytes(n) == |EncodeBlock(b, last)|;
    assert t[|EncodeBlock(b, last)|..] == rest;
  }

  lemma {:induction false} EncodedLeadingBlocksStep(bs: seq<Block>, rest: seq<byte>)
    requires ValidBlocks(bs)
    ensures BlocksStep(EncodeLeadingBlocks(bs) + rest) == BlocksStep(rest).After(|EncodeLeadingBlocks(bs)|)
  {
    if bs == [] {
      assert EncodeLeadingBlocks(bs) + rest == rest;
    } else {
      assert EncodeLeadingBlocks(bs) + rest == EncodeBlock(bs[0], false) + (EncodeLeadingBlocks(bs[1..]) + rest);
      EncodedBlockStep(bs[0], false, EncodeLeadingBlocks(bs[1..]) + rest);
      EncodedLeadingBlocksStep(bs[1..], rest);
    }
  }

  lemma DescriptorFields(h: Header)
    requires h.Valid()
    ensures var d := h.Descriptor();
            && !ReservedBits(d)
            && SingleSegment(d) == h.singleSegment
            && HasChecksum(d) == h.checksum
            && RemainingHeaderBytes(d) == |h.window| + |h.dictionary| + |h.contentSize|
  {
    var d := h.Descriptor();
    DescriptorBits(h.contentSizeFlag, h.singleSegment, h.checksum, h.dictionaryFlag);
    RemainingHeaderFields(d);
    hide RemainingHeaderBytes;
    assert d / 64 == h.contentSizeFlag && d % 4 == h.dictionaryFlag && SingleSegment(d) == h.singleSegment;
  }

  lemma DescriptorBits(flag: nat, single: bool, checksum: bool, dictionary: nat)
    requires flag < 4 && dictionary < 4
    ensures var d := 64 * flag + (if single then 32 else 0) + (if checksum then 4 else 0) + dictionary;
            && d / 64 == flag && d % 4 == dictionary && d / 8 % 4 == 0
            && (d / 32 % 2 != 0 <==> single) && (d / 4 % 2 != 0 <==> checksum)
  {
    var d := 64 * flag + (if single then 32 else 0) + (if checksum then 4 else 0) + dictionary;
    assert d / 4 == 16 * flag + (if single then 8 else 0) + (if checksum then 1 else 0);
    assert d / 8 == 8 * flag + (if single then 4 else 0);
    assert d / 32 == 2 * flag + (if single then 1 else 0);
  }

  lemma EncodedHeaderStep(h: Header, rest: seq<byte>)
    requires h.Valid()
    ensures FrameStep(h.Encode() + rest)
         == ChecksumStep(rest, BlocksStep(rest), h.checksum).After(|h.Encode()|)
  {
    var t := h.Encode() + rest;
    DescriptorFields(h);
    assert t[0] == 0x28 && t[1] == 0xb5 && t[2] == 0x2f && t[3] == 0xfd;
    assert t[4] == h.Descriptor();
    assert t[|h.Encode()|..] == rest;
  }

  lemma EncodedFrameStep(f: Frame, rest: seq<byte>)
    requires f.Valid()
    ensures FrameStep(EncodeFrame(f) + rest) == Done(|EncodeFrame(f)|)
    ensures |EncodeFrame(f)| >= 9
  {
    hide FrameStep, EncodeLeadingBlocks, EncodeBlock, BlocksStep;
    var body := EncodeBlocks(f.blocks) + f.checksum + rest;
    assert EncodeFrame(f) + rest == f.header.Encode() + body;
    EncodedHeaderStep(f.header, body);
    var leading, final := f.blocks[..|f.blocks| - 1], f.blocks[|f.blocks| - 1];
    var tail := EncodeBlock(final, true) + (f.checksum + rest);
    assert body == EncodeLeadingBlocks(leading) + tail;
    EncodedLeadingBlocksStep(leading, tail);
    EncodedBlockStep(final, true, f.checksum + rest);
    FrameStepBounds(EncodeFrame(f) + rest);
  }

  // ----- Truncation: no complete frame is lost, and a torn tail never throws -----

  /** The byte ranges of `fs` when their encodings are laid end to end from `base`. */
  function Boundaries(fs: seq<Frame>, base: nat): seq<FrameRange>
    requires ValidFrames(fs)
  {
    if fs == [] then []
    else
      var end := base + |EncodeFrame(fs[0])|;
      [FrameRange(base, end)] + Boundaries(fs[1..], end)
  }

  lemma ProperPrefixIsTorn(f: Frame, n: nat)
    requires f.Valid() && n < |EncodeFrame(f)|
    ensures FrameStep(EncodeFrame(f)[..n]) == Torn
  {
    var cut := EncodeFrame(f)[..n];
    assert cut + EncodeFrame(f)[n..] == EncodeFrame(f) + [];
    EncodedFrameStep(f, []);
    FrameStepStable(cut, EncodeFrame(f)[n..]);
    FrameStepBounds(cut);
  }

  lemma {:induction false} SplitTruncation(fs: seq<Frame>, n: nat) returns (k: nat, cut: seq<byte>)
    requires ValidFrames(fs) && n <= |EncodeStream(fs)|
    ensures k <= |fs| && EncodeStream(fs)[..n] == EncodeStream(fs[..k]) + cut
    ensures k == |fs| ==> cut == []
    ensures k < |fs| ==> |cut| < |EncodeFrame(fs[k])| && cut == EncodeFrame(fs[k])[..|cut|]
  {
    hide EncodeFrame;
    if fs == [] {
      k, cut := 0, [];
    } else if n < |EncodeFrame(fs[0])| {
      k, cut := 0, EncodeFrame(fs[0])[..n];
      assert EncodeStream(fs)[..n] == [] + cut;
    } else {
      var m := |EncodeFrame(fs[0])|;
      k, cut := SplitTruncation(fs[1..], n - m);
      assert EncodeStream(fs)[..n] == EncodeFrame(fs[0]) + EncodeStream(fs[1..])[..n - m];
      assert fs[..k + 1][1..] == fs[1..][..k] && fs[..k + 1][0] == fs[0];
      assert EncodeStream(fs[..k + 1]) + cut == EncodeFrame(fs[0]) + (EncodeStream(fs[1..][..k]) + cut);
      k := k + 1;
    }
  }

  lemma {:induction false} EncodeStreamSnoc(fs: seq<Frame>, k: nat)
    requires ValidFrames(fs) && k < |fs|
    ensures EncodeStream(fs[..k + 1]) == EncodeStream(fs[..k]) + EncodeFrame(fs[k])
  {
    hide EncodeFrame;
    if k == 0 {
      assert fs[..1] == [fs[0]] && [fs[0]][1..] == [];
    } else {
      EncodeStreamSnoc(fs[1..], k - 1);
      assert fs[..k + 1][1..] == fs[1..][..k] && fs[..k][1..] == fs[1..][..k - 1];
    }
  }

  // ----- The converse: what the scanner accepts IS a stream of frames -----

  lemma DecodedBlock(t: seq<byte>) returns (b: Block)
    requires |t| >= 3 && ReadUInt24LE(t) / 2 % 4 != 3
    requires |t| >= 3 + PayloadBytes(ReadUInt24LE(t))
    ensures b.Valid()
    ensures var n := ReadUInt24LE(t);
            && 3 + PayloadBytes(n) == |EncodeBlock(b, n % 2 == 1)|
            && EncodeBlock(b, n % 2 == 1) == t[..3 + PayloadBytes(n)]
  {
    var n := ReadUInt24LE(t);
    var code := n / 2 % 4;
    b := Block(if code == 0 then Raw else if code == 1 then Rle else Compressed, n / 8, t[3..3 + PayloadBytes(n)]);
    BlockHeaderSum(n);
    ReadIsLittleEndian24(t);
    hide ReadUInt24LE, LittleEndian24;
    assert b.kind.Code() == code;
    assert t[..3 + PayloadBytes(n)] == t[..3] + b.payload;
  }

  lemma BlockHeaderSum(n: nat)
    requires n < 0x100_0000
    ensures n == n % 2 + 2 * (n / 2 % 4) + 8 * (n / 8) && n / 8 < 0x20_0000
  {
    assert n / 2 == n / 2 % 4 + 4 * (n / 8);
  }

  lemma ReadIsLittleEndian24(t: seq<byte>)
    requires |t| >= 3
    ensures LittleEndian24(ReadUInt24LE(t)) == t[..3]
  {
    var n := ReadUInt24LE(t);
    assert n / 256 == t[1] + 256 * t[2] as int;
  }

  lemma {:induction false} DecodedBlocks(t: seq<byte>) returns (bs: seq<Block>)
    requires BlocksStep(t).Done?
    ensures BlocksStep(t).length <= |t|
    ensures bs != [] && ValidBlocks(bs) && EncodeBlocks(bs) == t[..BlocksStep(t).length]
    decreases |t|
  {
    BlocksStepBounds(t);
    var b := DecodedBlock(t);
    var last := ReadUInt24LE(t) % 2 == 1;
    var length := |EncodeBlock(b, last)|;
    if last {
      bs := [b];
      assert EncodeLeadingBlocks(bs[..0]) == [];
    } else {
      var bs' := DecodedBlocks(t[length..]);
      bs := [b] + bs';
      var n := BlocksStep(t[length..]).length;
      var leading := bs'[..|bs'| - 1];
      assert bs[..|bs| - 1] == [b] + leading;
      assert ([b] + leading)[1..] == leading;
      assert EncodeBlocks(bs) == EncodeBlock(b, false) + EncodeBlocks(bs');
      assert t[..length] + t[length..][..n] == t[..length + n];
    }
  }

  lemma BlockTypeBits(t: seq<byte>)
    requires |t| >= 3
    ensures ReadUInt24LE(t) / 2 % 4 == t[0] / 2 % 4
  {
    var rest := 32 * t[1] as int + 8192 * t[2] as int;
    assert ReadUInt24LE(t) / 2 == t[0] / 2 + 4 * rest;
  }

  /** A reserved block type is reported at a block header that only complete, non-final blocks precede. */
  lemma {:induction false} DecodedReservedBlock(t: seq<byte>) returns (bs: seq<Block>, rest: seq<byte>)
    requires BlocksStep(t).Corrupt?
    ensures ValidBlocks(bs) && t == EncodeLeadingBlocks(bs) + rest
    ensures |rest| >= 3 && rest[0] / 2 % 4 == 3
    ensures BlocksStep(t) == Corrupt(ReservedBlockType, |EncodeLeadingBlocks(bs)|)
    decreases |t|
  {
    hide EncodeBlock, ReadUInt24LE;
    var n := ReadUInt24LE(t);
    if n / 2 % 4 == 3 {
      bs, rest := [], t;
      BlockTypeBits(t);
    } else {
      var b := DecodedBlock(t);
      var length := 3 + PayloadBytes(n);
      var bs';
      bs', rest := DecodedReservedBlock(t[length..]);
      bs := [b] + bs';
      assert bs[1..] == bs';
      assert t == t[..length] + t[length..];
    }
  }

  lemma MagicIsMagic(t: seq<byte>)
    requires |t| >= 4
    ensures ReadUInt32LE(t) == ZSTD_MAGIC <==> t[..4] == MAGIC_BYTES
  {
    assert t[..4] == [t[0], t[1], t[2], t[3]];
  }

  lemma DescriptorSum(d: nat)
    requires d < 256
    ensures d == 64 * (d / 64) + 32 * (d / 32 % 2) + 8 * (d / 8 % 4) + 4 * (d / 4 % 2) + d % 4
  {
    assert d / 4 == d / 4 % 2 + 2 * (d / 8);
    assert d / 8 == d / 8 % 4 + 4 * (d / 32);
    assert d / 32 == d / 32 % 2 + 2 * (d / 64);
  }

  lemma RemainingHeaderFields(d: byte)
    ensures RemainingHeaderBytes(d)
         == (if SingleSegment(d) then 0 else 1) + [0, 1, 2, 4][d % 4]
            + [if SingleSegment(d) then 1 else 0, 2, 4, 8][d / 64]
  {
    assert ShiftedOne(1) == 2 && ShiftedOne(2) == 4 && ShiftedOne(3) == 8;
  }

  lemma DecodedHeader(t: seq<byte>) returns (h: Header)
    requires |t| >= 5 && t[..4] == MAGIC_BYTES && !ReservedBits(t[4])
    requires |t| >= 5 + RemainingHeaderBytes(t[4])
    ensures h.Valid() && h.Encode() == t[..5 + RemainingHeaderBytes(t[4])]
    ensures h.checksum == HasChecksum(t[4])
  {
    hide RemainingHeaderBytes;
    var d := t[4];
    RemainingHeaderFields(d);
    DescriptorSum(d);
    var window := 5 + if SingleSegment(d) then 0 else 1;
    var dictionary := window + [0, 1, 2, 4][d % 4];
    var end := 5 + RemainingHeaderBytes(d);
    h := Header(d / 64, SingleSegment(d), HasChecksum(d), d % 4, t[5..window], t[window..dictionary], t[dictionary..end]);
    assert h.Descriptor() == d;
    assert t[..end] == t[..4] + [d] + (t[5..window] + t[window..dictionary] + t[dictionary..end]);
  }

  lemma SliceInThree(t: seq<byte>, a: nat, b: nat, c: nat)
    requires a <= b <= c <= |t|
    ensures t[..c] == t[..a] + t[a..][..b - a] + t[b..c]
  {
    assert t[a..][..b - a] == t[a..b];
  }

  lemma DecodedFrame(t: seq<byte>) returns (f: Frame)
    requires FrameStep(t).Done?
    ensures f.Valid() && FrameStep(t) == Done(|EncodeFrame(f)|) && EncodeFrame(f) <= t
  {
    hide RemainingHeaderBytes, BlocksStep, EncodeBlocks, ReservedBits, HasChecksum, ReadUInt32LE, EncodeLeadingBlocks;
    MagicIsMagic(t);
    var h := DecodedHeader(t);
    var header := |h.Encode()|;
    var bs := DecodedBlocks(t[header..]);
    var blocks := header + |EncodeBlocks(bs)|;
    var end := blocks + if h.checksum then 4 else 0;
    assert FrameStep(t) == Done(end) && end <= |t|;
    f := Frame(h, bs, t[blocks..end]);
    SliceInThree(t, header, blocks, end);
  }

  /** The three ways bytes that are all present can break the format, and where. */
  ghost predicate Broken(t: seq<byte>, fault: Fault, at: nat) {
    match fault
    case BadMagic => at == 0 && |t| >= 4 && t[..4] != MAGIC_BYTES
    case ReservedHeaderBit => at == 4 && |t| >= 5 && t[..4] == MAGIC_BYTES && t[4] / 8 % 4 != 0
    case ReservedBlockType => exists h: Header, bs: seq<Block> :: ReservedBlockAfter(t, h, bs, at)
  }

  ghost predicate ReservedBlockAfter(t: seq<byte>, h: Header, bs: seq<Block>, at: nat) {
    && h.Valid() && ValidBlocks(bs)
    && var prefix := h.Encode() + EncodeLeadingBlocks(bs);
    && prefix <= t && at == |prefix| && |t| >= at + 3
    && t[at] / 2 % 4 == 3
  }

  lemma FrameStepDoneExactly(t: seq<byte>, n: nat)
    ensures FrameStep(t) == Done(n) <==> exists f: Frame :: f.Valid() && |EncodeFrame(f)| == n && EncodeFrame(f) <= t
  {
    hide FrameStep, EncodeFrame;
    if FrameStep(t) == Done(n) {
      var f := DecodedFrame(t);
      assert f.Valid() && |EncodeFrame(f)| == n && EncodeFrame(f) <= t;
    }
    forall f: Frame | f.Valid() && |EncodeFrame(f)| == n && EncodeFrame(f) <= t
      ensures FrameStep(t) == Done(n)
    {
      assert EncodeFrame(f) + t[n..] == t;
      EncodedFrameStep(f, t[n..]);
    }
  }

  lemma ReservedBlockIsReported(t: seq<byte>, h: Header, bs: seq<Block>, at: nat)
    requires ReservedBlockAfter(t, h, bs, at)
    ensures FrameStep(t) == Corrupt(ReservedBlockType, at)
  {
    hide FrameStep, EncodeLeadingBlocks;
    var rest := t[at..];
    assert t == h.Encode() + (EncodeLeadingBlocks(bs) + rest);
    EncodedHeaderStep(h, EncodeLeadingBlocks(bs) + rest);
    EncodedLeadingBlocksStep(bs, rest);
    BlockTypeBits(rest);
  }

  lemma ReservedBlockIsBroken(t: seq<byte>)
    requires FrameStep(t).Corrupt? && |t| >= 5 && t[..4] == MAGIC_BYTES && !ReservedBits(t[4])
    ensures FrameStep(t).fault == ReservedBlockType
    ensures Broken(t, ReservedBlockType, FrameStep(t).at)
  {
    hide RemainingHeaderBytes, ReservedBits, HasChecksum, EncodeLeadingBlocks, ReadUInt24LE;
    MagicIsMagic(t);
    var h := DecodedHeader(t);
    var bs, rest := DecodedReservedBlock(t[|h.Encode()|..]);
    var prefix := h.Encode() + EncodeLeadingBlocks(bs);
    assert t == prefix + rest;
    assert t[|prefix|] == rest[0];
    assert ReservedBlockAfter(t, h, bs, |prefix|);
  }

  lemma FrameStepCorruptExactly(t: seq<byte>, fault: Fault, at: nat)
    ensures FrameStep(t) == Corrupt(fault, at) <==> Broken(t, fault, at)
  {
    if |t| >= 4 {
      MagicIsMagic(t);
    }
    if FrameStep(t) == Corrupt(fault, at) && |t| >= 5 && t[..4] == MAGIC_BYTES && !ReservedBits(t[4]) {
      ReservedBlockIsBroken(t);
    }
    if fault.ReservedBlockType? && Broken(t, fault, at) {
      var h: Header, bs: seq<Block> :| ReservedBlockAfter(t, h, bs, at);
      ReservedBlockIsReported(t, h, bs, at);
    }
  }

  /** Bytes that neither begin with a complete frame nor show a broken field. */
  ghost predicate TornTail(t: seq<byte>) {
    && (forall f: Frame | f.Valid() :: !(EncodeFrame(f) <= t))
    && (forall fault: Fault, at: nat :: !Broken(t, fault, at))
  }

  lemma FrameStepTornExactly(t: seq<byte>)
    ensures FrameStep(t) == Torn <==> TornTail(t)
  {
    if FrameStep(t) == Torn {
      forall f: Frame | f.Valid()
        ensures !(EncodeFrame(f) <= t)
      {
        FrameStepDoneExactly(t, |EncodeFrame(f)|);
      }
      forall fault: Fault, at: nat
        ensures !Broken(t, fault, at)
      {
        FrameStepCorruptExactly(t, fault, at);
      }
    } else if FrameStep(t).Done? {
      var f := DecodedFrame(t);
    } else {
      FrameStepCorruptExactly(t, FrameStep(t).fault, FrameStep(t).at);
    }
  }

  lemma NothingIsTorn()
    ensures FrameStep([]) == Torn
  {
  }

  lemma {:induction false} ScanOfStreamThen(fs: seq<Frame>, t: seq<byte>, base: nat)
    requires ValidFrames(fs)
    ensures ScanFrom(EncodeStream(fs) + t, base)
         == Prepend(Boundaries(fs, base), ScanFrom(t, base + |EncodeStream(fs)|))
  {
    hide FrameStep, ScanFrom, EncodeFrame;
    if fs == [] {
      assert EncodeStream(fs) + t == t;
      PrependNothing(ScanFrom(t, base));
    } else {
      var n := |EncodeFrame(fs[0])|;
      var rest := EncodeStream(fs[1..]) + t;
      assert EncodeStream(fs) + t == EncodeFrame(fs[0]) + rest;
      EncodedFrameStep(fs[0], rest);
      ScanOverFrame(EncodeFrame(fs[0]) + rest, base, n);
      assert (EncodeFrame(fs[0]) + rest)[n..] == rest;
      ScanOfStreamThen(fs[1..], t, base + n);
      PrependTwice([FrameRange(base, base + n)], Boundaries(fs[1..], base + n),
                   ScanFrom(t, base + |EncodeStream(fs)|));
    }
  }

  /**
   * Cut a concatenation of well-formed frames anywhere: the scan does not throw, reports exactly
   * the `k` frames that fit whole, and marks the start of the cut frame unless the cut is on a boundary.
   */
  lemma TruncationTheorem(fs: seq<Frame>, n: nat) returns (k: nat)
    requires ValidFrames(fs) && n <= |EncodeStream(fs)|
    ensures k <= |fs| && |EncodeStream(fs[..k])| <= n
    ensures k < |fs| ==> n < |EncodeStream(fs[..k + 1])|
    ensures var whole := |EncodeStream(fs[..k])|;
            && ScanFrom(EncodeStream(fs)[..n], 0)
            == Ok(Scan(Boundaries(fs[..k], 0), if whole == n then None else Some(whole)))
  {
    hide FrameStep, EncodeFrame, EncodeStream;
    var cut;
    k, cut := SplitTruncation(fs, n);
    ScanOfStreamThen(fs[..k], cut, 0);
    assert Boundaries(fs[..k], 0) + [] == Boundaries(fs[..k], 0);
    if k < |fs| {
      EncodeStreamSnoc(fs, k);
      ProperPrefixIsTorn(fs[k], |cut|);
    }
  }

  /** Every buffer is some frames followed by bytes that do not begin with a frame. */
  lemma {:induction false} Split(b: seq<byte>) returns (fs: seq<Frame>, t: seq<byte>)
    ensures ValidFrames(fs) && b == EncodeStream(fs) + t && !FrameStep(t).Done?
    decreases |b|
  {
    hide FrameStep, EncodeFrame;
    if !FrameStep(b).Done? {
      fs, t := [], b;
    } else {
      var f := DecodedFrame(b);
      FrameStepBounds(b);
      var n := |EncodeFrame(f)|;
      var fs';
      fs', t := Split(b[n..]);
      fs := [f] + fs';
      assert fs[1..] == fs';
      assert b == EncodeFrame(f) + b[n..];
    }
  }

  ghost predicate SuccessOf(b: seq<byte>, scan: Scan, fs: seq<Frame>, t: seq<byte>) {
    && ValidFrames(fs) && b == EncodeStream(fs) + t
    && scan.frames == Boundaries(fs, 0)
    && (if t == [] then scan.tornStart == None else scan.tornStart == Some(|EncodeStream(fs)|) && TornTail(t))
  }

  ghost predicate FailureOf(b: seq<byte>, e: ScanError, fs: seq<Frame>, t: seq<byte>) {
    && ValidFrames(fs) && b == EncodeStream(fs) + t
    && e.at >= |EncodeStream(fs)| && Broken(t, e.fault, e.at - |EncodeStream(fs)|)
  }

  /** The scan returns `scan` exactly when the buffer is those frames, whole, and then nothing or a torn tail. */
  lemma ScanSucceedsExactly(b: seq<byte>, scan: Scan)
    ensures ScanFrom(b, 0) == Ok(scan) <==> exists fs: seq<Frame>, t: seq<byte> :: SuccessOf(b, scan, fs, t)
  {
    hide FrameStep, EncodeStream, TornTail;
    if ScanFrom(b, 0) == Ok(scan) {
      var fs, t := Split(b);
      ScanOfStreamThen(fs, t, 0);
      FrameStepTornExactly(t);
      assert Boundaries(fs, 0) + [] == Boundaries(fs, 0);
      assert SuccessOf(b, scan, fs, t);
    }
    forall fs: seq<Frame>, t: seq<byte> | SuccessOf(b, scan, fs, t)
      ensures ScanFrom(b, 0) == Ok(scan)
    {
      ScanOfStreamThen(fs, t, 0);
      FrameStepTornExactly(t);
      assert Boundaries(fs, 0) + [] == Boundaries(fs, 0);
    }
  }

  /** The scan throws exactly when the first thing that is not a whole frame shows a broken field. */
  lemma ScanThrowsExactly(b: seq<byte>, e: ScanError)
    ensures ScanFrom(b, 0) == Err(e) <==> exists fs: seq<Frame>, t: seq<byte> :: FailureOf(b, e, fs, t)
  {
    hide FrameStep, EncodeStream, Broken;
    if ScanFrom(b, 0) == Err(e) {
      var fs, t := Split(b);
      ScanOfStreamThen(fs, t, 0);
      FrameStepCorruptExactly(t, FrameStep(t).fault, FrameStep(t).at);
      assert FailureOf(b, e, fs, t);
    }
    forall fs: seq<Frame>, t: seq<byte> | FailureOf(b, e, fs, t)
      ensures ScanFrom(b, 0) == Err(e)
    {
      ScanOfStreamThen(fs, t, 0);
      NothingIsTorn();
      FrameStepCorruptExactly(t, e.fault, e.at - |EncodeStream(fs)|);
    }
  }
}
