/**
 * The Zstandard frame layout of RFC 8878, section 3.1.1, written as an encoder.
 *
 * This is the reference the scanner is compared with: it says what a stream of frames IS,
 * field by field, and knows nothing about scanning. Skippable frames (section 3.1.2) are
 * not part of it, nor is the Block_Maximum_Size limit of section 3.1.1.2.4, which the
 * scanner does not enforce: a block may hold any payload its 21-bit size can announce.
 */
module ZstdFormat {
  import opened Common

  /** The magic number 0xFD2FB528, stored little-endian. */
  const MAGIC_BYTES: seq<byte> := [0x28, 0xb5, 0x2f, 0xfd]

  /** Frame_Header, section 3.1.1.1, without the two bits the scanner requires to be zero. */
  datatype Header = Header(
    contentSizeFlag: nat,
    singleSegment: bool,
    checksum: bool,
    dictionaryFlag: nat,
    window: seq<byte>,
    dictionary: seq<byte>,
    contentSize: seq<byte>)
  {
    predicate Valid() {
      && contentSizeFlag < 4
      && dictionaryFlag < 4
      && |window| == (if singleSegment then 0 else 1)
      && |dictionary| == [0, 1, 2, 4][dictionaryFlag]
      && |contentSize| == [if singleSegment then 1 else 0, 2, 4, 8][contentSizeFlag]
    }

    function Descriptor(): byte
      requires Valid()
    {
      64 * contentSizeFlag + (if singleSegment then 32 else 0) + (if checksum then 4 else 0) + dictionaryFlag
    }

    function Encode(): seq<byte>
      requires Valid()
    {
      MAGIC_BYTES + [Descriptor()] + (window + dictionary + contentSize)
    }
  }

  /** Block_Type, section 3.1.1.2.2; code 3 is reserved. */
  datatype BlockKind = Raw | Rle | Compressed {
    function Code(): nat {
      match this
      case Raw => 0
      case Rle => 1
      case Compressed => 2
    }
  }

  datatype Block = Block(kind: BlockKind, size: nat, payload: seq<byte>) {
    predicate Valid() {
      && size < 0x20_0000
      && |payload| == (if kind.Rle? then 1 else size)
    }
  }

  /** Three bytes, little-endian. */
  function LittleEndian24(n: nat): (s: seq<byte>)
    requires n < 0x100_0000
    ensures |s| == 3
  {
    [n % 256, n / 256 % 256, n / 65536]
  }

  /** Last_Block is bit 0, Block_Type bits 1-2, Block_Size bits 3-23. */
  function EncodeBlock(b: Block, last: bool): seq<byte>
    requires b.Valid()
  {
    LittleEndian24((if last then 1 else 0) + 2 * b.kind.Code() + 8 * b.size) + b.payload
  }

  predicate ValidBlocks(bs: seq<Block>) {
    forall b <- bs :: b.Valid()
  }

  /** Blocks of which none is the last one of its frame. */
  function EncodeLeadingBlocks(bs: seq<Block>): seq<byte>
    requires ValidBlocks(bs)
  {
    if bs == [] then [] else EncodeBlock(bs[0], false) + EncodeLeadingBlocks(bs[1..])
  }

  /** All the blocks of one frame: exactly the final one carries the Last_Block bit. */
  function EncodeBlocks(bs: seq<Block>): seq<byte>
    requires bs != [] && ValidBlocks(bs)
  {
    EncodeLeadingBlocks(bs[..|bs| - 1]) + EncodeBlock(bs[|bs| - 1], true)
  }

  datatype Frame = Frame(header: Header, blocks: seq<Block>, checksum: seq<byte>) {
    predicate Valid() {
      && header.Valid()
      && blocks != []
      && ValidBlocks(blocks)
      && |checksum| == (if header.checksum then 4 else 0)
    }
  }

  function EncodeFrame(f: Frame): seq<byte>
    requires f.Valid()
  {
    f.header.Encode() + EncodeBlocks(f.blocks) + f.checksum
  }

  predicate ValidFrames(fs: seq<Frame>) {
    forall f <- fs :: f.Valid()
  }

  function EncodeStream(fs: seq<Frame>): seq<byte>
    requires ValidFrames(fs)
  {
    if fs == [] then [] else EncodeFrame(fs[0]) + EncodeStream(fs[1..])
  }
}

/** `scanZstdFrames`: locating the complete frames of a log that may have been read mid-write. */
module ZstdScanner {
  import opened Common

  const ZSTD_MAGIC := 0xfd2fb528

  datatype Fault = BadMagic | ReservedHeaderBit | ReservedBlockType

  datatype ScanError = ScanError(fault: Fault, at: nat)

  datatype FrameRange = FrameRange(start: nat, end: nat)

  datatype Scan = Scan(frames: seq<FrameRange>, tornStart: Option<nat>)

  /** What one attempt to step over a structure found at the front of some bytes. */
  datatype Step = Done(length: nat) | Torn | Corrupt(fault: Fault, at: nat) {
    function After(skipped: nat): Step {
      match this
      case Done(n) => Done(skipped + n)
      case Torn => Torn
      case Corrupt(fault, at) => Corrupt(fault, skipped + at)
    }
  }

  function ReadUInt24LE(t: seq<byte>): (n: nat)
    requires |t| >= 3
    ensures n < 0x100_0000
  {
    var b0: int, b1: int, b2: int := t[0], t[1], t[2];
    b0 + 256 * b1 + 65536 * b2
  }

  function ReadUInt32LE(t: seq<byte>): nat
    requires |t| >= 4
  {
    var b0: int, b1: int, b2: int, b3: int := t[0], t[1], t[2], t[3];
    b0 + 256 * b1 + 65536 * b2 + 16777216 * b3
  }

  /** Bits 3 and 4 of the descriptor: mask 24. */
  predicate ReservedBits(descriptor: byte) {
    descriptor / 8 % 4 != 0
  }

  predicate SingleSegment(descriptor: byte) {
    descriptor / 32 % 2 != 0
  }

  predicate HasChecksum(descriptor: byte) {
    descriptor / 4 % 2 != 0
  }

  /** `1 << n`. */
  function ShiftedOne(n: nat): nat {
    if n == 0 then 1 else 2 * ShiftedOne(n - 1)
  }

  function RemainingHeaderBytes(descriptor: byte): nat {
    var contentSizeFlag := descriptor / 64;
    var dictionaryFlag := descriptor % 4;
    var dictionaryBytes := if dictionaryFlag == 3 then 4 else dictionaryFlag;
    var contentSizeBytes :=
      if contentSizeFlag == 0 then (if SingleSegment(descriptor) then 1 else 0) else ShiftedOne(contentSizeFlag);
    (if SingleSegment(descriptor) then 0 else 1) + dictionaryBytes + contentSizeBytes
  }

  function PayloadBytes(blockHeader: nat): nat {
    if blockHeader / 2 % 4 == 1 then 1 else blockHeader / 8
  }

  function BlocksStep(t: seq<byte>): Step {
    if |t| < 3 then Torn else
    var blockHeader := ReadUInt24LE(t);
    var length := 3 + PayloadBytes(blockHeader);
    if blockHeader / 2 % 4 == 3 then Corrupt(ReservedBlockType, 0)
    else if |t| < length then Torn
    else if blockHeader % 2 == 1 then Done(length)
    else BlocksStep(t[length..]).After(length)
  }

  /** The checksum, when there is one, follows the blocks. */
  function ChecksumStep(t: seq<byte>, blocks: Step, checksum: bool): Step {
    if !blocks.Done? || !checksum then blocks
    else if |t| < blocks.length + 4 then Torn
    else Done(blocks.length + 4)
  }

  function FrameStep(t: seq<byte>): Step {
    if |t| < 4 then Torn
    else if ReadUInt32LE(t) != ZSTD_MAGIC then Corrupt(BadMagic, 0)
    else if |t| == 4 then Torn
    else if ReservedBits(t[4]) then Corrupt(ReservedHeaderBit, 4)
    else
      var header := 5 + RemainingHeaderBytes(t[4]);
      if |t| < header then Torn
      else ChecksumStep(t[header..], BlocksStep(t[header..]), HasChecksum(t[4])).After(header)
  }

  lemma {:induction false} BlocksStepBounds(t: seq<byte>)
    ensures BlocksStep(t).Done? ==> 3 <= BlocksStep(t).length <= |t|
    decreases |t|
  {
    if |t| >= 3 {
      var length := 3 + PayloadBytes(ReadUInt24LE(t));
      if |t| >= length {
        BlocksStepBounds(t[length..]);
      }
    }
  }

  /** Every complete frame takes at least nine bytes, which is what makes the scan terminate. */
  lemma {:induction false} FrameStepBounds(t: seq<byte>)
    ensures FrameStep(t).Done? ==> 9 <= FrameStep(t).length <= |t|
  {
    if FrameStep(t).Done? {
      BlocksStepBounds(t[5 + RemainingHeaderBytes(t[4])..]);
    }
  }

  /** The scan of `t`, reported as if `t` began at byte `base` of the buffer. */
  function ScanFrom(t: seq<byte>, base: nat): Result<Scan, ScanError>
    decreases |t|
  {
    if t == [] then Ok(Scan([], None)) else
    match FrameStep(t)
    case Torn => Ok(Scan([], Some(base)))
    case Corrupt(fault, at) => Err(ScanError(fault, base + at))
    case Done(n) =>
      FrameStepBounds(t);
      Prepend([FrameRange(base, base + n)], ScanFrom(t[n..], base + n))
  }

  function Prepend(frames: seq<FrameRange>, rest: Result<Scan, ScanError>): Result<Scan, ScanError> {
    match rest
    case Ok(scan) => Ok(Scan(frames + scan.frames, scan.tornStart))
    case Err(e) => Err(e)
  }

  lemma PrependNothing(rest: Result<Scan, ScanError>)
    ensures Prepend([], rest) == rest
  {
    if rest.Ok? {
      assert [] + rest.value.frames == rest.value.frames;
    }
  }

  lemma PrependTwice(f: seq<FrameRange>, g: seq<FrameRange>, rest: Result<Scan, ScanError>)
    ensures Prepend(f, Prepend(g, rest)) == Prepend(f + g, rest)
  {
    if rest.Ok? {
      assert f + (g + rest.value.frames) == f + g + rest.value.frames;
    }
  }

  /** The blocks of a frame that starts at `offset`; `end` is where a `Done` walk stopped. */
  method WalkBlocks(buffer: seq<byte>, offset: nat) returns (step: Step)
    requires offset <= |buffer|
    ensures step == BlocksStep(buffer[offset..])
    ensures step.Done? ==> offset + step.length <= |buffer|
  {
    hide ReadUInt24LE;
    var at := offset;
    while true
      invariant offset <= at <= |buffer|
      invariant BlocksStep(buffer[offset..]) == BlocksStep(buffer[at..]).After(at - offset)
      decreases |buffer| - at
    {
      if |buffer| - at < 3 {
        return Torn;
      }
      var blockHeader := ReadUInt24LE(buffer[at..]);
      at := at + 3;
      if blockHeader / 2 % 4 == 3 {
        return Corrupt(ReservedBlockType, at - 3 - offset);
      }
      var payloadBytes := PayloadBytes(blockHeader);
      if |buffer| - at < payloadBytes {
        return Torn;
      }
      assert buffer[at - 3..][3 + payloadBytes..] == buffer[at + payloadBytes..];
      at := at + payloadBytes;
      if blockHeader % 2 == 1 {
        return Done(at - offset);
      }
    }
  }

  /** One pass of the outer loop: the attempt to step over the frame that starts at `start`. */
  method WalkFrame(buffer: seq<byte>, start: nat) returns (step: Step)
    requires start < |buffer|
    ensures step == FrameStep(buffer[start..])
  {
    hide BlocksStep, RemainingHeaderBytes;
    var offset := start;
    ghost var t := buffer[start..];
    if |buffer| - offset < 4 {
      return Torn;
    }
    if ReadUInt32LE(buffer[offset..]) != ZSTD_MAGIC {
      return Corrupt(BadMagic, 0);
    }
    offset := offset + 4;
    if offset == |buffer| {
      return Torn;
    }
    var descriptor := buffer[offset];
    offset := offset + 1;
    if ReservedBits(descriptor) {
      return Corrupt(ReservedHeaderBit, offset - 1 - start);
    }
    var remainingHeaderBytes := RemainingHeaderBytes(descriptor);
    if |buffer| - offset < remainingHeaderBytes {
      return Torn;
    }
    offset := offset + remainingHeaderBytes;
    assert t[offset - start..] == buffer[offset..];
    var blocks := WalkBlocks(buffer, offset);
    if !blocks.Done? {
      return blocks.After(offset - start);
    }
    offset := offset + blocks.length;
    if HasChecksum(descriptor) {
      if |buffer| - offset < 4 {
        return Torn;
      }
      offset := offset + 4;
    }
    return Done(offset - start);
  }

  /** The scanner itself: it keeps only an offset and the frames found so far. */
  method ScanZstdFrames(buffer: seq<byte>) returns (r: Result<Scan, ScanError>)
    ensures r == ScanFrom(buffer, 0)
  {
    hide FrameStep;
    var frames: seq<FrameRange> := [];
    var offset := 0;
    assert buffer[0..] == buffer;
    PrependNothing(ScanFrom(buffer, 0));
    while offset < |buffer|
      invariant 0 <= offset <= |buffer|
      invariant ScanFrom(buffer, 0) == Prepend(frames, ScanFrom(buffer[offset..], offset))
      decreases |buffer| - offset
    {
      var start := offset;
      var step := WalkFrame(buffer, start);
      assert frames + [] == frames;
      match step {
        case Torn => return Ok(Scan(frames, Some(start)));
        case Corrupt(fault, at) => return Err(ScanError(fault, start + at));
        case Done(length) =>
          FrameStepBounds(buffer[start..]);
          offset := start + length;
          assert buffer[start..][length..] == buffer[offset..];
          PrependTwice(frames, [FrameRange(start, offset)], ScanFrom(buffer[offset..], offset));
          frames := frames + [FrameRange(start, offset)];
      }
    }
    assert frames + [] == frames;
    r := Ok(Scan(frames, None));
  }
}
