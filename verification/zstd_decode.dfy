/** `decodeZstdSessionLog`: every complete frame of a log, inflated one by one under a shared budget. */
module ZstdDecode {
  import opened Common
  import opened ZstdScanner
  import opened SessionLog

  /**
   * The decompressor, uninterpreted: `None` for a frame it rejects as corrupt. Given a cap it fails
   * exactly when its output would exceed the cap.
   */
  type Decompressor = seq<byte> -> Option<seq<byte>>

  function Decompress(frame: seq<byte>, cap: Option<nat>, zstd: Decompressor): Result<seq<byte>, ReadError> {
    match zstd(frame)
    case None => Err(CorruptFrame(frame))
    case Some(out) => if cap.Some? && |out| > cap.value then Err(LimitExceeded(DecodedByteLimit)) else Ok(out)
  }

  /** The bytes of each frame range. */
  predicate InBounds(frames: seq<FrameRange>, n: nat) {
    forall f <- frames :: f.start <= f.end <= n
  }

  function Parts(buffer: seq<byte>, frames: seq<FrameRange>): (parts: seq<seq<byte>>)
    requires InBounds(frames, |buffer|)
    ensures |parts| == |frames|
    ensures forall i | 0 <= i < |frames| :: parts[i] == buffer[frames[i].start..frames[i].end]
  {
    seq(|frames|, i requires 0 <= i < |frames| => buffer[frames[i].start..frames[i].end])
  }

  lemma {:induction false} ScanIsInBounds(t: seq<byte>, base: nat)
    ensures ScanFrom(t, base).Ok? ==> InBounds(ScanFrom(t, base).value.frames, base + |t|)
    decreases |t|
  {
    hide FrameStep;
    if t != [] && FrameStep(t).Done? {
      FrameStepBounds(t);
      ScanIsInBounds(t[FrameStep(t).length..], base + FrameStep(t).length);
    }
  }

  /** All the parts inflated, in order, without any budget. */
  function Inflate(parts: seq<seq<byte>>, zstd: Decompressor): Result<seq<byte>, ReadError> {
    if parts == [] then Ok([])
    else
      match (Inflate(parts[..|parts| - 1], zstd), zstd(parts[|parts| - 1]))
      case (Err(e), _) => Err(e)
      case (Ok(_), None) => Err(CorruptFrame(parts[|parts| - 1]))
      case (Ok(before), Some(out)) => Ok(before + out)
  }

  /** How many bytes inflate before the first corrupt part, or in all when none is corrupt. */
  function IntactBytes(parts: seq<seq<byte>>, zstd: Decompressor): nat {
    if parts == [] then 0
    else
      var before := parts[..|parts| - 1];
      IntactBytes(before, zstd)
      + (if Inflate(before, zstd).Ok? && zstd(parts[|parts| - 1]).Some? then |zstd(parts[|parts| - 1]).value| else 0)
  }

  /** What a budget of `cap` bytes makes of it: the unbounded answer, unless more than `cap` bytes inflate first. */
  function Capped(parts: seq<seq<byte>>, cap: Option<nat>, zstd: Decompressor): Result<seq<byte>, ReadError> {
    if cap.Some? && IntactBytes(parts, zstd) > cap.value then Err(LimitExceeded(DecodedByteLimit))
    else Inflate(parts, zstd)
  }

  lemma {:induction false} IntactBytesMonotone(parts: seq<seq<byte>>, k: nat, zstd: Decompressor)
    requires k <= |parts|
    ensures IntactBytes(parts[..k], zstd) <= IntactBytes(parts, zstd)
    ensures Inflate(parts[..k], zstd).Err? ==> Inflate(parts, zstd) == Inflate(parts[..k], zstd)
    ensures Inflate(parts[..k], zstd).Err? ==> IntactBytes(parts[..k], zstd) == IntactBytes(parts, zstd)
  {
    if k == |parts| {
      assert parts[..k] == parts;
    } else {
      assert parts[..|parts| - 1][..k] == parts[..k];
      IntactBytesMonotone(parts[..|parts| - 1], k, zstd);
    }
  }

  lemma {:induction false} IntactBytesOfGood(parts: seq<seq<byte>>, zstd: Decompressor)
    ensures Inflate(parts, zstd).Ok? ==> IntactBytes(parts, zstd) == |Inflate(parts, zstd).value|
  {
    if parts != [] {
      IntactBytesOfGood(parts[..|parts| - 1], zstd);
    }
  }

  lemma NothingInflates(zstd: Decompressor)
    ensures Inflate([], zstd) == Ok([]) && IntactBytes([], zstd) == 0
  {
  }

  lemma InflateOneMore(parts: seq<seq<byte>>, part: seq<byte>, zstd: Decompressor)
    requires Inflate(parts, zstd).Ok?
    ensures Inflate(parts + [part], zstd)
         == match zstd(part) case None => Err(CorruptFrame(part)) case Some(out) => Ok(Inflate(parts, zstd).value + out)
    ensures IntactBytes(parts + [part], zstd)
         == IntactBytes(parts, zstd) + match zstd(part) case None => 0 case Some(out) => |out|
  {
    assert (parts + [part])[..|parts|] == parts;
  }

  /** The frames of a buffer, or the scan's own failure. */
  function FramesOf(buffer: seq<byte>): Result<seq<seq<byte>>, ReadError> {
    match ScanFrom(buffer, 0)
    case Err(_) => Err(BadFrames)
    case Ok(scan) =>
      ScanIsInBounds(buffer, 0);
      Ok(Parts(buffer, scan.frames))
  }

  /** `Math.max(0, maxOutputLength - total)`, when there is a limit. */
  function Remaining(maxOutputLength: Option<nat>, total: nat): Option<nat> {
    match maxOutputLength
    case None => None
    case Some(max) => Some(if max - total < 0 then 0 else max - total)
  }

  /** One part under what is left of the budget, when all before it went well. */
  lemma OnePartMore(parts: seq<seq<byte>>, i: nat, max: Option<nat>, zstd: Decompressor)
    requires i < |parts| && Inflate(parts[..i], zstd).Ok?
    requires max.Some? ==> IntactBytes(parts[..i], zstd) <= max.value
    ensures match Decompress(parts[i], Remaining(max, IntactBytes(parts[..i], zstd)), zstd)
            case Err(e) => Capped(parts, max, zstd) == Err(e)
            case Ok(out) =>
              && Inflate(parts[..i + 1], zstd) == Ok(Inflate(parts[..i], zstd).value + out)
              && IntactBytes(parts[..i + 1], zstd) == IntactBytes(parts[..i], zstd) + |out|
              && (max.Some? ==> IntactBytes(parts[..i + 1], zstd) <= max.value)
  {
    hide Inflate, IntactBytes;
    assert parts[..i + 1] == parts[..i] + [parts[i]];
    InflateOneMore(parts[..i], parts[i], zstd);
    IntactBytesMonotone(parts, i + 1, zstd);
  }

  method DecodeZstdSessionLog(buffer: seq<byte>, maxOutputLength: Option<nat>, zstd: Decompressor)
    returns (r: Result<seq<byte>, ReadError>)
    ensures r == match FramesOf(buffer) case Err(e) => Err(e) case Ok(parts) => Capped(parts, maxOutputLength, zstd)
  {
    var scan := ScanZstdFrames(buffer);
    if scan.Err? {
      return Err(BadFrames);
    }
    ScanIsInBounds(buffer, 0);
    hide ScanFrom, Inflate, IntactBytes, Decompress, Remaining;
    var frames := scan.value.frames;
    ghost var parts := Parts(buffer, frames);
    var decoded: seq<byte> := [];
    var total := 0;
    assert parts[..0] == [];
    NothingInflates(zstd);
    for i := 0 to |frames|
      invariant total == |decoded| == IntactBytes(parts[..i], zstd)
      invariant Inflate(parts[..i], zstd) == Ok(decoded)
      invariant maxOutputLength.Some? ==> total <= maxOutputLength.value
    {
      var frameBuffer := buffer[frames[i].start..frames[i].end];
      var remaining := Remaining(maxOutputLength, total);
      OnePartMore(parts, i, maxOutputLength, zstd);
      var chunk := Decompress(frameBuffer, remaining, zstd);
      if chunk.Err? {
        return Err(chunk.error);
      }
      decoded := decoded + chunk.value;
      total := total + |chunk.value|;
    }
    assert parts[..|frames|] == parts;
    IntactBytesOfGood(parts, zstd);
    return Ok(decoded);
  }
}
