/** The read phase of `readBoundedDshSessionTelemetry`, and the unbounded `readRawSessionFiles` it must agree with. */
module TelemetryRead {
  import opened Common
  import opened Sequences
  import opened SessionLog
  import opened ZstdDecode

  type Path = seq<string>

  datatype RawFile = RawFile(path: Path, raw: seq<byte>)

  datatype Session<+E> = Session(path: Path, events: seq<E>)

  /** The functions outside this program: the decompressor, UTF-8 decoding and `JSON.parse`. */
  datatype Codec<!E> = Codec(zstd: Decompressor, utf8: seq<byte> -> string, json: string -> Option<E>)

  datatype Limits = Limits(maxEntries: nat, maxFiles: nat, maxBytes: nat, maxDecodedBytes: nat, maxEvents: nat)

  predicate EndsWith(name: string, suffix: string) {
    |suffix| <= |name| && name[|name| - |suffix|..] == suffix
  }

  /** No path component contains a separator, so a path ends in an extension exactly when its last component does. */
  predicate IsCompressed(path: Path) {
    path != [] && EndsWith(path[|path| - 1], ".jsonl.zstd")
  }

  // ----- One file, unbounded -----

  function DecodedBytes<E>(file: RawFile, codec: Codec<E>): Result<seq<byte>, ReadError> {
    if !IsCompressed(file.path) then Ok(file.raw)
    else
      match FramesOf(file.raw)
      case Err(e) => Err(e)
      case Ok(parts) => Capped(parts, None, codec.zstd)
  }

  function ReadLog<E>(file: RawFile, codec: Codec<E>): Result<seq<E>, ReadError> {
    match DecodedBytes(file, codec)
    case Err(e) => Err(e)
    case Ok(bytes) => ParseSessionLog(codec.utf8(bytes), codec.json)
  }

  /** The decoded bytes a file yields, up to its first corrupt frame if it has one. */
  function ByteCount<E>(file: RawFile, codec: Codec<E>): nat {
    if !IsCompressed(file.path) then |file.raw|
    else if FramesOf(file.raw).Err? then 0
    else IntactBytes(FramesOf(file.raw).value, codec.zstd)
  }

  /** The non-blank lines of a file that decodes. */
  function EventCount<E>(file: RawFile, codec: Codec<E>): nat {
    match DecodedBytes(file, codec)
    case Err(_) => 0
    case Ok(bytes) => |NonBlank(Lines(codec.utf8(bytes)))|
  }

  lemma CountsOfReadableFile<E>(file: RawFile, codec: Codec<E>)
    ensures DecodedBytes(file, codec).Ok? ==> ByteCount(file, codec) == |DecodedBytes(file, codec).value|
    ensures ReadLog(file, codec).Ok? ==> EventCount(file, codec) == |ReadLog(file, codec).value|
  {
    if IsCompressed(file.path) && FramesOf(file.raw).Ok? {
      IntactBytesOfGood(FramesOf(file.raw).value, codec.zstd);
    }
  }

  // ----- Totals over files -----

  function TotalBytes<E>(files: seq<RawFile>, codec: Codec<E>): nat {
    Sum(files, (f: RawFile) => ByteCount(f, codec))
  }

  function TotalEvents<E>(files: seq<RawFile>, codec: Codec<E>): nat {
    Sum(files, (f: RawFile) => EventCount(f, codec))
  }

  predicate AllReadable<E>(files: seq<RawFile>, codec: Codec<E>) {
    forall f <- files :: ReadLog(f, codec).Ok?
  }

  /** One log in full; an unreadable one, which no caller asks about, is empty. */
  function SessionOf<E>(file: RawFile, codec: Codec<E>): Session<E> {
    match ReadLog(file, codec)
    case Ok(events) => Session(file.path, events)
    case Err(_) => Session(file.path, [])
  }

  /** Every log, in full. */
  function ReadAll<E>(files: seq<RawFile>, codec: Codec<E>): seq<Session<E>> {
    Map(files, (f: RawFile) => SessionOf(f, codec))
  }

  lemma {:induction false} TotalsMonotone<E>(files: seq<RawFile>, k: nat, codec: Codec<E>)
    requires k <= |files|
    ensures TotalBytes(files[..k], codec) <= TotalBytes(files, codec)
    ensures TotalEvents(files[..k], codec) <= TotalEvents(files, codec)
  {
    hide ByteCount, EventCount;
    if k == |files| {
      assert files[..k] == files;
    } else {
      assert files[..|files| - 1][..k] == files[..k];
      TotalsMonotone(files[..|files| - 1], k, codec);
    }
  }

  lemma TotalsOfOneMore<E>(files: seq<RawFile>, k: nat, codec: Codec<E>)
    requires k < |files|
    ensures TotalBytes(files[..k + 1], codec) == TotalBytes(files[..k], codec) + ByteCount(files[k], codec)
    ensures TotalEvents(files[..k + 1], codec) == TotalEvents(files[..k], codec) + EventCount(files[k], codec)
    ensures AllReadable(files[..k + 1], codec) <==> AllReadable(files[..k], codec) && ReadLog(files[k], codec).Ok?
    ensures ReadAll(files[..k + 1], codec) == ReadAll(files[..k], codec) + [SessionOf(files[k], codec)]
    ensures TotalBytes(files[..k + 1], codec) <= TotalBytes(files, codec)
    ensures TotalEvents(files[..k + 1], codec) <= TotalEvents(files, codec)
  {
    hide ByteCount, EventCount, SessionOf;
    assert files[..k + 1][..k] == files[..k] && files[..k + 1][k] == files[k];
    assert files[..k + 1] == files[..k] + [files[k]];
    TotalsMonotone(files, k + 1, codec);
  }

  // ----- The bounded read -----

  /** Why a bounded read of `files` may fail with `e`. */
  ghost predicate FailureIsReal<E>(files: seq<RawFile>, limits: Limits, codec: Codec<E>, e: ReadError) {
    match e
    case LimitExceeded(DecodedByteLimit) => TotalBytes(files, codec) > limits.maxDecodedBytes
    case LimitExceeded(EventLimit) => TotalEvents(files, codec) > limits.maxEvents
    case LimitExceeded(_) => false
    case _ => exists f <- files :: ReadLog(f, codec) == Err(e)
  }

  predicate WithinReadLimits<E>(files: seq<RawFile>, limits: Limits, codec: Codec<E>) {
    TotalBytes(files, codec) <= limits.maxDecodedBytes && TotalEvents(files, codec) <= limits.maxEvents
  }

  /** One file of the loop: decode within the bytes that are left, then parse within the events that are left. */
  method ReadOne<E>(file: RawFile, bytesLeft: nat, eventsLeft: nat, codec: Codec<E>)
    returns (r: Result<(nat, seq<E>), ReadError>)
    ensures r.Ok? <==> ReadLog(file, codec).Ok? && ByteCount(file, codec) <= bytesLeft && EventCount(file, codec) <= eventsLeft
    ensures r.Ok? ==> r.value == (ByteCount(file, codec), ReadLog(file, codec).value)
    ensures r == Err(LimitExceeded(DecodedByteLimit)) ==> ByteCount(file, codec) > bytesLeft
    ensures r == Err(LimitExceeded(EventLimit)) ==> EventCount(file, codec) > eventsLeft
    ensures r.Err? && !r.error.LimitExceeded? ==> ReadLog(file, codec) == Err(r.error)
    ensures r.Err? && r.error.LimitExceeded? ==> r.error.limit in {DecodedByteLimit, EventLimit}
  {
    hide FramesOf, NonBlank, Lines, ParseAll, IntactBytes, Inflate;
    var bytes: seq<byte>;
    if IsCompressed(file.path) {
      var decoded := DecodeZstdSessionLog(file.raw, Some(bytesLeft), codec.zstd);
      DecodedWithin(file, bytesLeft, codec);
      if decoded.Err? {
        return Err(decoded.error);
      }
      bytes := decoded.value;
    } else {
      if |file.raw| > bytesLeft {
        return Err(LimitExceeded(DecodedByteLimit));
      }
      bytes := file.raw;
    }
    assert DecodedBytes(file, codec) == Ok(bytes);
    CountsOfReadableFile(file, codec);
    var text := codec.utf8(bytes);
    ghost var kept := NonBlank(Lines(text));
    var events, parsed := ParseSessionLogBounded(text, eventsLeft, codec.json);
    ParseFailsByLine(kept, codec.json);
    ParseFailsByLine(kept[..Within(|kept|, eventsLeft)], codec.json);
    if Within(|kept|, eventsLeft) < |kept| && ParseAll(kept[..Within(|kept|, eventsLeft)], codec.json).Err? {
      ParseAllPrefixFails(kept, Within(|kept|, eventsLeft), codec.json);
    }
    if events.Err? {
      return Err(events.error);
    }
    return Ok((|bytes|, events.value));
  }

  lemma ParseFailsByLine<E>(lines: seq<string>, json: string -> Option<E>)
    ensures ParseAll(lines, json).Err? ==> ParseAll(lines, json).error.MalformedLine?
  {
    ParseAllMeaning(lines, json);
  }

  lemma {:induction false} InflateFailsByFrame(parts: seq<seq<byte>>, zstd: Decompressor)
    ensures Inflate(parts, zstd).Err? ==> Inflate(parts, zstd).error.CorruptFrame?
  {
    if parts != [] {
      InflateFailsByFrame(parts[..|parts| - 1], zstd);
    }
  }

  /** Decoding under a budget, compared with decoding without one. */
  lemma DecodedWithin<E>(file: RawFile, bytesLeft: nat, codec: Codec<E>)
    requires IsCompressed(file.path)
    ensures var r := match FramesOf(file.raw) case Err(e) => Err(e) case Ok(parts) => Capped(parts, Some(bytesLeft), codec.zstd);
            && (r.Ok? ==> DecodedBytes(file, codec) == r && |r.value| == ByteCount(file, codec) <= bytesLeft)
            && (r.Err? ==> if r.error == LimitExceeded(DecodedByteLimit) then ByteCount(file, codec) > bytesLeft
                           else DecodedBytes(file, codec) == r && !r.error.LimitExceeded?)
  {
    hide Inflate, IntactBytes;
    var frames := FramesOf(file.raw);
    if frames.Ok? {
      IntactBytesOfGood(frames.value, codec.zstd);
      InflateFailsByFrame(frames.value, codec.zstd);
    }
  }

  /**
   * Reading files under shrinking budgets. It succeeds exactly when every file reads on its own and the
   * totals are within the limits, and then returns exactly what the unbounded reader returns for each.
   * A limit error means that total really is too large; any other error is some file's own.
   */
  method ReadWithinBudgets<E>(files: seq<RawFile>, limits: Limits, codec: Codec<E>)
    returns (r: Result<seq<Session<E>>, ReadError>)
    ensures r.Ok? <==> AllReadable(files, codec) && WithinReadLimits(files, limits, codec)
    ensures r.Ok? ==> r.value == ReadAll(files, codec)
    ensures r.Err? ==> FailureIsReal(files, limits, codec, r.error)
  {
    hide ReadLog, ByteCount, EventCount;
    var decodedBytesSoFar, eventsSoFar := 0, 0;
    var sessions: seq<Session<E>> := [];
    assert files[..0] == [];
    for i := 0 to |files|
      invariant AllReadable(files[..i], codec)
      invariant sessions == ReadAll(files[..i], codec)
      invariant decodedBytesSoFar == TotalBytes(files[..i], codec) <= limits.maxDecodedBytes
      invariant eventsSoFar == TotalEvents(files[..i], codec) <= limits.maxEvents
    {
      var file := files[i];
      TotalsOfOneMore(files, i, codec);
      CountsOfReadableFile(file, codec);
      var one := ReadOne(file, limits.maxDecodedBytes - decodedBytesSoFar, limits.maxEvents - eventsSoFar, codec);
      if one.Err? {
        assert file in files;
        return Err(one.error);
      }
      decodedBytesSoFar := decodedBytesSoFar + one.value.0;
      eventsSoFar := eventsSoFar + |one.value.1|;
      sessions := sessions + [Session(file.path, one.value.1)];
    }
    assert files[..|files|] == files;
    return Ok(sessions);
  }
}
