/**
 * What a session log file says, from the bytes up: frames, cut anywhere, inflated one by one, joined and split
 * into lines. Said with the frame encoder and the decompressor, and without scanning.
 */
module ZstdLog {
  import opened Common
  import opened ZstdFormat
  import opened ZstdScanner
  import opened ZstdTheorems
  import opened ZstdDecode
  import opened SessionLog
  import opened TelemetryRead

  function Joined(outs: seq<seq<byte>>): seq<byte> {
    if outs == [] then [] else outs[0] + Joined(outs[1..])
  }

  lemma {:induction false} JoinedOneMore(outs: seq<seq<byte>>, out: seq<byte>)
    ensures Joined(outs + [out]) == Joined(outs) + out
  {
    if outs == [] {
      assert [out][1..] == [];
      assert Joined([out]) == out + [];
    } else {
      assert (outs + [out])[1..] == outs[1..] + [out];
      JoinedOneMore(outs[1..], out);
    }
  }

  /** Every part inflates to the output at its place. */
  ghost predicate InflateTo(parts: seq<seq<byte>>, outs: seq<seq<byte>>, zstd: Decompressor) {
    |outs| == |parts| && forall i | 0 <= i < |parts| :: zstd(parts[i]) == Some(outs[i])
  }

  /** All parts inflate, and the outputs are joined in order; or one does not, and the first such is named. */
  lemma {:induction false} InflateMeaning(parts: seq<seq<byte>>, zstd: Decompressor) returns (k: nat, outs: seq<seq<byte>>)
    ensures k <= |parts| && InflateTo(parts[..k], outs, zstd) && (k < |parts| ==> zstd(parts[k]) == None)
    ensures Inflate(parts, zstd) == (if k == |parts| then Ok(Joined(outs)) else Err(CorruptFrame(parts[k])))
    ensures IntactBytes(parts, zstd) == |Joined(outs)|
  {
    if parts == [] {
      k, outs := 0, [];
    } else {
      var n := |parts| - 1;
      k, outs := InflateMeaning(parts[..n], zstd);
      if k == n && zstd(parts[n]).Some? {
        JoinedOneMore(outs, zstd(parts[n]).value);
        assert parts[..n][..n] == parts[..n];
        k, outs := n + 1, outs + [zstd(parts[n]).value];
        assert parts[..n + 1] == parts;
      } else {
        assert parts[..n][..k] == parts[..k];
      }
    }
  }

  function Encodings(fs: seq<Frame>): (parts: seq<seq<byte>>)
    requires ValidFrames(fs)
    ensures |parts| == |fs| && forall i | 0 <= i < |fs| :: parts[i] == EncodeFrame(fs[i])
  {
    seq(|fs|, i requires 0 <= i < |fs| => EncodeFrame(fs[i]))
  }

  lemma {:induction false} BoundariesCut(fs: seq<Frame>, base: nat, buffer: seq<byte>, i: nat)
    requires ValidFrames(fs) && i < |fs|
    requires base <= |buffer| && EncodeStream(fs) <= buffer[base..]
    ensures |Boundaries(fs, base)| == |fs|
    ensures var f := Boundaries(fs, base)[i]; f.start <= f.end <= |buffer| && buffer[f.start..f.end] == EncodeFrame(fs[i])
  {
    hide EncodeFrame;
    var first := EncodeFrame(fs[0]);
    CutOff(buffer, base, first, EncodeStream(fs[1..]));
    if |fs| > 1 {
      BoundariesCut(fs[1..], base + |first|, buffer, if i == 0 then 0 else i - 1);
    }
  }

  lemma CutOff(buffer: seq<byte>, base: nat, first: seq<byte>, rest: seq<byte>)
    requires base <= |buffer| && first + rest <= buffer[base..]
    ensures base + |first| <= |buffer| && buffer[base..base + |first|] == first
    ensures rest <= buffer[base + |first|..]
  {
    var tail := buffer[base..];
    assert tail[..|first|] == (first + rest)[..|first|] == first;
    assert tail[|first|..][..|rest|] == (first + rest)[|first|..] == rest;
    assert tail[|first|..] == buffer[base + |first|..];
  }

  /** Cut a stream of frames anywhere: what is decoded is the frames that are there whole, each as it was encoded. */
  lemma CutStreamHasFrames(fs: seq<Frame>, n: nat) returns (k: nat)
    requires ValidFrames(fs) && n <= |EncodeStream(fs)|
    ensures k <= |fs| && |EncodeStream(fs[..k])| <= n && (k < |fs| ==> n < |EncodeStream(fs[..k + 1])|)
    ensures FramesOf(EncodeStream(fs)[..n]) == Ok(Encodings(fs[..k]))
  {
    k := TruncationTheorem(fs, n);
    hide EncodeFrame, EncodeStream, TornTail, Boundaries, ScanFrom, Parts, Encodings;
    PrefixOfStream(fs, k);
    ScanIsInBounds(EncodeStream(fs)[..n], 0);
    PartsOfWhole(EncodeStream(fs)[..n], fs[..k]);
  }

  lemma PartsOfWhole(buffer: seq<byte>, fs: seq<Frame>)
    requires ValidFrames(fs) && EncodeStream(fs) <= buffer
    ensures InBounds(Boundaries(fs, 0), |buffer|) && Parts(buffer, Boundaries(fs, 0)) == Encodings(fs)
  {
    hide EncodeFrame, EncodeStream;
    assert buffer[0..] == buffer;
    forall i | 0 <= i < |fs|
      ensures |Boundaries(fs, 0)| == |fs|
      ensures var f := Boundaries(fs, 0)[i]; f.start <= f.end <= |buffer| && buffer[f.start..f.end] == EncodeFrame(fs[i])
    {
      BoundariesCut(fs, 0, buffer, i);
    }
    if fs == [] {
      assert Boundaries(fs, 0) == [];
    }
    hide Boundaries;
    assert InBounds(Boundaries(fs, 0), |buffer|);
  }

  lemma {:induction false} PrefixOfStream(fs: seq<Frame>, k: nat)
    requires ValidFrames(fs) && k <= |fs|
    ensures EncodeStream(fs[..k]) <= EncodeStream(fs)
  {
    hide EncodeFrame;
    if k > 0 {
      assert fs[..k][1..] == fs[1..][..k - 1];
      PrefixOfStream(fs[1..], k - 1);
    }
  }

  /**
   * A compressed log, cut anywhere while it was written: the unbounded reader parses the text of all the whole
   * frames, and fails on the first of them that does not inflate. The torn rest is dropped.
   */
  lemma CompressedLog<E>(dir: Path, stem: string, fs: seq<Frame>, n: nat, codec: Codec<E>)
      returns (k: nat, good: nat, outs: seq<seq<byte>>)
    requires ValidFrames(fs) && n <= |EncodeStream(fs)|
    ensures k <= |fs| && |EncodeStream(fs[..k])| <= n && (k < |fs| ==> n < |EncodeStream(fs[..k + 1])|)
    ensures good <= k && InflateTo(Encodings(fs[..good]), outs, codec.zstd)
    ensures good < k ==> codec.zstd(EncodeFrame(fs[good])) == None
    ensures ReadLog(RawFile(dir + [stem + ".jsonl.zstd"], EncodeStream(fs)[..n]), codec)
         == if good < k then Err(CorruptFrame(EncodeFrame(fs[good])))
            else ParseSessionLog(codec.utf8(Joined(outs)), codec.json)
  {
    k := CutStreamHasFrames(fs, n);
    hide EncodeFrame, EncodeStream, FramesOf, Inflate, IntactBytes, Joined, ParseSessionLog, IsCompressed;
    var parts := Encodings(fs[..k]);
    good, outs := InflateMeaning(parts, codec.zstd);
    assert parts[..good] == Encodings(fs[..good]);
    CompressedName(dir, stem);
  }

  lemma CompressedName(dir: Path, stem: string)
    ensures IsCompressed(dir + [stem + ".jsonl.zstd"])
    ensures !IsCompressed(dir + [stem + ".jsonl"])
  {
    var name, other := stem + ".jsonl.zstd", stem + ".jsonl";
    assert (dir + [name])[|dir|] == name && name[|name| - |".jsonl.zstd"|..] == ".jsonl.zstd";
    assert (dir + [other])[|dir|] == other && other[|other| - 1] == 'l';
  }

  /** An uncompressed log: the text is the bytes. */
  lemma PlainLog<E>(dir: Path, stem: string, raw: seq<byte>, codec: Codec<E>)
    ensures ReadLog(RawFile(dir + [stem + ".jsonl"], raw), codec) == ParseSessionLog(codec.utf8(raw), codec.json)
  {
    hide ParseSessionLog, IsCompressed;
    CompressedName(dir, stem);
  }
}
