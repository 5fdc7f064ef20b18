/** `parseSessionLog` and `parseSessionLogBounded`: one JSON value per non-blank line. */
module SessionLog {
  import opened Common

  datatype Limit = EntryLimit | FileLimit | ByteLimit | DecodedByteLimit | EventLimit

  /** `LimitExceeded` is the distinct error class; everything else is corruption of the evidence. */
  datatype ReadError =
    | LimitExceeded(limit: Limit)
    | MalformedLine(line: string)
    | BadFrames
    | CorruptFrame(frame: seq<byte>)

  /** What `String.prototype.trim` removes: white space and line terminators. */
  predicate IsWhiteSpace(c: char) {
    || '\U{0009}' <= c <= '\U{000d}' || c == ' ' || c == '\U{00a0}' || c == '\U{1680}' || '\U{2000}' <= c <= '\U{200a}'
    || c == '\U{2028}' || c == '\U{2029}' || c == '\U{202f}' || c == '\U{205f}' || c == '\U{3000}' || c == '\U{feff}'
  }

  predicate IsBlank(line: string) {
    forall c <- line :: IsWhiteSpace(c)
  }

  /** `text.indexOf("\n", pos)`, with `None` for -1. */
  function NewlineFrom(text: string, pos: nat): (at: Option<nat>)
    requires pos <= |text|
    ensures at.Some? ==> pos <= at.value < |text| && text[at.value] == '\n' && '\n' !in text[pos..at.value]
    ensures at.None? ==> '\n' !in text[pos..]
    decreases |text| - pos
  {
    if pos == |text| then None
    else if text[pos] == '\n' then Some(pos)
    else
      assert text[pos..] == [text[pos]] + text[pos + 1..];
      var at := NewlineFrom(text, pos + 1);
      assert at.Some? ==> text[pos..at.value] == [text[pos]] + text[pos + 1..at.value];
      at
  }

  /** `text.split("\n")`. */
  function Lines(text: string): (lines: seq<string>)
    ensures lines != []
    decreases |text|
  {
    match NewlineFrom(text, 0)
    case None => [text]
    case Some(at) => [text[..at]] + Lines(text[at + 1..])
  }

  function JoinLines(lines: seq<string>): string {
    if lines == [] then "" else if |lines| == 1 then lines[0] else lines[0] + "\n" + JoinLines(lines[1..])
  }

  /** The lines are the one way to cut the text at every newline and nowhere else. */
  lemma {:induction false} LinesAreTheCut(text: string, lines: seq<string>)
    ensures lines == Lines(text) <==> lines != [] && JoinLines(lines) == text && forall l <- lines :: '\n' !in l
    decreases |text|
  {
    CutIsLines(text);
    if lines != [] && JoinLines(lines) == text && forall l <- lines :: '\n' !in l {
      var at := NewlineFrom(text, 0);
      if |lines| == 1 {
        assert text == lines[0] && lines[0] in lines;
      } else {
        var rest := lines[1..];
        assert text == lines[0] + "\n" + JoinLines(rest);
        assert text[..|lines[0]|] == lines[0] && lines[0] in lines;
        assert text[|lines[0]|] == '\n';
        FirstNewline(text, |lines[0]|);
        assert text[at.value + 1..] == JoinLines(rest);
        LinesAreTheCut(text[at.value + 1..], rest);
        assert lines == [lines[0]] + rest;
      }
    }
  }

  lemma FirstNewline(text: string, n: nat)
    requires n < |text| && text[n] == '\n' && '\n' !in text[..n]
    ensures NewlineFrom(text, 0) == Some(n)
  {
    assert text[0..] == text;
    assert forall m | 0 <= m < n :: text[m] == text[..n][m] != '\n';
  }

  lemma {:induction false} CutIsLines(text: string)
    ensures JoinLines(Lines(text)) == text && forall l <- Lines(text) :: '\n' !in l
    decreases |text|
  {
    match NewlineFrom(text, 0) {
      case None => assert text[0..] == text;
      case Some(at) =>
        CutIsLines(text[at + 1..]);
        assert text[0..at] == text[..at];
        assert text == text[..at] + "\n" + text[at + 1..];
    }
  }

  function NonBlank(lines: seq<string>): seq<string> {
    if lines == [] then []
    else (if IsBlank(lines[0]) then [] else [lines[0]]) + NonBlank(lines[1..])
  }

  /** White space is the 25 characters that `trim` takes away: 11.2 and 11.3 of ECMA-262, and U+FEFF. */
  lemma WhiteSpaceIs(c: char)
    ensures IsWhiteSpace(c) <==> c in {
              '\t', '\n', '\U{000b}', '\U{000c}', '\r', ' ', '\U{00a0}', '\U{1680}', '\U{2000}', '\U{2001}', '\U{2002}',
              '\U{2003}', '\U{2004}', '\U{2005}', '\U{2006}', '\U{2007}', '\U{2008}', '\U{2009}', '\U{200a}', '\U{2028}',
              '\U{2029}', '\U{202f}', '\U{205f}', '\U{3000}', '\U{feff}'}
  {
  }

  /** There is something on the line besides white space. */
  predicate HasText(line: string) {
    exists c <- line :: !IsWhiteSpace(c)
  }

  /** The lines kept are all those from `start` on with something on them, in order. */
  ghost predicate AreTheNonBlank(at: seq<nat>, kept: seq<string>, lines: seq<string>, start: nat) {
    && |at| == |kept|
    && (forall k | 0 <= k < |at| :: start <= at[k] < |lines| && lines[at[k]] == kept[k] && HasText(kept[k]))
    && (forall k, l | 0 <= k < l < |at| :: at[k] < at[l])
    && (forall i: nat | start <= i < |lines| && HasText(lines[i]) :: i in at)
  }

  lemma {:induction false} NonBlankMeaning(lines: seq<string>, start: nat) returns (at: seq<nat>)
    requires start <= |lines|
    ensures AreTheNonBlank(at, NonBlank(lines[start..]), lines, start)
    decreases |lines| - start
  {
    hide AreTheNonBlank, IsBlank, HasText;
    if start == |lines| {
      at := [];
      NothingIsNonBlank(lines);
    } else {
      var rest := NonBlankMeaning(lines, start + 1);
      assert lines[start..][1..] == lines[start + 1..];
      BlankHasNoText(lines[start]);
      if IsBlank(lines[start]) {
        at := rest;
        PassOver(rest, NonBlank(lines[start + 1..]), lines, start);
        assert [] + NonBlank(lines[start + 1..]) == NonBlank(lines[start + 1..]);
      } else {
        at := [start] + rest;
        KeepAlso(rest, NonBlank(lines[start + 1..]), lines, start);
      }
    }
  }

  lemma NothingIsNonBlank(lines: seq<string>)
    ensures AreTheNonBlank([], [], lines, |lines|)
  {
  }

  lemma BlankHasNoText(line: string)
    ensures IsBlank(line) <==> !HasText(line)
  {
    hide IsWhiteSpace;
  }

  lemma PassOver(rest: seq<nat>, kept: seq<string>, lines: seq<string>, start: nat)
    requires start < |lines| && AreTheNonBlank(rest, kept, lines, start + 1) && !HasText(lines[start])
    ensures AreTheNonBlank(rest, kept, lines, start)
  {
    hide HasText;
  }

  lemma KeepAlso(rest: seq<nat>, kept: seq<string>, lines: seq<string>, start: nat)
    requires start < |lines| && AreTheNonBlank(rest, kept, lines, start + 1) && HasText(lines[start])
    ensures AreTheNonBlank([start] + rest, [lines[start]] + kept, lines, start)
  {
    hide HasText;
  }

  /** `lines.map((line) => JSON.parse(line))`; the first line that does not parse throws. */
  function ParseAll<E>(lines: seq<string>, json: string -> Option<E>): (r: Result<seq<E>, ReadError>)
    ensures r.Ok? ==> |r.value| == |lines|
  {
    if lines == [] then Ok([])
    else
      var before := ParseAll(lines[..|lines| - 1], json);
      var last := lines[|lines| - 1];
      if before.Err? then before
      else if json(last).None? then Err(MalformedLine(last))
      else Ok(before.value + [json(last).value])
  }

  function ParseSessionLog<E>(text: string, json: string -> Option<E>): Result<seq<E>, ReadError> {
    ParseAll(NonBlank(Lines(text)), json)
  }

  /** The value at every position is the parse of the line at that position, and a failure names the first bad line. */
  lemma {:induction false} ParseAllMeaning<E>(lines: seq<string>, json: string -> Option<E>)
    ensures match ParseAll(lines, json)
            case Ok(events) =>
              |events| == |lines| && forall i | 0 <= i < |lines| :: json(lines[i]) == Some(events[i])
            case Err(e) =>
              exists k | 0 <= k < |lines| ::
                e == MalformedLine(lines[k]) && json(lines[k]) == None && forall i | 0 <= i < k :: json(lines[i]).Some?
  {
    if lines != [] {
      ParseAllMeaning(lines[..|lines| - 1], json);
      var n := |lines| - 1;
      var before := ParseAll(lines[..n], json);
      if before.Ok? && json(lines[n]).None? {
        assert forall i | 0 <= i < n :: lines[..n][i] == lines[i];
        assert ParseAll(lines, json) == Err(MalformedLine(lines[n]));
      } else if before.Err? {
        var k :| 0 <= k < n && before.error == MalformedLine(lines[..n][k]) && json(lines[..n][k]) == None
                 && forall i | 0 <= i < k :: json(lines[..n][i]).Some?;
        assert lines[..n][k] == lines[k];
        assert forall i | 0 <= i < k :: lines[..n][i] == lines[i];
      }
    }
  }

  /** How many of `n` things a bound of `limit` lets through; a negative bound lets nothing through. */
  function Within(n: nat, limit: int): (k: nat)
    ensures k <= n
  {
    if limit < 0 then 0 else if n <= limit then n else limit
  }

  lemma {:induction false} ParseAllPrefixFails<E>(lines: seq<string>, k: nat, json: string -> Option<E>)
    requires k <= |lines| && ParseAll(lines[..k], json).Err?
    ensures ParseAll(lines, json) == ParseAll(lines[..k], json)
  {
    if k == |lines| {
      assert lines[..k] == lines;
    } else {
      assert lines[..|lines| - 1][..k] == lines[..k];
      ParseAllPrefixFails(lines[..|lines| - 1], k, json);
    }
  }

  /**
   * The verdict of a bounded parse on the lines `kept`. When the bound lets all of them through it is
   * the unbounded one, result or error. Otherwise a malformed line among those let through throws as
   * it would there, and if there is none the bound throws.
   */
  function BoundedVerdict<E>(kept: seq<string>, maxEvents: int, json: string -> Option<E>): Result<seq<E>, ReadError> {
    var k := Within(|kept|, maxEvents);
    if k == |kept| then ParseAll(kept, json)
    else if ParseAll(kept[..k], json).Err? then ParseAll(kept[..k], json)
    else Err(LimitExceeded(EventLimit))
  }

  lemma VerdictAtMalformed<E>(kept: seq<string>, maxEvents: int, n: nat, json: string -> Option<E>)
    requires n <= Within(|kept|, maxEvents) && ParseAll(kept[..n], json).Err?
    ensures BoundedVerdict(kept, maxEvents, json) == ParseAll(kept[..n], json)
  {
    hide ParseAll;
    var k := Within(|kept|, maxEvents);
    ParseAllPrefixFails(kept, n, json);
    assert kept[..k][..n] == kept[..n];
    ParseAllPrefixFails(kept[..k], n, json);
  }

  lemma ParseAllSnoc<E>(lines: seq<string>, line: string, json: string -> Option<E>)
    requires ParseAll(lines, json).Ok?
    ensures ParseAll(lines + [line], json)
         == if json(line).None? then Err(MalformedLine(line)) else Ok(ParseAll(lines, json).value + [json(line).value])
  {
    assert (lines + [line])[..|lines|] == lines;
  }

  /** What the next non-blank line means for the verdict, and that it is within the bound if it may be parsed. */
  lemma VerdictAtNextLine<E>(
      kept: seq<string>, parsed: seq<string>, line: string, after: seq<string>, maxEvents: int, json: string -> Option<E>)
    requires kept == parsed + ([line] + after)
    requires parsed <= kept[..Within(|kept|, maxEvents)] && ParseAll(parsed, json).Ok?
    ensures kept == parsed + [line] + after
    ensures |parsed| >= maxEvents ==> BoundedVerdict(kept, maxEvents, json) == Err(LimitExceeded(EventLimit))
    ensures |parsed| < maxEvents ==> parsed + [line] <= kept[..Within(|kept|, maxEvents)]
    ensures |parsed| < maxEvents && json(line).None? ==> BoundedVerdict(kept, maxEvents, json) == Err(MalformedLine(line))
    ensures json(line).Some? ==> ParseAll(parsed + [line], json) == Ok(ParseAll(parsed, json).value + [json(line).value])
  {
    hide ParseAll;
    KeptOneMore(kept, parsed, line, after);
    ParseAllSnoc(parsed, line, json);
    if |parsed| < maxEvents && json(line).None? {
      VerdictAtMalformed(kept, maxEvents, |parsed| + 1, json);
    }
  }

  lemma VerdictAtEnd<E>(kept: seq<string>, maxEvents: int, json: string -> Option<E>)
    requires LetThrough(kept, kept, maxEvents)
    ensures BoundedVerdict(kept, maxEvents, json) == ParseAll(kept, json)
  {
  }

  /** These are the first of the lines, and no more of them than the bound lets through. */
  predicate LetThrough(parsed: seq<string>, kept: seq<string>, maxEvents: int) {
    parsed <= kept[..Within(|kept|, maxEvents)]
  }

  /** The parser has come to `pos`, with `parsed` of the lines behind it and the rest still to come. */
  ghost predicate HasParsed<E>(
      text: string, pos: nat, kept: seq<string>, parsed: seq<string>, events: seq<E>, maxEvents: int,
      json: string -> Option<E>)
    requires pos <= |text|
  {
    && kept == parsed + NonBlank(Lines(text[pos..]))
    && LetThrough(parsed, kept, maxEvents)
    && ParseAll(parsed, json) == Ok(events)
  }

  /** The parser goes on behind the newline, or is done when there is none. */
  ghost predicate GoesOn<E>(
      text: string, newline: Option<nat>, kept: seq<string>, parsed: seq<string>, events: seq<E>, maxEvents: int,
      json: string -> Option<E>)
    requires newline.Some? ==> newline.value < |text|
  {
    match newline
    case None => LetThrough(parsed, kept, maxEvents) && BoundedVerdict(kept, maxEvents, json) == Ok(events)
    case Some(at) => HasParsed(text, at + 1, kept, parsed, events, maxEvents, json)
  }

  lemma ParsingStarts<E>(text: string, maxEvents: int, json: string -> Option<E>)
    ensures HasParsed(text, 0, NonBlank(Lines(text)), [], [], maxEvents, json)
  {
    assert text[0..] == text;
  }

  lemma GoesOnWith<E>(
      text: string, newline: Option<nat>, kept: seq<string>, parsed: seq<string>, events: seq<E>, maxEvents: int,
      json: string -> Option<E>)
    requires newline.Some? ==> newline.value < |text|
    requires kept == parsed + (match newline case None => [] case Some(at) => NonBlank(Lines(text[at + 1..])))
    requires LetThrough(parsed, kept, maxEvents) && ParseAll(parsed, json) == Ok(events)
    ensures GoesOn(text, newline, kept, parsed, events, maxEvents, json)
  {
    hide ParseAll, Lines, NonBlank, BoundedVerdict, LetThrough;
    if newline.None? {
      assert parsed + [] == parsed;
      VerdictAtEnd(kept, maxEvents, json);
    }
  }

  /** What one line means for the parser: it is passed over, or parsed and collected, or ends the parse as it should end. */
  lemma NextLine<E>(
      text: string, pos: nat, kept: seq<string>, parsed: seq<string>, events: seq<E>, maxEvents: int,
      json: string -> Option<E>)
    requires pos <= |text| && HasParsed(text, pos, kept, parsed, events, maxEvents, json)
    ensures LetThrough(parsed, kept, maxEvents)
    ensures var newline := NewlineFrom(text, pos);
            var line := match newline case None => text[pos..] case Some(at) => text[pos..at];
            if IsBlank(line) then GoesOn(text, newline, kept, parsed, events, maxEvents, json)
            else if |events| >= maxEvents then BoundedVerdict(kept, maxEvents, json) == Err(LimitExceeded(EventLimit))
            else
              && LetThrough(parsed + [line], kept, maxEvents)
              && match json(line)
                 case None => BoundedVerdict(kept, maxEvents, json) == Err(MalformedLine(line))
                 case Some(value) => GoesOn(text, newline, kept, parsed + [line], events + [value], maxEvents, json)
  {
    hide ParseAll, Lines, NonBlank, IsBlank, BoundedVerdict, Within, NewlineFrom, GoesOn, LetThrough;
    var newline := NewlineFrom(text, pos);
    var line := match newline case None => text[pos..] case Some(at) => text[pos..at];
    var after := match newline case None => [] case Some(at) => NonBlank(Lines(text[at + 1..]));
    LinesFrom(text, pos);
    if IsBlank(line) {
      GoesOnWith(text, newline, kept, parsed, events, maxEvents, json);
    } else {
      NextTextLine(text, newline, line, after, kept, parsed, events, maxEvents, json);
    }
  }

  lemma NextTextLine<E>(
      text: string, newline: Option<nat>, line: string, after: seq<string>, kept: seq<string>, parsed: seq<string>,
      events: seq<E>, maxEvents: int, json: string -> Option<E>)
    requires newline.Some? ==> newline.value < |text|
    requires after == match newline case None => [] case Some(at) => NonBlank(Lines(text[at + 1..]))
    requires kept == parsed + ([line] + after)
    requires LetThrough(parsed, kept, maxEvents) && ParseAll(parsed, json) == Ok(events)
    ensures if |events| >= maxEvents then BoundedVerdict(kept, maxEvents, json) == Err(LimitExceeded(EventLimit))
            else
              && LetThrough(parsed + [line], kept, maxEvents)
              && match json(line)
                 case None => BoundedVerdict(kept, maxEvents, json) == Err(MalformedLine(line))
                 case Some(value) => GoesOn(text, newline, kept, parsed + [line], events + [value], maxEvents, json)
  {
    hide ParseAll, Lines, NonBlank, BoundedVerdict, Within, GoesOn;
    VerdictAtNextLine(kept, parsed, line, after, maxEvents, json);
    if |events| < maxEvents && json(line).Some? {
      GoesOnWith(text, newline, kept, parsed + [line], events + [json(line).value], maxEvents, json);
    }
  }

  /**
   * The bounded parser scans with `indexOf` and never materializes the split. `parsed` lists the lines
   * it handed to `JSON.parse`: no line past the bound is among them.
   */
  method ParseSessionLogBounded<E>(text: string, maxEvents: int, json: string -> Option<E>)
    returns (r: Result<seq<E>, ReadError>, ghost parsed: seq<string>)
    ensures r == BoundedVerdict(NonBlank(Lines(text)), maxEvents, json)
    ensures LetThrough(parsed, NonBlank(Lines(text)), maxEvents)
  {
    hide ParseAll, Lines, NonBlank, IsBlank, BoundedVerdict, Within, NewlineFrom, HasParsed, LetThrough;
    ghost var kept := NonBlank(Lines(text));
    var events: seq<E> := [];
    parsed := [];
    var pos := 0;
    ParsingStarts(text, maxEvents, json);
    while pos <= |text|
      invariant 0 <= pos <= |text|
      invariant HasParsed(text, pos, kept, parsed, events, maxEvents, json)
      decreases |text| - pos
    {
      var newline := NewlineFrom(text, pos);
      var line := match newline case None => text[pos..] case Some(at) => text[pos..at];
      NextLine(text, pos, kept, parsed, events, maxEvents, json);
      if !IsBlank(line) {
        if |events| >= maxEvents {
          return Err(LimitExceeded(EventLimit)), parsed;
        }
        parsed := parsed + [line];
        var value := json(line);
        if value.None? {
          return Err(MalformedLine(line)), parsed;
        }
        events := events + [value.value];
      }
      if newline.None? {
        break;
      }
      pos := newline.value + 1;
    }
    return Ok(events), parsed;
  }

  lemma KeptOneMore(kept: seq<string>, parsed: seq<string>, line: string, after: seq<string>)
    requires kept == parsed + ([line] + after)
    ensures |parsed| < |kept| && kept[..|parsed|] == parsed && kept[..|parsed| + 1] == parsed + [line]
    ensures kept == parsed + [line] + after
  {
  }

  lemma NothingParsed<E>(json: string -> Option<E>)
    ensures ParseAll([], json) == Ok([])
  {
  }

  lemma NonBlankOfOne(line: string)
    ensures NonBlank([line]) == if IsBlank(line) then [] else [line]
  {
    assert [line][1..] == [];
  }

  /** Splitting from `pos` peels off the line that ends at the next newline. */
  lemma LinesFrom(text: string, pos: nat)
    requires pos <= |text|
    ensures var newline := NewlineFrom(text, pos);
            var line := match newline case None => text[pos..] case Some(at) => text[pos..at];
            var after := match newline case None => [] case Some(at) => NonBlank(Lines(text[at + 1..]));
            NonBlank(Lines(text[pos..])) == (if IsBlank(line) then after else [line] + after)
  {
    hide IsBlank, Lines, NonBlank, NewlineFrom;
    match NewlineFrom(text, pos) {
      case None =>
        LinesOfOne(text[pos..]);
        NonBlankOfOne(text[pos..]);
      case Some(at) =>
        LinesFromCut(text, pos, at);
        NonBlankOfMore(text[pos..at], Lines(text[at + 1..]));
    }
  }

  lemma NonBlankOfMore(line: string, rest: seq<string>)
    ensures NonBlank([line] + rest) == if IsBlank(line) then NonBlank(rest) else [line] + NonBlank(rest)
  {
    hide IsBlank;
    NonBlankOfCons(line, rest);
    NonBlankOfOne(line);
  }

  lemma LinesFromCut(text: string, pos: nat, at: nat)
    requires pos <= at < |text| && text[at] == '\n' && '\n' !in text[pos..at]
    ensures Lines(text[pos..]) == [text[pos..at]] + Lines(text[at + 1..])
  {
    hide Lines;
    var t, n := text[pos..], at - pos;
    assert t[..n] == text[pos..at];
    assert t[n + 1..] == text[at + 1..];
    LinesOfMore(t, n);
  }

  lemma NonBlankOfCons(line: string, rest: seq<string>)
    ensures NonBlank([line] + rest) == NonBlank([line]) + NonBlank(rest)
  {
    hide IsBlank;
    assert ([line] + rest)[1..] == rest;
    assert [line][1..] == [];
  }

  lemma LinesOfOne(t: string)
    requires '\n' !in t
    ensures Lines(t) == [t]
  {
  }

  lemma LinesOfMore(t: string, n: nat)
    requires n < |t| && t[n] == '\n' && '\n' !in t[..n]
    ensures Lines(t) == [t[..n]] + Lines(t[n + 1..])
  {
    FirstNewline(t, n);
  }
}
