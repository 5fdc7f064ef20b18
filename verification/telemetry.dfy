/** `readBoundedDshSessionTelemetry` end to end, and its agreement with the unbounded `readRawSessionFiles`. */
module Telemetry {
  import opened Common
  import opened Sequences
  import opened SessionLog
  import opened TelemetryRead
  import opened TelemetryTree
  import opened TelemetryWalk

  /** A sort: which one does not matter, and the two readers use different ones. */
  ghost predicate IsSort<T(!new)>(sort: seq<T> -> seq<T>) {
    forall s :: multiset(sort(s)) == multiset(s)
  }

  /** `sessions` is `None` when `sessions/` cannot be read. */
  ghost predicate BoundedSucceeds<E>(sessions: Option<seq<Entry>>, limits: Limits, codec: Codec<E>) {
    sessions.Some? ==>
      var visits := Visits(sessions.value, []);
      && WithinWalkLimits(visits, limits)
      && AllReadable(MatchedFiles(visits), codec)
      && WithinReadLimits(MatchedFiles(visits), limits, codec)
  }

  /** Nothing was captured: no directory, or no matching regular file in it. */
  predicate NothingCaptured(sessions: Option<seq<Entry>>) {
    sessions.Some? ==> MatchedFiles(Visits(sessions.value, [])) == []
  }

  lemma ReadingIgnoresOrder<E>(a: seq<RawFile>, b: seq<RawFile>, limits: Limits, codec: Codec<E>)
    requires multiset(a) == multiset(b)
    ensures AllReadable(a, codec) <==> AllReadable(b, codec)
    ensures WithinReadLimits(a, limits, codec) <==> WithinReadLimits(b, limits, codec)
    ensures multiset(ReadAll(a, codec)) == multiset(ReadAll(b, codec))
    ensures a == [] <==> b == []
    ensures forall e :: FailureIsReal(a, limits, codec, e) <==> FailureIsReal(b, limits, codec, e)
  {
    hide ReadLog, ByteCount, EventCount, SessionOf;
    MembersOfPermutation(a, b);
    SumOfPermutation(a, b, (f: RawFile) => ByteCount(f, codec));
    SumOfPermutation(a, b, (f: RawFile) => EventCount(f, codec));
    MapOfPermutation(a, b, (f: RawFile) => SessionOf(f, codec));
  }

  /** The session of the log at an address: its path from the top, and the events the log holds. */
  ghost predicate IsSessionOf<E>(session: Session<E>, entries: seq<Entry>, at: Address, codec: Codec<E>) {
    && IsLogAt(entries, at)
    && session.path == PathTo(entries, at)
    && ReadLog(RawFile(PathTo(entries, at), NodeAt(entries, at).raw), codec) == Ok(session.events)
  }

  /**
   * There is a session for every log of the tree, at whatever depth, with its path and the events that log
   * holds, and for nothing else; nothing was captured exactly when the tree holds no log.
   */
  ghost predicate CapturesTheLogs<E(!new)>(entries: seq<Entry>, captured: Option<seq<Session<E>>>, codec: Codec<E>) {
    exists logs: seq<Address>, sessions: seq<Session<E>> ::
      && AreTheLogs(entries, logs) && |sessions| == |logs|
      && (captured.None? <==> logs == [])
      && (forall i | 0 <= i < |logs| :: IsSessionOf(sessions[i], entries, logs[i], codec))
      && (captured.Some? ==> multiset(captured.value) == multiset(sessions))
  }

  lemma {:induction false} MapOfMap<T, U, V>(s: seq<T>, f: T -> U, g: U -> V, h: T -> V)
    requires forall x :: h(x) == g(f(x))
    ensures Map(Map(s, f), g) == Map(s, h)
  {
    if s != [] {
      MapOfMap(s[..|s| - 1], f, g, h);
      MapOfOneMore(Map(s[..|s| - 1], f), f(s[|s| - 1]), g);
    }
  }

  lemma SessionsOfLogs<E>(entries: seq<Entry>, logs: seq<Address>, i: nat, codec: Codec<E>)
    requires AreTheLogs(entries, logs) && i < |logs|
    requires AllReadable(Map(logs, (at: Address) => FileAt(entries, at)), codec)
    ensures IsSessionOf(Map(logs, (at: Address) => SessionOf(FileAt(entries, at), codec))[i], entries, logs[i], codec)
  {
    hide ReadLog, AreTheLogs;
    var files := Map(logs, (at: Address) => FileAt(entries, at));
    LogIsThere(entries, logs, i);
    MapAt(logs, (at: Address) => FileAt(entries, at), i);
    MapAt(logs, (at: Address) => SessionOf(FileAt(entries, at), codec), i);
    assert files[i] in files;
  }

  lemma LogIsThere(entries: seq<Entry>, logs: seq<Address>, i: nat)
    requires AreTheLogs(entries, logs) && i < |logs|
    ensures IsLogAt(entries, logs[i])
  {
  }

  lemma LogsAreCaptured<E(!new)>(
      entries: seq<Entry>, captured: Option<seq<Session<E>>>, files: seq<RawFile>, codec: Codec<E>)
    requires captured.None? <==> MatchedFiles(Visits(entries, [])) == []
    requires multiset(files) == multiset(MatchedFiles(Visits(entries, []))) && AllReadable(files, codec)
    requires captured.Some? ==> captured.value == ReadAll(files, codec)
    ensures CapturesTheLogs(entries, captured, codec)
  {
    var logs := MatchedFilesAreTheLogs(entries);
    hide MatchedFiles, Visits, AreTheLogs, SessionOf, FileAt, IsSessionOf, ReadLog;
    var found := MatchedFiles(Visits(entries, []));
    MembersOfPermutation(files, found);
    MapOfPermutation(files, found, (f: RawFile) => SessionOf(f, codec));
    MapOfMap(logs, (at: Address) => FileAt(entries, at), (f: RawFile) => SessionOf(f, codec),
             (at: Address) => SessionOf(FileAt(entries, at), codec));
    var sessions := Map(logs, (at: Address) => SessionOf(FileAt(entries, at), codec));
    forall i | 0 <= i < |logs|
      ensures IsSessionOf(sessions[i], entries, logs[i], codec)
    {
      SessionsOfLogs(entries, logs, i, codec);
    }
  }

  /**
   * The bounded reader. It returns exactly when the whole tree, read without any limit, would stay
   * within all five, and every matching regular file reads; a limit error names a limit that the tree
   * really breaks, and any other error is one of the files' own.
   */
  method ReadBoundedDshSessionTelemetry<E(!new)>(
      sessions: Option<seq<Entry>>, limits: Limits, sort: seq<RawFile> -> seq<RawFile>, codec: Codec<E>)
    returns (r: Result<Option<seq<Session<E>>>, ReadError>)
    requires IsSort(sort)
    ensures r.Ok? <==> BoundedSucceeds(sessions, limits, codec)
    ensures r.Ok? && sessions.None? ==> r.value == None
    ensures r.Ok? && sessions.Some? ==> CapturesTheLogs(sessions.value, r.value, codec)
    ensures r.Ok? ==> (r.value.None? <==> NothingCaptured(sessions))
    ensures r.Ok? && r.value.Some? ==> r.value.value == ReadAll(sort(MatchedFiles(Visits(sessions.value, []))), codec)
    ensures r.Err? ==> var visits := Visits(sessions.value, []);
                       || (r.error.LimitExceeded? && LimitIsBroken(visits, limits, r.error.limit))
                       || FailureIsReal(MatchedFiles(visits), limits, codec, r.error)
  {
    hide ReadLog, ByteCount, EventCount, SessionOf, Visits, MatchedFiles, OnDiskBytes, Walk, CapturesTheLogs;
    if sessions.None? {
      return Ok(None);
    }
    ghost var visits := Visits(sessions.value, []);
    var walk := new DiscoveryWalk(limits);
    var error := walk.WalkDir(sessions.value, []);
    WalkFromStart(visits, limits);
    if error.Some? {
      return Err(LimitExceeded(error.value));
    }
    assert walk.matched == MatchedFiles(visits);
    if |walk.matched| == 0 {
      NothingToRead(codec);
      LogsAreCaptured(sessions.value, None, [], codec);
      return Ok(None);
    }
    var files := sort(walk.matched);
    ReadingIgnoresOrder(files, MatchedFiles(visits), limits, codec);
    var read := ReadWithinBudgets(files, limits, codec);
    if read.Err? {
      assert FailureIsReal(MatchedFiles(visits), limits, codec, read.error);
      return Err(read.error);
    }
    LogsAreCaptured(sessions.value, Some(read.value), files, codec);
    return Ok(Some(read.value));
  }

  lemma NothingToRead<E>(codec: Codec<E>)
    ensures AllReadable([], codec)
    ensures TotalBytes([], codec) == 0 && TotalEvents([], codec) == 0
  {
  }

  // ----- The unbounded reader -----

  predicate HasMatchingName(v: Visit) {
    MatchesName(v.path)
  }

  /** `readdir(..., { recursive: true })` keeps every entry whose name matches, whatever it is. */
  function Listed(visits: seq<Visit>): seq<Visit> {
    Filter(visits, HasMatchingName)
  }

  /** `readFile` follows links and fails on a directory. */
  function Opened(v: Visit): Option<RawFile> {
    match v.kind
    case Regular(raw) => Some(RawFile(v.path, raw))
    case Symlink(Some(raw)) => Some(RawFile(v.path, raw))
    case _ => None
  }

  function OpenedOrEmpty(v: Visit): RawFile {
    if Opened(v).Some? then Opened(v).value else RawFile(v.path, [])
  }

  datatype RawOutcome<+E> = RawNothing | RawSessions(sessions: seq<Session<E>>) | RawFailure

  /** Which of several failures `Promise.all` reports is a matter of timing, so none is singled out. */
  function ReadRawSessionFiles<E>(
      sessions: Option<seq<Entry>>, sort: seq<Visit> -> seq<Visit>, codec: Codec<E>): RawOutcome<E>
  {
    if sessions.None? then RawNothing
    else
      var listed := sort(Listed(Visits(sessions.value, [])));
      if listed == [] then RawNothing
      else if exists v <- listed :: Opened(v).None? || ReadLog(Opened(v).value, codec).Err? then RawFailure
      else RawSessions(ReadAll(Map(listed, OpenedOrEmpty), codec))
  }

  /** No link, directory or special file bears a name that matches. */
  predicate OnlyRegularMatches(visits: seq<Visit>) {
    forall v <- visits :: MatchesName(v.path) ==> v.kind.Regular?
  }

  lemma {:induction false} RegularMatchesAreListed(visits: seq<Visit>)
    requires OnlyRegularMatches(visits)
    ensures Listed(visits) == Filter(visits, IsMatch)
    ensures Map(Listed(visits), OpenedOrEmpty) == MatchedFiles(visits)
  {
    hide MatchesName;
    if visits != [] {
      var n := |visits| - 1;
      assert visits[n] in visits;
      assert forall v <- visits[..n] :: v in visits;
      RegularMatchesAreListed(visits[..n]);
      MapOfOneMore(Listed(visits[..n]), visits[n], OpenedOrEmpty);
      MapOfOneMore(Filter(visits[..n], IsMatch), visits[n], FileOf);
      assert Listed(visits[..n]) + [] == Listed(visits[..n]);
    }
  }

  /** The raw reader on a tree whose matches are all regular files, in terms of the files alone. */
  lemma RawReaderOnFiles<E>(entries: seq<Entry>, sort: seq<Visit> -> seq<Visit>, codec: Codec<E>)
    requires IsSort(sort) && OnlyRegularMatches(Visits(entries, []))
    ensures var files := MatchedFiles(Visits(entries, []));
            var raw := ReadRawSessionFiles(Some(entries), sort, codec);
            && (raw.RawNothing? <==> files == [])
            && (raw.RawSessions? <==> files != [] && AllReadable(files, codec))
            && (raw.RawSessions? ==> multiset(raw.sessions) == multiset(ReadAll(files, codec)))
  {
    hide ReadLog, Visits, SessionOf, ByteCount, EventCount, MatchedFiles, Opened, Listed, ReadAll, AllReadable;
    var visits := Visits(entries, []);
    var listed := Listed(visits);
    var sorted := sort(listed);
    SortedMatches(visits, sorted);
    ReadingIgnoresOrder(Map(sorted, OpenedOrEmpty), MatchedFiles(visits), Limits(0, 0, 0, 0, 0), codec);
    FailureIsUnreadable(sorted, codec);
  }

  lemma SortedMatches(visits: seq<Visit>, sorted: seq<Visit>)
    requires OnlyRegularMatches(visits) && multiset(sorted) == multiset(Listed(visits))
    ensures forall v <- sorted :: v.kind.Regular?
    ensures multiset(Map(sorted, OpenedOrEmpty)) == multiset(MatchedFiles(visits))
    ensures sorted == [] <==> MatchedFiles(visits) == []
  {
    hide MatchedFiles, Listed;
    var listed := Listed(visits);
    RegularMatchesAreListed(visits);
    MembersOfPermutation(sorted, listed);
    MapOfPermutation(sorted, listed, OpenedOrEmpty);
    FilterMembers(visits, IsMatch);
  }

  lemma FailureIsUnreadable<E>(sorted: seq<Visit>, codec: Codec<E>)
    requires forall v <- sorted :: v.kind.Regular?
    ensures (exists v <- sorted :: Opened(v).None? || ReadLog(Opened(v).value, codec).Err?)
       <==> !AllReadable(Map(sorted, OpenedOrEmpty), codec)
  {
    hide ReadLog;
    OpenedMembers(sorted, Map(sorted, OpenedOrEmpty));
  }

  lemma OpenedMembers(sorted: seq<Visit>, read: seq<RawFile>)
    requires read == Map(sorted, OpenedOrEmpty)
    ensures forall v <- sorted :: OpenedOrEmpty(v) in read
    ensures forall f <- read :: exists v <- sorted :: f == OpenedOrEmpty(v)
  {
    forall v <- sorted
      ensures OpenedOrEmpty(v) in read
    {
      var i: nat :| i < |sorted| && sorted[i] == v;
      MapAt(sorted, OpenedOrEmpty, i);
    }
    forall f <- read
      ensures exists v <- sorted :: f == OpenedOrEmpty(v)
    {
      var i: nat :| i < |read| && read[i] == f;
      MapAt(sorted, OpenedOrEmpty, i);
      assert sorted[i] in sorted;
    }
  }

  /**
   * On a tree whose matching entries are all regular files, the bounded reader returns
   * exactly when the tree is within the limits and the unbounded reader returns, and then both report
   * nothing, or both report the same sessions - in their own orders.
   */
  lemma BoundedAgreesWithRaw<E>(
      entries: seq<Entry>, limits: Limits, sort: seq<RawFile> -> seq<RawFile>, rawSort: seq<Visit> -> seq<Visit>,
      codec: Codec<E>)
    requires IsSort(sort) && IsSort(rawSort) && OnlyRegularMatches(Visits(entries, []))
    ensures var visits := Visits(entries, []);
            var files := MatchedFiles(visits);
            var raw := ReadRawSessionFiles(Some(entries), rawSort, codec);
            && (BoundedSucceeds(Some(entries), limits, codec) <==>
                  !raw.RawFailure? && WithinWalkLimits(visits, limits) && WithinReadLimits(files, limits, codec))
            && (raw.RawNothing? <==> NothingCaptured(Some(entries)))
            && (raw.RawSessions? ==> multiset(raw.sessions) == multiset(ReadAll(sort(files), codec)))
  {
    hide ReadLog, Visits, SessionOf, ByteCount, EventCount, MatchedFiles, ReadRawSessionFiles;
    var files := MatchedFiles(Visits(entries, []));
    RawReaderOnFiles(entries, rawSort, codec);
    ReadingIgnoresOrder(sort(files), files, limits, codec);
    NothingToRead(codec);
  }

  // ----- When the two readers agree -----

  /** What the bounded reader returns for this tree, when it returns, is what the unbounded one does. */
  ghost predicate ReadersAgree<E>(
      entries: seq<Entry>, sort: seq<RawFile> -> seq<RawFile>, rawSort: seq<Visit> -> seq<Visit>, codec: Codec<E>)
  {
    match ReadRawSessionFiles(Some(entries), rawSort, codec)
    case RawFailure => false
    case RawNothing => NothingCaptured(Some(entries))
    case RawSessions(sessions) =>
      && !NothingCaptured(Some(entries))
      && multiset(sessions) == multiset(ReadAll(sort(MatchedFiles(Visits(entries, []))), codec))
  }

  /** Every matching regular file is listed, and nothing else is exactly when nothing else matches. */
  lemma {:induction false} ListedOutnumberMatches(visits: seq<Visit>)
    ensures |MatchedFiles(visits)| <= |Listed(visits)|
    ensures |MatchedFiles(visits)| == |Listed(visits)| <==> OnlyRegularMatches(visits)
  {
    if visits != [] {
      var n := |visits| - 1;
      ListedOutnumberMatches(visits[..n]);
      assert visits == visits[..n] + [visits[n]];
      TallyOfOneMore(visits[..n], visits[n]);
      assert OnlyRegularMatches(visits) <==>
             OnlyRegularMatches(visits[..n]) && (MatchesName(visits[n].path) ==> visits[n].kind.Regular?);
    }
  }

  lemma RawSessionsAreListed<E>(entries: seq<Entry>, rawSort: seq<Visit> -> seq<Visit>, codec: Codec<E>)
    requires IsSort(rawSort)
    ensures var raw := ReadRawSessionFiles(Some(entries), rawSort, codec);
            var listed := |Listed(Visits(entries, []))|;
            && (raw.RawNothing? <==> listed == 0)
            && (raw.RawSessions? ==> |raw.sessions| == listed)
  {
    hide ReadLog, Visits, SessionOf, Opened, Listed;
    MembersOfPermutation(rawSort(Listed(Visits(entries, []))), Listed(Visits(entries, [])));
  }

  /**
   * Agreement, exactly. On any tree on which the bounded reader returns, the two readers agree - both
   * report nothing, or both the same sessions - if and only if every entry with a matching name is a
   * regular file. Otherwise the unbounded reader fails or reports more sessions.
   */
  lemma ReadersAgreeExactly<E>(
      entries: seq<Entry>, limits: Limits, sort: seq<RawFile> -> seq<RawFile>, rawSort: seq<Visit> -> seq<Visit>,
      codec: Codec<E>)
    requires IsSort(sort) && IsSort(rawSort) && BoundedSucceeds(Some(entries), limits, codec)
    ensures ReadersAgree(entries, sort, rawSort, codec) <==> OnlyRegularMatches(Visits(entries, []))
    ensures var raw := ReadRawSessionFiles(Some(entries), rawSort, codec);
            OnlyRegularMatches(Visits(entries, [])) || raw.RawFailure?
            || (raw.RawSessions? && |raw.sessions| > |MatchedFiles(Visits(entries, []))|)
  {
    hide ReadLog, Visits, SessionOf, ByteCount, EventCount, MatchedFiles, Listed, ReadRawSessionFiles, OnlyRegularMatches,
      WithinWalkLimits, WithinReadLimits;
    var visits := Visits(entries, []);
    ListedOutnumberMatches(visits);
    RawSessionsAreListed(entries, rawSort, codec);
    MembersOfPermutation(sort(MatchedFiles(visits)), MatchedFiles(visits));
    if OnlyRegularMatches(visits) {
      BoundedAgreesWithRaw(entries, limits, sort, rawSort, codec);
    } else {
      SessionCountsDiffer(ReadRawSessionFiles(Some(entries), rawSort, codec), ReadAll(sort(MatchedFiles(visits)), codec));
    }
  }

  lemma SessionCountsDiffer<E>(raw: RawOutcome<E>, sessions: seq<Session<E>>)
    requires raw.RawSessions? ==> |raw.sessions| != |sessions|
    ensures raw.RawSessions? ==> multiset(raw.sessions) != multiset(sessions)
  {
    if raw.RawSessions? && multiset(raw.sessions) == multiset(sessions) {
      MembersOfPermutation(raw.sessions, sessions);
    }
  }

  /** Whatever else a tree holds, one matching entry that `readFile` cannot open fails the whole unbounded read. */
  lemma UnopenableMatchFails<E>(
      entries: seq<Entry>, v: Visit, sort: seq<Visit> -> seq<Visit>, codec: Codec<E>)
    requires IsSort(sort) && v in Visits(entries, []) && MatchesName(v.path)
    requires v.kind == Directory || v.kind == Special || v.kind == Symlink(None)
    ensures ReadRawSessionFiles(Some(entries), sort, codec).RawFailure?
  {
    hide ReadLog, Visits, SessionOf;
    var listed := Listed(Visits(entries, []));
    FilterMembers(Visits(entries, []), HasMatchingName);
    MembersOfPermutation(sort(listed), listed);
    assert v in sort(listed) && Opened(v).None?;
  }

  /** A tree that is one symbolic link to an empty file. */
  const LINK := LinkEntry("x.jsonl", Some([]))
  const LINK_VISIT := Visit(["x.jsonl"], Symlink(Some([])))

  lemma LinkIsVisited()
    ensures Visits([LINK], []) == [LINK_VISIT]
    ensures HasMatchingName(LINK_VISIT) && !IsMatch(LINK_VISIT)
  {
    assert [] + ["x.jsonl"] == ["x.jsonl"];
    assert VisitsOf(LINK, []) == [LINK_VISIT];
    assert [LINK][1..] == [];
    assert EndsWith("x.jsonl", ".jsonl");
  }

  lemma LinkIsNoFile()
    ensures Listed([LINK_VISIT]) == [LINK_VISIT] && MatchedFiles([LINK_VISIT]) == []
  {
    LinkIsVisited();
    hide Filter;
    FilterOfOne(LINK_VISIT, HasMatchingName);
    FilterOfOne(LINK_VISIT, IsMatch);
  }

  lemma EmptyLogReads<E>(codec: Codec<E>)
    requires codec.utf8([]) == ""
    ensures ReadLog(RawFile(["x.jsonl"], []), codec) == Ok([])
  {
    assert !EndsWith("x.jsonl", ".jsonl.zstd");
    LinesOfOne("");
    NonBlankOfOne("");
    NothingParsed(codec.json);
  }

  /** A witness: a log behind a symbolic link is a session for the unbounded reader and nothing for the bounded one. */
  lemma LinkedLogsAreSkipped<E>(codec: Codec<E>, limits: Limits, sort: seq<Visit> -> seq<Visit>)
    requires codec.utf8([]) == "" && IsSort(sort) && limits.maxEntries >= 1
    ensures BoundedSucceeds(Some([LINK]), limits, codec) && NothingCaptured(Some([LINK]))
    ensures ReadRawSessionFiles(Some([LINK]), sort, codec).RawSessions?
  {
    LinkIsVisited();
    LinkIsNoFile();
    EmptyLogReads(codec);
    NothingToRead(codec);
    hide Visits, MatchedFiles, Listed, ReadLog, ReadAll, AllReadable, TotalBytes, TotalEvents, HasMatchingName, IsMatch;
    MembersOfPermutation(sort([LINK_VISIT]), [LINK_VISIT]);
    assert forall v <- sort([LINK_VISIT]) :: v in [LINK_VISIT];
  }
}
