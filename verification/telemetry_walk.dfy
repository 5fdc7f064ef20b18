/** `discoverBoundedDshSessionFiles`: walking a tree that may be far too large, without reading it all first. */
module TelemetryWalk {
  import opened Common
  import opened Sequences
  import opened SessionLog
  import opened TelemetryRead

  /** What a directory holds; a symbolic link may lead to bytes that can be read, or nowhere. */
  datatype Entry =
    | FileEntry(name: string, raw: seq<byte>)
    | DirEntry(name: string, children: seq<Entry>)
    | LinkEntry(name: string, target: Option<seq<byte>>)
    | SpecialEntry(name: string)

  datatype Kind = Regular(raw: seq<byte>) | Directory | Symlink(target: Option<seq<byte>>) | Special

  datatype Visit = Visit(path: Path, kind: Kind)

  function KindOf(e: Entry): Kind {
    match e
    case FileEntry(_, raw) => Regular(raw)
    case DirEntry(_, _) => Directory
    case LinkEntry(_, target) => Symlink(target)
    case SpecialEntry(_) => Special
  }

  /** Everything below `dir`, in the order the directories hand it out, each directory before its contents. */
  function Visits(entries: seq<Entry>, dir: Path): seq<Visit> {
    if entries == [] then [] else VisitsOf(entries[0], dir) + Visits(entries[1..], dir)
  }

  function VisitsOf(e: Entry, dir: Path): seq<Visit> {
    var path := dir + [e.name];
    [Visit(path, KindOf(e))] + (if e.DirEntry? then Visits(e.children, path) else [])
  }

  predicate MatchesName(path: Path) {
    path != [] && (EndsWith(path[|path| - 1], ".jsonl") || EndsWith(path[|path| - 1], ".jsonl.zstd"))
  }

  predicate IsMatch(v: Visit) {
    MatchesName(v.path) && v.kind.Regular?
  }

  function FileOf(v: Visit): RawFile {
    RawFile(v.path, if v.kind.Regular? then v.kind.raw else [])
  }

  /** The matching regular files among the visits. */
  function MatchedFiles(visits: seq<Visit>): seq<RawFile> {
    Map(Filter(visits, IsMatch), FileOf)
  }

  function OnDiskBytes(files: seq<RawFile>): nat {
    Sum(files, (f: RawFile) => |f.raw|)
  }

  datatype WalkState = WalkState(entriesVisited: nat, totalBytes: nat, matched: seq<RawFile>)

  datatype WalkOutcome = WalkOutcome(state: WalkState, error: Option<Limit>)

  /** What one visit does to the counters, and the limit it breaks if it breaks one. */
  function AfterVisit(s: WalkState, v: Visit, limits: Limits): WalkOutcome {
    var counted := s.(entriesVisited := s.entriesVisited + 1);
    if counted.entriesVisited > limits.maxEntries then WalkOutcome(counted, Some(EntryLimit))
    else if !IsMatch(v) then WalkOutcome(counted, None)
    else
      var found := counted.(matched := s.matched + [FileOf(v)]);
      if |found.matched| > limits.maxFiles then WalkOutcome(found, Some(FileLimit))
      else
        var weighed := found.(totalBytes := s.totalBytes + |FileOf(v).raw|);
        WalkOutcome(weighed, if weighed.totalBytes > limits.maxBytes then Some(ByteLimit) else None)
  }

  /** A walk stops at the first limit it breaks. */
  function Walk(s: WalkState, visits: seq<Visit>, limits: Limits): WalkOutcome
    decreases |visits|
  {
    if visits == [] then WalkOutcome(s, None)
    else
      var next := AfterVisit(s, visits[0], limits);
      if next.error.Some? then next else Walk(next.state, visits[1..], limits)
  }

  lemma {:induction false} WalkOfConcatenation(s: WalkState, a: seq<Visit>, b: seq<Visit>, limits: Limits)
    ensures var first := Walk(s, a, limits);
            Walk(s, a + b, limits) == if first.error.Some? then first else Walk(first.state, b, limits)
    decreases |a|
  {
    hide AfterVisit;
    if a == [] {
      assert a + b == b;
    } else {
      var next := AfterVisit(s, a[0], limits);
      assert (a + b)[1..] == a[1..] + b;
      WalkOfConcatenation(next.state, a[1..], b, limits);
    }
  }

  class DiscoveryWalk {
    const limits: Limits
    var entriesVisited: nat
    var totalBytes: nat
    var matched: seq<RawFile>

    function State(): WalkState
      reads this
    {
      WalkState(entriesVisited, totalBytes, matched)
    }

    constructor (limits: Limits)
      ensures this.limits == limits && State() == WalkState(0, 0, [])
    {
      this.limits := limits;
      entriesVisited, totalBytes, matched := 0, 0, [];
    }

    method VisitEntry(entry: Entry, dir: Path) returns (error: Option<Limit>)
      modifies this
      ensures WalkOutcome(State(), error) == Walk(old(State()), VisitsOf(entry, dir), limits)
      decreases entry, 0
    {
      var path := dir + [entry.name];
      ghost var visit := Visit(path, KindOf(entry));
      ghost var visits := VisitsOf(entry, dir);
      assert visits[0] == visit && visits[1..] == if entry.DirEntry? then Visits(entry.children, path) else [];
      entriesVisited := entriesVisited + 1;
      if entriesVisited > limits.maxEntries {
        return Some(EntryLimit);
      }
      if entry.DirEntry? {
        error := WalkDir(entry.children, path);
        return;
      }
      assert visits[1..] == [];
      if !MatchesName(path) {
        return None;
      }
      if !entry.FileEntry? {
        return None;
      }
      matched := matched + [RawFile(path, entry.raw)];
      if |matched| > limits.maxFiles {
        return Some(FileLimit);
      }
      totalBytes := totalBytes + |entry.raw|;
      if totalBytes > limits.maxBytes {
        return Some(ByteLimit);
      }
      return None;
    }

    method WalkDir(entries: seq<Entry>, dir: Path) returns (error: Option<Limit>)
      modifies this
      ensures WalkOutcome(State(), error) == Walk(old(State()), Visits(entries, dir), limits)
      decreases entries, 1
    {
      hide VisitsOf, AfterVisit;
      var i := 0;
      assert entries[0..] == entries;
      while i < |entries|
        invariant i <= |entries|
        invariant Walk(old(State()), Visits(entries, dir), limits) == Walk(State(), Visits(entries[i..], dir), limits)
      {
        ghost var before := State();
        assert entries[i..][0] == entries[i] && entries[i..][1..] == entries[i + 1..];
        error := VisitEntry(entries[i], dir);
        WalkOfConcatenation(before, VisitsOf(entries[i], dir), Visits(entries[i + 1..], dir), limits);
        if error.Some? {
          return;
        }
        i := i + 1;
      }
      return None;
    }
  }

  // ----- What a walk amounts to -----

  const START := WalkState(0, 0, [])

  /** The state a walk that broke no limit is in after `visits`. */
  function Tally(visits: seq<Visit>): WalkState {
    WalkState(|visits|, OnDiskBytes(MatchedFiles(visits)), MatchedFiles(visits))
  }

  predicate WithinWalkLimits(visits: seq<Visit>, limits: Limits) {
    var files := MatchedFiles(visits);
    |visits| <= limits.maxEntries && |files| <= limits.maxFiles && OnDiskBytes(files) <= limits.maxBytes
  }

  lemma TallyOfOneMore(visits: seq<Visit>, v: Visit)
    ensures MatchedFiles(visits + [v]) == MatchedFiles(visits) + (if IsMatch(v) then [FileOf(v)] else [])
    ensures OnDiskBytes(MatchedFiles(visits + [v]))
         == OnDiskBytes(MatchedFiles(visits)) + (if IsMatch(v) then |FileOf(v).raw| else 0)
  {
    hide IsMatch, FileOf;
    assert (visits + [v])[..|visits|] == visits;
    if IsMatch(v) {
      var kept := Filter(visits, IsMatch);
      assert Filter(visits + [v], IsMatch) == kept + [v];
      assert (kept + [v])[..|kept|] == kept;
      var files := Map(kept, FileOf);
      assert (files + [FileOf(v)])[..|files|] == files;
    } else {
      assert Filter(visits + [v], IsMatch) == Filter(visits, IsMatch) + [] == Filter(visits, IsMatch);
    }
  }

  lemma TallyStep(visits: seq<Visit>, v: Visit, limits: Limits)
    requires WithinWalkLimits(visits, limits)
    ensures var next := AfterVisit(Tally(visits), v, limits);
            && (next.error.None? <==> WithinWalkLimits(visits + [v], limits))
            && (next.error.None? ==> next.state == Tally(visits + [v]))
            && next.state.entriesVisited == |visits| + 1
  {
    hide MatchedFiles, OnDiskBytes;
    TallyOfOneMore(visits, v);
  }

  /** Every limit is monotone, so once broken it stays broken whatever else is visited. */
  lemma {:induction false} LimitsAreMonotone(visits: seq<Visit>, more: seq<Visit>, limits: Limits)
    ensures WithinWalkLimits(visits + more, limits) ==> WithinWalkLimits(visits, limits)
  {
    hide MatchedFiles, OnDiskBytes;
    if more == [] {
      assert visits + more == visits;
    } else {
      var n := |more| - 1;
      assert visits + more == visits + more[..n] + [more[n]];
      TallyOfOneMore(visits + more[..n], more[n]);
      LimitsAreMonotone(visits, more[..n], limits);
    }
  }

  /**
   * A walk succeeds exactly when the total entries, the matching regular files and their bytes are all
   * within the limits; it then has exactly those files. Whatever the tree, it visits at most one entry
   * more than `maxEntries`.
   */
  lemma {:induction false} WalkSucceedsExactly(done: seq<Visit>, visits: seq<Visit>, limits: Limits)
    requires WithinWalkLimits(done, limits)
    ensures var outcome := Walk(Tally(done), visits, limits);
            && (outcome.error.None? <==> WithinWalkLimits(done + visits, limits))
            && (outcome.error.None? ==> outcome.state == Tally(done + visits))
            && outcome.state.entriesVisited <= limits.maxEntries + 1
            && outcome.state.entriesVisited <= |done| + |visits|
    decreases |visits|
  {
    hide MatchedFiles, OnDiskBytes, AfterVisit;
    if visits == [] {
      assert done + visits == done;
    } else {
      TallyStep(done, visits[0], limits);
      assert done + visits == done + [visits[0]] + visits[1..];
      if WithinWalkLimits(done + [visits[0]], limits) {
        WalkSucceedsExactly(done + [visits[0]], visits[1..], limits);
      } else {
        LimitsAreMonotone(done + [visits[0]], visits[1..], limits);
      }
    }
  }

  /** The limit a failed walk names is one the whole tree really breaks. */
  ghost predicate LimitIsBroken(visits: seq<Visit>, limits: Limits, limit: Limit) {
    match limit
    case EntryLimit => |visits| > limits.maxEntries
    case FileLimit => |MatchedFiles(visits)| > limits.maxFiles
    case ByteLimit => OnDiskBytes(MatchedFiles(visits)) > limits.maxBytes
    case _ => false
  }

  lemma {:induction false} CountsAreMonotone(visits: seq<Visit>, more: seq<Visit>)
    ensures |MatchedFiles(visits)| <= |MatchedFiles(visits + more)|
    ensures OnDiskBytes(MatchedFiles(visits)) <= OnDiskBytes(MatchedFiles(visits + more))
  {
    hide MatchedFiles, OnDiskBytes;
    if more == [] {
      assert visits + more == visits;
    } else {
      var n := |more| - 1;
      assert visits + more == visits + more[..n] + [more[n]];
      TallyOfOneMore(visits + more[..n], more[n]);
      CountsAreMonotone(visits, more[..n]);
    }
  }

  lemma BrokenLimitStep(visits: seq<Visit>, v: Visit, limits: Limits)
    requires AfterVisit(Tally(visits), v, limits).error.Some?
    ensures LimitIsBroken(visits + [v], limits, AfterVisit(Tally(visits), v, limits).error.value)
  {
    hide MatchedFiles, OnDiskBytes;
    TallyOfOneMore(visits, v);
  }

  lemma {:induction false} WalkNamesABrokenLimit(done: seq<Visit>, visits: seq<Visit>, limits: Limits)
    requires WithinWalkLimits(done, limits)
    ensures var error := Walk(Tally(done), visits, limits).error;
            error.Some? ==> LimitIsBroken(done + visits, limits, error.value)
    decreases |visits|
  {
    hide MatchedFiles, OnDiskBytes, AfterVisit, WithinWalkLimits;
    if visits != [] {
      TallyStep(done, visits[0], limits);
      assert done + visits == done + [visits[0]] + visits[1..];
      if AfterVisit(Tally(done), visits[0], limits).error.None? {
        WalkNamesABrokenLimit(done + [visits[0]], visits[1..], limits);
      } else {
        BrokenLimitStep(done, visits[0], limits);
        CountsAreMonotone(done + [visits[0]], visits[1..]);
      }
    }
  }

  lemma WalkFromStart(visits: seq<Visit>, limits: Limits)
    ensures var outcome := Walk(START, visits, limits);
            && (outcome.error.None? <==> WithinWalkLimits(visits, limits))
            && (outcome.error.None? ==> outcome.state.matched == MatchedFiles(visits))
            && (outcome.error.Some? ==> LimitIsBroken(visits, limits, outcome.error.value))
            && outcome.state.entriesVisited <= limits.maxEntries + 1
  {
    hide Walk;
    assert Tally([]) == START;
    assert [] + visits == visits;
    WalkSucceedsExactly([], visits, limits);
    WalkNamesABrokenLimit([], visits, limits);
  }

  // ----- The order in which directories list their entries -----

  /** `b` is the same tree as `a`, its directories read in some other order. */
  predicate SameTree(a: Entry, b: Entry)
    decreases a, 0
  {
    a.name == b.name && KindOf(a) == KindOf(b) && (a.DirEntry? ==> SameListing(a.children, b.children))
  }

  predicate SameListing(a: seq<Entry>, b: seq<Entry>)
    decreases a, 1
  {
    if a == [] then b == []
    else exists k | 0 <= k < |b| :: SameTree(a[0], b[k]) && SameListing(a[1..], b[..k] + b[k + 1..])
  }

  lemma {:induction false} VisitsSplit(b: seq<Entry>, k: nat, dir: Path)
    requires k < |b|
    ensures multiset(Visits(b, dir))
         == multiset(VisitsOf(b[k], dir)) + multiset(Visits(b[..k] + b[k + 1..], dir))
  {
    hide VisitsOf;
    if k == 0 {
      assert b[..0] + b[1..] == b[1..];
    } else {
      VisitsSplit(b[1..], k - 1, dir);
      var w := b[..k] + b[k + 1..];
      assert w[1..] == b[1..][..k - 1] + b[1..][k..];
    }
  }

  lemma {:induction false} SameTreeSameVisits(a: Entry, b: Entry, dir: Path)
    requires SameTree(a, b)
    ensures multiset(VisitsOf(a, dir)) == multiset(VisitsOf(b, dir))
    decreases a, 0
  {
    if a.DirEntry? {
      SameListingSameVisits(a.children, b.children, dir + [a.name]);
    }
  }

  lemma {:induction false} SameListingSameVisits(a: seq<Entry>, b: seq<Entry>, dir: Path)
    requires SameListing(a, b)
    ensures multiset(Visits(a, dir)) == multiset(Visits(b, dir))
    decreases a, 1
  {
    hide VisitsOf;
    if a != [] {
      var k :| 0 <= k < |b| && SameTree(a[0], b[k]) && SameListing(a[1..], b[..k] + b[k + 1..]);
      SameTreeSameVisits(a[0], b[k], dir);
      SameListingSameVisits(a[1..], b[..k] + b[k + 1..], dir);
      VisitsSplit(b, k, dir);
    }
  }

  /** The verdict, and the set of files found, do not depend on the order in which a tree is walked. */
  lemma VerdictIgnoresOrder(a: seq<Entry>, b: seq<Entry>, limits: Limits)
    requires SameListing(a, b)
    ensures var x, y := Walk(START, Visits(a, []), limits), Walk(START, Visits(b, []), limits);
            && (x.error.None? <==> y.error.None?)
            && (x.error.None? ==> multiset(x.state.matched) == multiset(y.state.matched))
  {
    hide Visits, Walk;
    var va, vb := Visits(a, []), Visits(b, []);
    SameListingSameVisits(a, b, []);
    MembersOfPermutation(va, vb);
    FilterOfPermutation(va, vb, IsMatch);
    var fa, fb := Filter(va, IsMatch), Filter(vb, IsMatch);
    MapOfPermutation(fa, fb, FileOf);
    MembersOfPermutation(MatchedFiles(va), MatchedFiles(vb));
    SumOfPermutation(MatchedFiles(va), MatchedFiles(vb), (f: RawFile) => |f.raw|);
    WalkFromStart(va, limits);
    WalkFromStart(vb, limits);
  }
}
