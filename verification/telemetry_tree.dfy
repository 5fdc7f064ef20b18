/**
 * What there is to visit in a tree, said without walking it: the nodes at every depth, each addressed by
 * the child indices that lead to it. The walk is compared with these.
 */
module TelemetryTree {
  import opened Common
  import opened Sequences
  import opened TelemetryRead
  import opened TelemetryWalk

  /** The child to take at each level, from the top. */
  type Address = seq<nat>

  /** Every step but the last leads into a directory. */
  predicate IsNode(entries: seq<Entry>, at: Address)
    decreases |at|
  {
    && at != [] && at[0] < |entries|
    && (|at| > 1 ==> entries[at[0]].DirEntry? && IsNode(entries[at[0]].children, at[1..]))
  }

  function NodeAt(entries: seq<Entry>, at: Address): Entry
    requires IsNode(entries, at)
    decreases |at|
  {
    if |at| == 1 then entries[at[0]] else NodeAt(entries[at[0]].children, at[1..])
  }

  /** The names from the top down to the node. */
  function PathTo(entries: seq<Entry>, at: Address): (path: Path)
    requires IsNode(entries, at)
    ensures |path| == |at|
    decreases |at|
  {
    [entries[at[0]].name] + (if |at| == 1 then [] else PathTo(entries[at[0]].children, at[1..]))
  }

  /** The visit of the node at an address, below the directory `dir`. */
  ghost predicate IsVisitOf(v: Visit, entries: seq<Entry>, at: Address, dir: Path) {
    && IsNode(entries, at)
    && v.path == dir + PathTo(entries, at)
    && match NodeAt(entries, at)
       case FileEntry(_, raw) => v.kind == Regular(raw)
       case DirEntry(_, _) => v.kind == Directory
       case LinkEntry(_, target) => v.kind == Symlink(target)
       case SpecialEntry(_) => v.kind == Special
  }

  /** Directories come before their contents, and the contents of one before what is listed after it. */
  predicate ComesBefore(a: Address, b: Address)
    decreases |a|
  {
    if a == [] then b != []
    else b != [] && (a[0] < b[0] || (a[0] == b[0] && ComesBefore(a[1..], b[1..])))
  }

  /** The visits are the nodes: each node once, none left out, nothing else, directories first. */
  ghost predicate AreTheNodes(visits: seq<Visit>, entries: seq<Entry>, dir: Path, ats: seq<Address>) {
    && |ats| == |visits|
    && (forall i | 0 <= i < |visits| :: IsVisitOf(visits[i], entries, ats[i], dir))
    && (forall i, j | 0 <= i < j < |ats| :: ComesBefore(ats[i], ats[j]))
    && (forall at: Address | IsNode(entries, at) :: at in ats)
  }

  // ----- The addresses of all nodes, in that order -----

  function Prefixed(k: nat, ats: seq<Address>): (r: seq<Address>)
    ensures |r| == |ats|
    ensures forall i | 0 <= i < |ats| :: r[i] == [k] + ats[i]
  {
    seq(|ats|, i requires 0 <= i < |ats| => [k] + ats[i])
  }

  function NodesFrom(entries: seq<Entry>, k: nat): seq<Address>
    requires k <= |entries|
    decreases entries, |entries| - k, 1
  {
    if k == |entries| then [] else NodesOf(entries, k) + NodesFrom(entries, k + 1)
  }

  function NodesOf(entries: seq<Entry>, k: nat): seq<Address>
    requires k < |entries|
    decreases entries, |entries| - k, 0
  {
    [[k]] + Prefixed(k, if entries[k].DirEntry? then NodesFrom(entries[k].children, 0) else [])
  }

  function ChildrenOf(e: Entry): seq<Entry> {
    if e.DirEntry? then e.children else []
  }

  lemma {:induction false} NodesFromMembers(entries: seq<Entry>, k: nat)
    requires k <= |entries|
    ensures forall at :: at in NodesFrom(entries, k) <==> IsNode(entries, at) && at[0] >= k
    decreases entries, |entries| - k, 1
  {
    if k < |entries| {
      NodesOfMembers(entries, k);
      NodesFromMembers(entries, k + 1);
      hide NodesOf, IsNode;
      forall at
        ensures at in NodesFrom(entries, k) <==> at in NodesOf(entries, k) || at in NodesFrom(entries, k + 1)
      {
      }
      NodesHaveHeads(entries);
    } else {
      NodesHaveHeads(entries);
    }
  }

  lemma NodesHaveHeads(entries: seq<Entry>)
    ensures forall at | IsNode(entries, at) :: at != [] && at[0] < |entries|
  {
  }

  lemma {:induction false} NodesOfMembers(entries: seq<Entry>, k: nat)
    requires k < |entries|
    ensures forall at :: at in NodesOf(entries, k) <==> IsNode(entries, at) && at[0] == k
    decreases entries, |entries| - k, 0
  {
    var children := ChildrenOf(entries[k]);
    var below: seq<Address> := if entries[k].DirEntry? then NodesFrom(entries[k].children, 0) else [];
    if entries[k].DirEntry? {
      NodesFromMembers(entries[k].children, 0);
      NodesHaveHeads(entries[k].children);
    }
    hide NodesFrom;
    forall at: Address
      ensures at in NodesOf(entries, k) <==> IsNode(entries, at) && at[0] == k
    {
      PrefixedMembers(k, below, at);
      assert at in NodesOf(entries, k) <==> at == [k] || at in Prefixed(k, below);
      if |at| == 1 {
        assert at == [at[0]];
      }
    }
  }

  lemma PrefixedMembers(k: nat, ats: seq<Address>, at: Address)
    ensures at in Prefixed(k, ats) <==> at != [] && at[0] == k && at[1..] in ats
  {
    if at != [] && at[0] == k && at[1..] in ats {
      var i: nat :| i < |ats| && ats[i] == at[1..];
      assert Prefixed(k, ats)[i] == [k] + at[1..] == at;
    }
    if at in Prefixed(k, ats) {
      var i: nat :| i < |ats| && Prefixed(k, ats)[i] == at;
      assert at == [k] + ats[i] && at[1..] == ats[i];
    }
  }

  predicate Ordered(ats: seq<Address>) {
    forall i, j | 0 <= i < j < |ats| :: ComesBefore(ats[i], ats[j])
  }

  lemma OrderedOfConcatenation(a: seq<Address>, b: seq<Address>)
    requires Ordered(a) && Ordered(b) && forall x, y | x in a && y in b :: ComesBefore(x, y)
    ensures Ordered(a + b)
  {
    hide ComesBefore;
  }

  lemma PrefixedOrdered(k: nat, ats: seq<Address>)
    requires Ordered(ats)
    ensures Ordered(Prefixed(k, ats))
  {
    forall i, j | 0 <= i < j < |ats|
      ensures ComesBefore(Prefixed(k, ats)[i], Prefixed(k, ats)[j])
    {
      assert ([k] + ats[i])[1..] == ats[i] && ([k] + ats[j])[1..] == ats[j];
    }
  }

  lemma {:induction false} NodesFromOrdered(entries: seq<Entry>, k: nat)
    requires k <= |entries|
    ensures Ordered(NodesFrom(entries, k))
    decreases entries, |entries| - k, 1
  {
    if k < |entries| {
      NodesOfOrdered(entries, k);
      NodesFromOrdered(entries, k + 1);
      NodesOfMembers(entries, k);
      NodesFromMembers(entries, k + 1);
      hide NodesOf, IsNode, Ordered;
      OrderedOfConcatenation(NodesOf(entries, k), NodesFrom(entries, k + 1));
    }
  }

  lemma {:induction false} NodesOfOrdered(entries: seq<Entry>, k: nat)
    requires k < |entries|
    ensures Ordered(NodesOf(entries, k))
    decreases entries, |entries| - k, 0
  {
    var below: seq<Address> := if entries[k].DirEntry? then NodesFrom(entries[k].children, 0) else [];
    if entries[k].DirEntry? {
      NodesFromOrdered(entries[k].children, 0);
      NodesFromMembers(entries[k].children, 0);
    }
    hide NodesFrom;
    PrefixedOrdered(k, below);
    forall y | y in Prefixed(k, below)
      ensures ComesBefore([k], y)
    {
      PrefixedMembers(k, below, y);
    }
    OrderedOfConcatenation([[k]], Prefixed(k, below));
  }

  // ----- The walk visits them -----

  /** The `i`-th visit is that of the `i`-th address. */
  ghost predicate Match(visits: seq<Visit>, entries: seq<Entry>, ats: seq<Address>, dir: Path) {
    |visits| == |ats| && forall i | 0 <= i < |ats| :: IsVisitOf(visits[i], entries, ats[i], dir)
  }

  lemma MatchOfConcatenation(
      v: seq<Visit>, w: seq<Visit>, entries: seq<Entry>, a: seq<Address>, b: seq<Address>, dir: Path)
    requires Match(v, entries, a, dir) && Match(w, entries, b, dir)
    ensures Match(v + w, entries, a + b, dir)
  {
    hide IsVisitOf;
  }

  lemma MatchBelow(visits: seq<Visit>, entries: seq<Entry>, k: nat, ats: seq<Address>, dir: Path)
    requires k < |entries| && entries[k].DirEntry?
    requires Match(visits, entries[k].children, ats, dir + [entries[k].name])
    ensures Match(visits, entries, Prefixed(k, ats), dir)
  {
    forall i | 0 <= i < |ats|
      ensures IsVisitOf(visits[i], entries, Prefixed(k, ats)[i], dir)
    {
      var at := [k] + ats[i];
      assert at[1..] == ats[i];
      assert IsVisitOf(visits[i], entries[k].children, ats[i], dir + [entries[k].name]);
      assert dir + [entries[k].name] + PathTo(entries[k].children, ats[i]) == dir + PathTo(entries, at);
    }
  }

  lemma MatchSelf(entries: seq<Entry>, k: nat, dir: Path)
    requires k < |entries|
    ensures Match([Visit(dir + [entries[k].name], KindOf(entries[k]))], entries, [[k]], dir)
  {
    assert [entries[k].name] + [] == [entries[k].name];
  }

  lemma {:induction false} VisitsMatch(entries: seq<Entry>, k: nat, dir: Path)
    requires k <= |entries|
    ensures Match(Visits(entries[k..], dir), entries, NodesFrom(entries, k), dir)
    decreases entries, |entries| - k, 1
  {
    if k < |entries| {
      VisitsOfMatch(entries, k, dir);
      VisitsMatch(entries, k + 1, dir);
      hide NodesOf, VisitsOf, Match;
      assert entries[k..][1..] == entries[k + 1..];
      MatchOfConcatenation(VisitsOf(entries[k], dir), Visits(entries[k + 1..], dir), entries,
                           NodesOf(entries, k), NodesFrom(entries, k + 1), dir);
    }
  }

  lemma {:induction false} VisitsOfMatch(entries: seq<Entry>, k: nat, dir: Path)
    requires k < |entries|
    ensures Match(VisitsOf(entries[k], dir), entries, NodesOf(entries, k), dir)
    decreases entries, |entries| - k, 0
  {
    var e, path := entries[k], dir + [entries[k].name];
    var self := [Visit(path, KindOf(e))];
    MatchSelf(entries, k, dir);
    if e.DirEntry? {
      VisitsMatch(e.children, 0, path);
      assert e.children[0..] == e.children;
      hide NodesFrom, Visits, Match;
      MatchBelow(Visits(e.children, path), entries, k, NodesFrom(e.children, 0), dir);
      MatchOfConcatenation(self, Visits(e.children, path), entries, [[k]], Prefixed(k, NodesFrom(e.children, 0)), dir);
    } else {
      assert [[k]] + Prefixed(k, []) == [[k]];
      assert self + [] == self;
    }
  }

  /** What a walk visits: every node of the tree, at whatever depth, once, directories before their contents. */
  lemma VisitsAreTheNodes(entries: seq<Entry>, dir: Path) returns (ats: seq<Address>)
    ensures AreTheNodes(Visits(entries, dir), entries, dir, ats)
  {
    ats := NodesFrom(entries, 0);
    assert entries[0..] == entries;
    VisitsMatch(entries, 0, dir);
    NodesFromMembers(entries, 0);
    NodesFromOrdered(entries, 0);
    hide IsNode, IsVisitOf, NodesFrom, Visits, ComesBefore;
    NodesHaveHeads(entries);
  }

  // ----- The logs in a tree -----

  /** Session logs are told by their names. */
  ghost predicate IsLogName(name: string) {
    exists stem: string :: name == stem + ".jsonl" || name == stem + ".jsonl.zstd"
  }

  lemma LogNamesMatch(path: Path)
    requires path != []
    ensures MatchesName(path) <==> IsLogName(path[|path| - 1])
  {
    var name := path[|path| - 1];
    if EndsWith(name, ".jsonl") {
      assert name == name[..|name| - |".jsonl"|] + ".jsonl";
    }
    if EndsWith(name, ".jsonl.zstd") {
      assert name == name[..|name| - |".jsonl.zstd"|] + ".jsonl.zstd";
    }
  }

  /** A regular file with such a name, at any depth. */
  ghost predicate IsLogAt(entries: seq<Entry>, at: Address) {
    IsNode(entries, at) && NodeAt(entries, at).FileEntry? && IsLogName(NodeAt(entries, at).name)
  }

  /** The file at an address; one that is no file, which no caller asks about, is empty. */
  function FileAt(entries: seq<Entry>, at: Address): RawFile {
    if IsNode(entries, at) && NodeAt(entries, at).FileEntry?
    then RawFile(PathTo(entries, at), NodeAt(entries, at).raw)
    else RawFile([], [])
  }

  /** All the logs of a tree, each once. */
  ghost predicate AreTheLogs(entries: seq<Entry>, logs: seq<Address>) {
    && (forall i | 0 <= i < |logs| :: IsLogAt(entries, logs[i]))
    && (forall i, j | 0 <= i < j < |logs| :: logs[i] != logs[j])
    && (forall at | IsLogAt(entries, at) :: at in logs)
  }

  lemma {:induction false} PathEndsInName(entries: seq<Entry>, at: Address)
    requires IsNode(entries, at)
    ensures PathTo(entries, at)[|at| - 1] == NodeAt(entries, at).name
    decreases |at|
  {
    if |at| > 1 {
      PathEndsInName(entries[at[0]].children, at[1..]);
    }
  }

  lemma MatchIsLog(v: Visit, entries: seq<Entry>, at: Address)
    requires IsVisitOf(v, entries, at, [])
    ensures IsMatch(v) <==> IsLogAt(entries, at)
    ensures IsMatch(v) ==> FileOf(v) == FileAt(entries, at)
  {
    assert [] + PathTo(entries, at) == PathTo(entries, at);
    PathEndsInName(entries, at);
    LogNamesMatch(v.path);
    hide MatchesName, IsLogName, PathTo;
  }

  /** Some of the addresses, without repetition, and every log among the first `n`. */
  ghost predicate LogsAmong(entries: seq<Entry>, ats: seq<Address>, n: nat, logs: seq<Address>)
    requires n <= |ats|
  {
    && (forall i | 0 <= i < |logs| :: IsLogAt(entries, logs[i]) && logs[i] in ats[..n])
    && (forall i, j | 0 <= i < j < |logs| :: logs[i] != logs[j])
    && (forall i | 0 <= i < n && IsLogAt(entries, ats[i]) :: ats[i] in logs)
  }

  lemma LogsAmongOneMore(entries: seq<Entry>, ats: seq<Address>, n: nat, logs: seq<Address>)
    requires n < |ats| && LogsAmong(entries, ats, n, logs) && forall i | 0 <= i < n :: ats[i] != ats[n]
    ensures LogsAmong(entries, ats, n + 1, if IsLogAt(entries, ats[n]) then logs + [ats[n]] else logs)
  {
    hide IsLogAt;
    assert ats[..n + 1] == ats[..n] + [ats[n]];
    if IsLogAt(entries, ats[n]) {
      var all := logs + [ats[n]];
      assert all[|logs|] == ats[n];
      forall i | 0 <= i < |logs|
        ensures logs[i] != ats[n]
      {
        var k :| 0 <= k < n && ats[..n][k] == logs[i];
      }
    }
  }

  lemma {:induction false} FilesOfVisits(visits: seq<Visit>, entries: seq<Entry>, ats: seq<Address>, n: nat)
    returns (logs: seq<Address>)
    requires n <= |visits| && Match(visits, entries, ats, [])
    requires forall i, j | 0 <= i < j < |ats| :: ats[i] != ats[j]
    ensures LogsAmong(entries, ats, n, logs)
    ensures MatchedFiles(visits[..n]) == Map(logs, (at: Address) => FileAt(entries, at))
  {
    hide IsMatch, FileOf, IsLogAt, FileAt, MatchedFiles, IsVisitOf;
    var file := (at: Address) => FileAt(entries, at);
    if n == 0 {
      logs := [];
      NoFilesOfNothing();
    } else {
      var before := FilesOfVisits(visits, entries, ats, n - 1);
      assert visits[..n] == visits[..n - 1] + [visits[n - 1]];
      TallyOfOneMore(visits[..n - 1], visits[n - 1]);
      MatchIsLog(visits[n - 1], entries, ats[n - 1]);
      LogsAmongOneMore(entries, ats, n - 1, before);
      if IsLogAt(entries, ats[n - 1]) {
        logs := before + [ats[n - 1]];
        MapOfOneMore(before, ats[n - 1], file);
      } else {
        logs := before;
        assert MatchedFiles(visits[..n - 1]) + [] == MatchedFiles(visits[..n - 1]);
      }
    }
  }

  lemma NoFilesOfNothing()
    ensures MatchedFiles([]) == []
  {
  }

  /** The matching files a walk finds are the logs of the tree, at whatever depth they lie. */
  lemma MatchedFilesAreTheLogs(entries: seq<Entry>) returns (logs: seq<Address>)
    ensures AreTheLogs(entries, logs)
    ensures MatchedFiles(Visits(entries, [])) == Map(logs, (at: Address) => FileAt(entries, at))
  {
    var visits := Visits(entries, []);
    var ats := VisitsAreTheNodes(entries, []);
    AddressesDiffer(ats);
    hide Visits, MatchedFiles, IsVisitOf, ComesBefore, NodeAt, IsNode, FileAt;
    logs := FilesOfVisits(visits, entries, ats, |visits|);
    assert visits[..|visits|] == visits && ats[..|ats|] == ats;
  }

  function LogBytes(entries: seq<Entry>, logs: seq<Address>): nat {
    if logs == [] then 0 else LogBytes(entries, logs[..|logs| - 1]) + |FileAt(entries, logs[|logs| - 1]).raw|
  }

  lemma {:induction false} BytesOfFiles(entries: seq<Entry>, logs: seq<Address>)
    ensures OnDiskBytes(Map(logs, (at: Address) => FileAt(entries, at))) == LogBytes(entries, logs)
  {
    hide FileAt;
    if logs != [] {
      BytesOfFiles(entries, logs[..|logs| - 1]);
      var files := Map(logs, (at: Address) => FileAt(entries, at));
      assert files[..|files| - 1] == Map(logs[..|logs| - 1], (at: Address) => FileAt(entries, at));
    }
  }

  /**
   * A tree is within the limits of the walk exactly when it has no more nodes, at all depths together, no more
   * logs, and no more bytes in its logs, than they allow.
   */
  lemma WalkLimitsExactly(entries: seq<Entry>, limits: Limits) returns (ats: seq<Address>, logs: seq<Address>)
    ensures AreTheNodes(Visits(entries, []), entries, [], ats) && AreTheLogs(entries, logs)
    ensures WithinWalkLimits(Visits(entries, []), limits) <==>
              |ats| <= limits.maxEntries && |logs| <= limits.maxFiles && LogBytes(entries, logs) <= limits.maxBytes
  {
    hide Visits, MatchedFiles, OnDiskBytes, LogBytes, AreTheLogs;
    ats := VisitsAreTheNodes(entries, []);
    logs := MatchedFilesAreTheLogs(entries);
    BytesOfFiles(entries, logs);
  }

  lemma AddressesDiffer(ats: seq<Address>)
    requires forall i, j | 0 <= i < j < |ats| :: ComesBefore(ats[i], ats[j])
    ensures forall i, j | 0 <= i < j < |ats| :: ats[i] != ats[j]
  {
    forall i, j | 0 <= i < j < |ats|
      ensures ats[i] != ats[j]
    {
      ComesBeforeIsStrict(ats[i]);
    }
  }

  lemma {:induction false} ComesBeforeIsStrict(a: Address)
    ensures !ComesBefore(a, a)
  {
    if a != [] {
      ComesBeforeIsStrict(a[1..]);
    }
  }
}
