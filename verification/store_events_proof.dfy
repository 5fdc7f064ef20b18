/**
 * The two event logs compared, whatever the timestamps: exactly when an append, a whole run of appends and
 * a listing come out the same. Timestamps have the resolution of a millisecond, so ties are ordinary.
 */
module StoreEventsProof {
  import opened Sequences
  import opened StoreEvents

  /** Each of the last `n` events is newer than every event before it. */
  predicate TailIsNewest(events: seq<Event>, n: nat) {
    forall i, j | 0 <= i < j < |events| && |events| - n <= j :: events[i].createdAt < events[j].createdAt
  }

  predicate DistinctIds(events: seq<Event>) {
    forall i, j | 0 <= i < j < |events| :: events[i].id != events[j].id
  }

  /** The newest-first order begins with the last `n` events, the last one first. */
  lemma {:induction false} OrderOfTail(ordered: seq<Event>, events: seq<Event>, n: nat)
    requires NewestFirst(ordered) && multiset(ordered) == multiset(events)
    requires n <= |events| && TailIsNewest(events, n)
    ensures |ordered| == |events|
    ensures forall q | 0 <= q < n :: ordered[q] == events[|events| - 1 - q]
  {
    MembersOfPermutation(ordered, events);
    if n > 0 {
      NewestIsFirst(ordered, events, n);
      PartsStayOrdered(ordered, events, n);
      FirstOfPermutation(ordered, events);
      hide TailIsNewest, NewestFirst;
      OrderOfTail(ordered[1..], events[..|events| - 1], n - 1);
      forall q | 0 <= q < n
        ensures ordered[q] == events[|events| - 1 - q]
      {
        if q > 0 {
          assert ordered[1..][q - 1] == ordered[q];
        }
      }
    }
  }

  lemma FirstOfPermutation(ordered: seq<Event>, events: seq<Event>)
    requires multiset(ordered) == multiset(events) && ordered != [] && events != []
    requires ordered[0] == events[|events| - 1]
    ensures multiset(ordered[1..]) == multiset(events[..|events| - 1])
  {
    MultisetOfFirst(ordered);
    MultisetOfLast(events);
    MultisetCancel(multiset(ordered[1..]), multiset(events[..|events| - 1]), ordered[0]);
  }

  lemma PartsStayOrdered(ordered: seq<Event>, events: seq<Event>, n: nat)
    requires ordered != [] && 0 < n <= |events| && TailIsNewest(events, n) && NewestFirst(ordered)
    ensures NewestFirst(ordered[1..]) && TailIsNewest(events[..|events| - 1], n - 1)
  {
  }

  lemma NewestIsFirst(ordered: seq<Event>, events: seq<Event>, n: nat)
    requires NewestFirst(ordered) && multiset(ordered) == multiset(events)
    requires 0 < n <= |events| && TailIsNewest(events, n)
    ensures ordered != [] && ordered[0] == events[|events| - 1]
  {
    var newest := events[|events| - 1];
    MembersOfPermutation(ordered, events);
    assert newest in ordered && ordered[0] in events;
    assert forall e <- ordered :: e.createdAt <= ordered[0].createdAt;
    assert forall e <- events :: e == newest || e.createdAt < newest.createdAt;
  }

  lemma {:induction false} WithoutOldest(rows: seq<Event>, k: nat)
    requires k <= |rows| && DistinctIds(rows)
    ensures Without(rows, Ids(rows[..k])) == rows[k..]
  {
    if k == |rows| {
      WithoutAll(rows, Ids(rows[..k]));
    } else {
      var n := |rows| - 1;
      assert rows[..n][..k] == rows[..k];
      WithoutOldest(rows[..n], k);
      assert rows[n].id !in Ids(rows[..k]);
      assert rows[k..] == rows[..n][k..] + [rows[n]];
    }
  }

  lemma {:induction false} WithoutAll(rows: seq<Event>, ids: set<string>)
    requires forall i | 0 <= i < |rows| :: rows[i].id in ids
    ensures Without(rows, ids) == []
  {
    if rows != [] {
      var n := |rows| - 1;
      WithoutAll(rows[..n], ids);
    }
  }

  /** How many events from the front the array drops. */
  function Surplus(events: seq<Event>): (k: nat)
    ensures k <= |events|
  {
    if |events| > MAX_EVENTS then |events| - MAX_EVENTS else 0
  }

  /** Every event the array drops is older than every event it keeps. */
  predicate DropsTheOldest(events: seq<Event>) {
    forall i, j | 0 <= i < Surplus(events) <= j < |events| :: events[i].createdAt < events[j].createdAt
  }

  /** In a newest-first order, whatever is closed under "newer" comes first. */
  lemma {:induction false} NewerComeFirst(ordered: seq<Event>, p: Event -> bool)
    requires forall i, j | 0 <= i < j < |ordered| :: p(ordered[j]) ==> p(ordered[i])
    ensures |Filter(ordered, p)| <= |ordered|
    ensures forall i | 0 <= i < |ordered| :: p(ordered[i]) <==> i < |Filter(ordered, p)|
  {
    if ordered != [] {
      var n := |ordered| - 1;
      NewerComeFirst(ordered[..n], p);
      assert forall i | 0 <= i < n :: ordered[..n][i] == ordered[i];
    }
  }

  lemma {:induction false} FilterSplit(rows: seq<Event>, k: nat, p: Event -> bool)
    requires k <= |rows|
    requires (forall i | 0 <= i < k :: !p(rows[i])) && forall i | k <= i < |rows| :: p(rows[i])
    ensures |Filter(rows, p)| == |rows| - k
  {
    if rows != [] {
      var n := |rows| - 1;
      FilterSplit(rows[..n], if k <= n then k else n, p);
    }
  }

  /** What is kept comes first in the query's order, in whatever order ties come. */
  lemma KeptComeFirst(rows: seq<Event>, ordered: seq<Event>)
    requires multiset(ordered) == multiset(rows) && NewestFirst(ordered) && DistinctIds(rows) && DropsTheOldest(rows)
    ensures |ordered| == |rows|
    ensures forall i | 0 <= i < |rows| :: ordered[i] in rows[Surplus(rows)..] <==> i < |rows| - Surplus(rows)
  {
    var k := Surplus(rows);
    var p := (e: Event) => e in rows[k..];
    MembersOfPermutation(ordered, rows);
    KeptAreNewer(ordered, rows);
    DroppedOrKept(rows);
    hide NewestFirst, DistinctIds, DropsTheOldest, Filter;
    NewerComeFirst(ordered, p);
    FilterSplit(rows, k, p);
    FilterOfPermutation(ordered, rows, p);
    MembersOfPermutation(Filter(ordered, p), Filter(rows, p));
  }

  /** The query that finds the rows to prune then finds exactly what the array drops. */
  lemma ExcessIsOldest(rows: seq<Event>, order: seq<Event> -> seq<Event>)
    requires IsNewestFirstQuery(order) && DistinctIds(rows) && DropsTheOldest(rows)
    ensures Ids(Excess(order(rows))) == Ids(rows[..Surplus(rows)])
  {
    hide NewestFirst, DropsTheOldest;
    var k, ordered := Surplus(rows), order(rows);
    QueryOf(rows, order);
    KeptComeFirst(rows, ordered);
    MembersOfPermutation(ordered, rows);
    DroppedOrKept(rows);
    hide DistinctIds, IsNewestFirstQuery;
    assert |rows| > MAX_EVENTS ==> |rows| - k == MAX_EVENTS;
    SameEventsSameIds(Excess(ordered), rows[..k]) by {
      ExcessMembers(ordered, rows, k);
    }
  }

  lemma ExcessMembers(ordered: seq<Event>, rows: seq<Event>, k: nat)
    requires |ordered| == |rows| && k == Surplus(rows)
    requires forall e :: e in ordered <==> e in rows
    requires forall i | 0 <= i < |rows| :: ordered[i] in rows[k..] <==> i < |rows| - k
    requires forall e <- rows :: e in rows[..k] <==> e !in rows[k..]
    ensures forall e :: e in Excess(ordered) <==> e in rows[..k]
  {
    forall e | e in rows[..k]
      ensures e in Excess(ordered)
    {
      assert e in rows;
      assert e in ordered;
      var i :| 0 <= i < |ordered| && ordered[i] == e;
      assert i >= MAX_EVENTS;
      assert Excess(ordered)[i - MAX_EVENTS] == e;
    }
    forall e | e in Excess(ordered)
      ensures e in rows[..k]
    {
      var i :| MAX_EVENTS <= i < |ordered| && ordered[i] == e;
    }
  }

  lemma SameEventsSameIds(a: seq<Event>, b: seq<Event>)
    requires forall e :: e in a <==> e in b
    ensures Ids(a) == Ids(b)
  {
  }

  lemma QueryOf(rows: seq<Event>, order: seq<Event> -> seq<Event>)
    requires IsNewestFirstQuery(order)
    ensures multiset(order(rows)) == multiset(rows) && NewestFirst(order(rows))
  {
  }

  lemma DroppedOrKept(rows: seq<Event>)
    requires DistinctIds(rows)
    ensures forall i | 0 <= i < |rows| :: rows[i] in rows[Surplus(rows)..] <==> i >= Surplus(rows)
    ensures forall e <- rows :: e in rows[..Surplus(rows)] <==> e !in rows[Surplus(rows)..]
  {
  }

  lemma KeptAreNewer(ordered: seq<Event>, rows: seq<Event>)
    requires NewestFirst(ordered) && DropsTheOldest(rows) && forall e :: e in ordered <==> e in rows
    ensures forall i, j | 0 <= i < j < |ordered| ::
              ordered[j] in rows[Surplus(rows)..] ==> ordered[i] in rows[Surplus(rows)..]
  {
    var k := Surplus(rows);
    forall i, j | 0 <= i < j < |ordered| && ordered[j] in rows[k..]
      ensures ordered[i] in rows[k..]
    {
      assert ordered[i] in rows;
      var a :| 0 <= a < |rows| && rows[a] == ordered[i];
      var b :| k <= b < |rows| && rows[b] == ordered[j];
    }
  }

  /** One append: from a table that holds what the array holds, to a table that holds what the array holds. */
  lemma AppendAgrees(events: seq<Event>, event: Event, order: seq<Event> -> seq<Event>)
    requires IsNewestFirstQuery(order) && DistinctIds(events + [event]) && DropsTheOldest(events + [event])
    ensures TableAfter(events, event, order) == KeepLast(events + [event])
  {
    hide IsNewestFirstQuery, DropsTheOldest;
    var all := events + [event];
    UpsertOfNew(events, event);
    ExcessIsOldest(all, order);
    WithoutOldest(all, Surplus(all));
  }

  lemma UpsertOfNew(events: seq<Event>, event: Event)
    requires DistinctIds(events + [event])
    ensures Upsert(events, event) == events + [event]
  {
    var all := events + [event];
    forall i | 0 <= i < |events|
      ensures events[i].id !in {event.id}
    {
      assert all[i].id != all[|events|].id;
    }
    WithoutOthers(events, {event.id});
  }

  // ----- A query that lists ties in the order of insertion -----

  /** Where the first older row is. */
  function PlaceFor(sorted: seq<Event>, time: int): (m: nat)
    ensures m <= |sorted|
    ensures forall i | 0 <= i < m :: sorted[i].createdAt >= time
    ensures m < |sorted| ==> sorted[m].createdAt < time
  {
    if sorted == [] then 0
    else if sorted[0].createdAt < time then 0
    else 1 + PlaceFor(sorted[1..], time)
  }

  function Inserted(sorted: seq<Event>, e: Event): seq<Event> {
    var m := PlaceFor(sorted, e.createdAt);
    sorted[..m] + [e] + sorted[m..]
  }

  function StableSort(rows: seq<Event>): seq<Event> {
    if rows == [] then [] else Inserted(StableSort(rows[..|rows| - 1]), rows[|rows| - 1])
  }

  lemma InsertedKeepsOrder(sorted: seq<Event>, e: Event)
    requires NewestFirst(sorted)
    ensures NewestFirst(Inserted(sorted, e))
  {
    hide PlaceFor;
  }

  lemma InsertedAdds(sorted: seq<Event>, e: Event)
    ensures multiset(Inserted(sorted, e)) == multiset(sorted) + multiset{e}
  {
    hide PlaceFor;
    var m := PlaceFor(sorted, e.createdAt);
    assert sorted == sorted[..m] + sorted[m..];
  }

  lemma InsertedAt(sorted: seq<Event>, e: Event)
    ensures var m, r := PlaceFor(sorted, e.createdAt), Inserted(sorted, e);
            && |r| == |sorted| + 1 && r[m] == e
            && forall a | 0 <= a < |sorted| :: r[if a < m then a else a + 1] == sorted[a]
  {
    hide PlaceFor;
  }

  lemma {:induction false} StableSortSorts(rows: seq<Event>)
    ensures multiset(StableSort(rows)) == multiset(rows) && NewestFirst(StableSort(rows))
  {
    hide NewestFirst, Inserted;
    if rows == [] {
      NothingIsSorted();
    } else {
      var n := |rows| - 1;
      StableSortSorts(rows[..n]);
      InsertedKeepsOrder(StableSort(rows[..n]), rows[n]);
      InsertedAdds(StableSort(rows[..n]), rows[n]);
      MultisetOfLast(rows);
    }
  }

  lemma NothingIsSorted()
    ensures NewestFirst([])
  {
  }

  lemma StableSortIsQuery()
    ensures IsNewestFirstQuery(StableSort)
  {
    hide StableSort, NewestFirst;
    forall rows
      ensures multiset(StableSort(rows)) == multiset(rows) && NewestFirst(StableSort(rows))
    {
      StableSortSorts(rows);
    }
  }

  /** A row comes before every later row that is not newer. */
  lemma {:induction false} StableSortIsStable(rows: seq<Event>, i: nat, j: nat) returns (p: nat, q: nat)
    requires i < j < |rows| && rows[i].createdAt >= rows[j].createdAt
    ensures p < q < |StableSort(rows)| && StableSort(rows)[p] == rows[i] && StableSort(rows)[q] == rows[j]
  {
    var n := |rows| - 1;
    var sorted := StableSort(rows[..n]);
    var m := PlaceFor(sorted, rows[n].createdAt);
    InsertedAt(sorted, rows[n]);
    hide Inserted;
    if j == n {
      p := SortedPlace(rows[..n], i);
      q := m;
    } else {
      var a, b := StableSortIsStable(rows[..n], i, j);
      p, q := if a < m then a else a + 1, if b < m then b else b + 1;
    }
  }

  lemma SortedPlace(rows: seq<Event>, i: nat) returns (p: nat)
    requires i < |rows|
    ensures p < |StableSort(rows)| && StableSort(rows)[p] == rows[i]
    ensures forall time | rows[i].createdAt >= time :: p < PlaceFor(StableSort(rows), time)
  {
    StableSortSorts(rows);
    hide StableSort, PlaceFor;
    MembersOfPermutation(StableSort(rows), rows);
    assert rows[i] in StableSort(rows);
    p :| 0 <= p < |StableSort(rows)| && StableSort(rows)[p] == rows[i];
  }

  lemma {:induction false} WithoutMembers(rows: seq<Event>, ids: set<string>)
    ensures forall e :: e in Without(rows, ids) <==> e in rows && e.id !in ids
  {
    if rows != [] {
      var n := |rows| - 1;
      WithoutMembers(rows[..n], ids);
      assert rows == rows[..n] + [rows[n]];
    }
  }

  /** If a dropped event is not older than a kept one, that query prunes the wrong row. */
  lemma TiedCutDisagrees(events: seq<Event>, event: Event)
    requires DistinctIds(events + [event]) && !DropsTheOldest(events + [event])
    ensures TableAfter(events, event, StableSort) != KeepLast(events + [event])
  {
    var all := events + [event];
    var k := Surplus(all);
    var i, j :| 0 <= i < k <= j < |all| && !(all[i].createdAt < all[j].createdAt);
    UpsertOfNew(events, event);
    hide StableSort, Upsert, Without, DropsTheOldest, DistinctIds;
    StableSortSorts(all);
    var p, q := StableSortIsStable(all, i, j);
    WrongRowPruned(all, StableSort(all), i, j, p, q);
  }

  lemma WrongRowPruned(all: seq<Event>, sorted: seq<Event>, i: nat, j: nat, p: nat, q: nat)
    requires DistinctIds(all) && multiset(sorted) == multiset(all)
    requires i < Surplus(all) <= j < |all| && p < q < |sorted| && sorted[p] == all[i] && sorted[q] == all[j]
    ensures Without(all, Ids(Excess(sorted))) != KeepLast(all)
  {
    hide Without;
    var left := Without(all, Ids(Excess(sorted)));
    WithoutMembers(all, Ids(Excess(sorted)));
    DroppedOrKept(all);
    assert all[j] in KeepLast(all) && all[i] !in KeepLast(all);
    if all[i].id in Ids(Excess(sorted)) {
      PrunedFromTheEnd(all, sorted, p, q);
    }
  }

  lemma {:induction false} DistinctOnce(all: seq<Event>, e: Event)
    requires DistinctIds(all)
    ensures multiset(all)[e] <= 1
  {
    if all != [] {
      var n := |all| - 1;
      DistinctOnce(all[..n], e);
      assert all == all[..n] + [all[n]];
      if e == all[n] {
        assert forall i | 0 <= i < n :: all[..n][i].id != e.id;
        assert e !in multiset(all[..n]);
      }
    }
  }

  lemma TwiceInMultiset(s: seq<Event>, a: nat, b: nat)
    requires a < b < |s| && s[a] == s[b]
    ensures multiset(s)[s[a]] >= 2
  {
    assert s == s[..b] + s[b..];
    assert s[..b][a] in multiset(s[..b]) && s[b..][0] in multiset(s[b..]);
  }

  lemma NoRowTwice(all: seq<Event>, sorted: seq<Event>, a: nat, b: nat)
    requires DistinctIds(all) && multiset(sorted) == multiset(all)
    requires a < |sorted| && b < |sorted| && sorted[a] == sorted[b]
    ensures a == b
  {
    if a != b {
      TwiceInMultiset(sorted, if a < b then a else b, if a < b then b else a);
      DistinctOnce(all, sorted[a]);
    }
  }

  lemma SameIdSameRow(all: seq<Event>, x: Event, y: Event)
    requires DistinctIds(all) && x in all && y in all && x.id == y.id
    ensures x == y
  {
  }

  /** The query prunes from the end of its list: with a row, everything after it. */
  lemma PrunedFromTheEnd(all: seq<Event>, sorted: seq<Event>, p: nat, q: nat)
    requires DistinctIds(all) && multiset(sorted) == multiset(all)
    requires p < q < |sorted| && sorted[p].id in Ids(Excess(sorted))
    ensures sorted[q].id in Ids(Excess(sorted))
  {
    MembersOfPermutation(sorted, all);
    var x :| x in Excess(sorted) && x.id == sorted[p].id;
    var a: nat :| MAX_EVENTS <= a < |sorted| && sorted[a] == x;
    SameIdSameRow(all, x, sorted[p]);
    NoRowTwice(all, sorted, a, p);
    assert Excess(sorted)[q - MAX_EVENTS] == sorted[q];
  }

  /**
   * One append, exactly. It takes equal stores to equal stores, in whatever order the query lists ties, if
   * and only if everything the array drops is older than everything it keeps.
   */
  lemma AppendAgreesExactly(events: seq<Event>, event: Event)
    requires DistinctIds(events + [event])
    ensures (forall order :: IsNewestFirstQuery(order) ==> TableAfter(events, event, order) == KeepLast(events + [event]))
       <==> DropsTheOldest(events + [event])
  {
    hide IsNewestFirstQuery, TableAfter, DropsTheOldest, DistinctIds;
    if DropsTheOldest(events + [event]) {
      forall order | IsNewestFirstQuery(order)
        ensures TableAfter(events, event, order) == KeepLast(events + [event])
      {
        AppendAgrees(events, event, order);
      }
    } else {
      StableSortIsQuery();
      TiedCutDisagrees(events, event);
    }
  }

  function JsonAfter(appended: seq<Event>): seq<Event> {
    if appended == [] then []
    else KeepLast(JsonAfter(appended[..|appended| - 1]) + [appended[|appended| - 1]])
  }

  function SqliteAfter(appended: seq<Event>, order: seq<Event> -> seq<Event>): seq<Event> {
    if appended == [] then []
    else TableAfter(SqliteAfter(appended[..|appended| - 1], order), appended[|appended| - 1], order)
  }

  /** The array holds the last 200 of everything ever appended. */
  lemma {:induction false} JsonKeepsLast(appended: seq<Event>)
    ensures JsonAfter(appended) == KeepLast(appended)
  {
    if appended != [] {
      JsonKeepsLast(appended[..|appended| - 1]);
    }
  }

  /** Whatever was appended, the array holds the last 200 of it, or all when there are no more. */
  lemma ArrayHoldsLast200(appended: seq<Event>)
    ensures JsonAfter(appended) == if |appended| <= 200 then appended else appended[|appended| - 200..]
  {
    JsonKeepsLast(appended);
  }

  /** Pruning by the query leaves the table with the last 200 too, when what it prunes is the oldest. */
  lemma TableHoldsLast200(appended: seq<Event>, order: seq<Event> -> seq<Event>)
    requires IsNewestFirstQuery(order) && DistinctIds(appended) && PrunesTheOldest(appended)
    ensures SqliteAfter(appended, order) == if |appended| <= 200 then appended else appended[|appended| - 200..]
  {
    hide IsNewestFirstQuery, PrunesTheOldest, DistinctIds, SqliteAfter, JsonAfter;
    StoresAgree(appended, order);
    ArrayHoldsLast200(appended);
  }

  /** Every event that is ever pruned is older than each of the 200 after it. */
  predicate PrunesTheOldest(appended: seq<Event>) {
    forall i, j | 0 <= i < j <= i + MAX_EVENTS < |appended| :: appended[i].createdAt < appended[j].createdAt
  }

  /** The stores held the same events before, between and after the appends. */
  ghost predicate AgreeThroughout(appended: seq<Event>, order: seq<Event> -> seq<Event>) {
    && SqliteAfter(appended, order) == JsonAfter(appended)
    && (appended != [] ==> AgreeThroughout(appended[..|appended| - 1], order))
  }

  /** The last append drops, if anything, the one event 200 places before it. */
  lemma LastDrop(appended: seq<Event>)
    requires appended != []
    ensures var front, last := appended[..|appended| - 1], appended[|appended| - 1];
            && (PrunesTheOldest(appended) <==>
                  PrunesTheOldest(front) && DropsTheOldest(KeepLast(front) + [last]))
            && (DistinctIds(appended) ==> DistinctIds(KeepLast(front) + [last]))
  {
    var n := |appended| - 1;
    var front, last := appended[..n], appended[n];
    var k := Surplus(front);
    var window := KeepLast(front) + [last];
    assert window == appended[k..];
    if n >= MAX_EVENTS {
      assert Surplus(window) == 1 && |window| == MAX_EVENTS + 1;
      assert forall j | 0 <= j < |window| :: window[j] == appended[k + j];
      if PrunesTheOldest(front) && DropsTheOldest(window) {
        forall i, j | 0 <= i < j <= i + MAX_EVENTS < |appended|
          ensures appended[i].createdAt < appended[j].createdAt
        {
          if i + MAX_EVENTS == n {
            assert i == k && window[0] == appended[i] && window[j - k] == appended[j];
          } else {
            assert front[i] == appended[i] && front[j] == appended[j];
          }
        }
      }
    } else {
      assert Surplus(window) == 0;
    }
  }

  /**
   * Whole runs, exactly: with new ids, the stores hold the same events all along, in whatever order ties
   * come, if and only if every event that is ever pruned is older than each of the 200 after it.
   */
  lemma {:induction false} StoresAgreeExactly(appended: seq<Event>)
    requires DistinctIds(appended)
    ensures (forall order :: IsNewestFirstQuery(order) ==> AgreeThroughout(appended, order)) <==> PrunesTheOldest(appended)
  {
    hide IsNewestFirstQuery, AgreeThroughout, PrunesTheOldest;
    StableSortIsQuery();
    if PrunesTheOldest(appended) {
      forall order | IsNewestFirstQuery(order)
        ensures AgreeThroughout(appended, order)
      {
        PruningAgrees(appended, order);
      }
    } else {
      TiesDisagree(appended);
    }
  }

  lemma {:induction false} PruningAgrees(appended: seq<Event>, order: seq<Event> -> seq<Event>)
    requires IsNewestFirstQuery(order) && DistinctIds(appended) && PrunesTheOldest(appended)
    ensures AgreeThroughout(appended, order)
  {
    hide IsNewestFirstQuery, TableAfter, KeepLast, DistinctIds, PrunesTheOldest, DropsTheOldest;
    if appended != [] {
      var front, last := appended[..|appended| - 1], appended[|appended| - 1];
      LastDrop(appended);
      FrontIsDistinct(appended);
      PruningAgrees(front, order);
      JsonKeepsLast(front);
      AppendAgrees(KeepLast(front), last, order);
    }
  }

  lemma {:induction false} TiesDisagree(appended: seq<Event>)
    requires DistinctIds(appended) && !PrunesTheOldest(appended)
    ensures !AgreeThroughout(appended, StableSort)
  {
    hide StableSort, TableAfter, KeepLast, DistinctIds, PrunesTheOldest, DropsTheOldest;
    if appended == [] {
      NothingPruned();
    } else {
      var front, last := appended[..|appended| - 1], appended[|appended| - 1];
      LastDrop(appended);
      FrontIsDistinct(appended);
      if !PrunesTheOldest(front) {
        TiesDisagree(front);
      } else {
        JsonKeepsLast(front);
        TiedCutDisagrees(KeepLast(front), last);
      }
    }
  }

  lemma FrontIsDistinct(appended: seq<Event>)
    requires appended != [] && DistinctIds(appended)
    ensures DistinctIds(appended[..|appended| - 1])
  {
  }

  lemma NothingPruned()
    ensures PrunesTheOldest([])
  {
  }

  /** Both stores then hold the last 200 events, in order. */
  lemma StoresAgree(appended: seq<Event>, order: seq<Event> -> seq<Event>)
    requires IsNewestFirstQuery(order) && DistinctIds(appended) && PrunesTheOldest(appended)
    ensures SqliteAfter(appended, order) == JsonAfter(appended) == KeepLast(appended)
  {
    hide IsNewestFirstQuery, TableAfter, KeepLast, JsonAfter, SqliteAfter, DistinctIds, PrunesTheOldest;
    JsonKeepsLast(appended);
    PruningAgrees(appended, order);
  }

  function JsonList(appended: seq<Event>, limit: int): seq<Event> {
    SliceFromMinus(JsonAfter(appended), limit)
  }

  /** What the array lists: the last `limit` events, all of them for 0, and all but the first few for a negative limit. */
  lemma ArrayLists(appended: seq<Event>, limit: int)
    ensures var events, listed := JsonAfter(appended), JsonList(appended, limit);
            && (limit >= 1 && limit <= |events| ==> listed == events[|events| - limit..])
            && (limit == 0 || limit > |events| ==> listed == events)
            && (limit < 0 && -limit <= |events| ==> listed == events[-limit..])
            && (limit < 0 && -limit > |events| ==> listed == [])
  {
    hide JsonAfter;
  }

  function SqliteList(appended: seq<Event>, limit: int, order: seq<Event> -> seq<Event>): seq<Event> {
    Reversed(Limited(order(SqliteAfter(appended, order)), limit))
  }

  function AtMost(limit: nat, n: nat): (k: nat)
    ensures k <= n
  {
    if limit <= n then limit else n
  }

  lemma ListsOf(appended: seq<Event>, limit: int, order: seq<Event> -> seq<Event>)
    requires IsNewestFirstQuery(order) && DistinctIds(appended) && PrunesTheOldest(appended)
    ensures var events := KeepLast(appended);
            && |order(events)| == |events|
            && JsonList(appended, limit) == SliceFromMinus(events, limit)
            && SqliteList(appended, limit, order) == Reversed(Limited(order(events), limit))
  {
    StoresAgree(appended, order);
    QueryOf(KeepLast(appended), order);
    hide IsNewestFirstQuery, SqliteAfter, JsonAfter, KeepLast, NewestFirst, PrunesTheOldest, DistinctIds;
    MembersOfPermutation(order(KeepLast(appended)), KeepLast(appended));
  }

  lemma KeptIsDistinct(appended: seq<Event>)
    requires DistinctIds(appended)
    ensures DistinctIds(KeepLast(appended)) && (KeepLast(appended) == [] <==> appended == [])
  {
  }

  /** The lists have different lengths. */
  lemma UnlimitedListsDiffer(events: seq<Event>, ordered: seq<Event>, limit: int)
    requires |ordered| == |events| > 0 && limit < 1
    ensures SliceFromMinus(events, limit) != Reversed(Limited(ordered, limit))
  {
  }

  lemma TailsListAlike(events: seq<Event>, ordered: seq<Event>, limit: int)
    requires NewestFirst(ordered) && multiset(ordered) == multiset(events)
    requires limit >= 1 && TailIsNewest(events, AtMost(limit, |events|))
    ensures SliceFromMinus(events, limit) == Reversed(Limited(ordered, limit))
  {
    OrderOfTail(ordered, events, AtMost(limit, |events|));
  }

  /** The query that keeps ties in order of insertion then lists an older event after a newer one. */
  lemma TiedTailsListApart(events: seq<Event>, limit: int)
    requires DistinctIds(events) && limit >= 1 && !TailIsNewest(events, AtMost(limit, |events|))
    ensures SliceFromMinus(events, limit) != Reversed(Limited(StableSort(events), limit))
  {
    var n, k := |events|, AtMost(limit, |events|);
    var i, j :| 0 <= i < j < n && n - k <= j && !(events[i].createdAt < events[j].createdAt);
    StableSortSorts(events);
    var p, q := StableSortIsStable(events, i, j);
    hide StableSort, NewestFirst, TailIsNewest, DistinctIds, SliceFromMinus, Limited;
    if SliceFromMinus(events, limit) == Reversed(Limited(StableSort(events), limit)) {
      MisplacedRow(events, StableSort(events), limit, i, j, p, q);
    }
  }

  lemma MisplacedRow(events: seq<Event>, sorted: seq<Event>, limit: int, i: nat, j: nat, p: nat, q: nat)
    requires DistinctIds(events) && multiset(sorted) == multiset(events) && limit >= 1
    requires i < j < |events| && |events| - AtMost(limit, |events|) <= j
    requires p < q < |sorted| && sorted[p] == events[i] && sorted[q] == events[j]
    ensures SliceFromMinus(events, limit) != Reversed(Limited(sorted, limit))
  {
    MembersOfPermutation(sorted, events);
    hide DistinctIds, SliceFromMinus, Limited;
    if SliceFromMinus(events, limit) == Reversed(Limited(sorted, limit)) {
      ListedBackwards(events, sorted, limit);
      var n := |events|;
      assert p < AtMost(limit, n) ==> sorted[p] == events[n - 1 - p];
      NoEventTwice(events);
      NoRowTwice(events, sorted, q, n - 1 - j);
    }
  }

  lemma NoEventTwice(events: seq<Event>)
    requires DistinctIds(events)
    ensures forall i, j | 0 <= i < |events| && 0 <= j < |events| && events[i] == events[j] :: i == j
  {
  }

  lemma ListedBackwards(events: seq<Event>, sorted: seq<Event>, limit: int)
    requires limit >= 1 && |sorted| == |events| && SliceFromMinus(events, limit) == Reversed(Limited(sorted, limit))
    ensures forall m | 0 <= m < AtMost(limit, |events|) :: sorted[m] == events[|events| - 1 - m]
  {
    var k := AtMost(limit, |events|);
    forall m | 0 <= m < k
      ensures sorted[m] == events[|events| - 1 - m]
    {
      assert Reversed(Limited(sorted, limit))[k - 1 - m] == sorted[m];
      assert SliceFromMinus(events, limit)[k - 1 - m] == events[|events| - 1 - m];
    }
  }

  /** One query order at a time. */
  lemma ListsInOrder(appended: seq<Event>, limit: int, order: seq<Event> -> seq<Event>)
    requires IsNewestFirstQuery(order) && DistinctIds(appended) && PrunesTheOldest(appended)
    ensures appended != [] && limit < 1 ==> JsonList(appended, limit) != SqliteList(appended, limit, order)
    ensures appended == [] || (limit >= 1 && TailListed(appended, limit)) ==>
              JsonList(appended, limit) == SqliteList(appended, limit, order)
  {
    var events := KeepLast(appended);
    KeptIsDistinct(appended);
    ListsOf(appended, limit, order);
    QueryOf(events, order);
    hide JsonList, SqliteList, KeepLast, IsNewestFirstQuery, PrunesTheOldest, DistinctIds, TailIsNewest, NewestFirst,
      SliceFromMinus, Limited;
    if appended == [] {
      EmptyListsAlike(limit, order(events));
    } else if limit < 1 {
      UnlimitedListsDiffer(events, order(events), limit);
    } else if TailListed(appended, limit) {
      TailsListAlike(events, order(events), limit);
    }
  }

  lemma TiedListsApart(appended: seq<Event>, limit: int)
    requires DistinctIds(appended) && PrunesTheOldest(appended) && limit >= 1 && !TailListed(appended, limit)
    ensures JsonList(appended, limit) != SqliteList(appended, limit, StableSort)
  {
    StableSortIsQuery();
    KeptIsDistinct(appended);
    ListsOf(appended, limit, StableSort);
    TiedTailsListApart(KeepLast(appended), limit);
  }

  /** Each event that a listing of the array shows is newer than all the array has before it. */
  predicate TailListed(appended: seq<Event>, limit: nat) {
    TailIsNewest(KeepLast(appended), AtMost(limit, |KeepLast(appended)|))
  }

  /**
   * `listEvents(limit)`, exactly. It is the same for both stores, in whatever order ties come, if and only
   * if there are no events, or the limit is at least 1 and each event it lists is newer than all before it.
   * A limit below 1 always parts them: 0 lists everything from the array and nothing from the table, and a
   * negative one skips from the front of the array and is no limit for the table.
   */
  lemma ListsAgreeExactly(appended: seq<Event>, limit: int)
    requires DistinctIds(appended) && PrunesTheOldest(appended)
    ensures (forall order :: IsNewestFirstQuery(order) ==> JsonList(appended, limit) == SqliteList(appended, limit, order))
       <==> appended == [] || (limit >= 1 && TailListed(appended, limit))
    ensures appended != [] && limit < 1 ==>
              forall order :: IsNewestFirstQuery(order) ==> JsonList(appended, limit) != SqliteList(appended, limit, order)
  {
    hide IsNewestFirstQuery, SqliteList, JsonList, PrunesTheOldest, DistinctIds, TailListed, StableSort;
    StableSortIsQuery();
    forall order | IsNewestFirstQuery(order)
      ensures appended != [] && limit < 1 ==> JsonList(appended, limit) != SqliteList(appended, limit, order)
      ensures appended == [] || (limit >= 1 && TailListed(appended, limit)) ==>
                JsonList(appended, limit) == SqliteList(appended, limit, order)
    {
      ListsInOrder(appended, limit, order);
    }
    if limit >= 1 && !TailListed(appended, limit) {
      TiedListsApart(appended, limit);
    }
  }

  lemma EmptyListsAlike(limit: int, ordered: seq<Event>)
    requires ordered == []
    ensures SliceFromMinus([], limit) == Reversed(Limited(ordered, limit))
  {
  }
}
