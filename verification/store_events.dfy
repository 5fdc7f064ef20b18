/** The event logs of the two stores: an array cut to its last 200 entries, and a table pruned by a query. */
module StoreEvents {
  import opened Common
  import opened Sequences

  const MAX_EVENTS := 200

  /** An event; `createdAt` orders like the ISO timestamp it stands for. */
  datatype Event = Event(id: string, createdAt: int, content: string)

  /** `slice(-limit)`: negative starts count from the end, but `-0` is 0 and starts at the beginning. */
  function SliceFromMinus(events: seq<Event>, limit: int): seq<Event> {
    var start := -limit;
    var from := if start < 0 then (if |events| + start < 0 then 0 else |events| + start)
                else if start > |events| then |events| else start;
    events[from..]
  }

  function KeepLast(events: seq<Event>): seq<Event> {
    if |events| > MAX_EVENTS then events[|events| - MAX_EVENTS..] else events
  }

  class JsonStore {
    var events: seq<Event>

    constructor ()
      ensures events == []
    {
      events := [];
    }

    method AppendEvent(event: Event)
      modifies this
      ensures events == KeepLast(old(events) + [event])
    {
      events := events + [event];
      if |events| > MAX_EVENTS {
        events := events[|events| - MAX_EVENTS..];
      }
    }

    method ListEvents(limit: int) returns (r: seq<Event>)
      ensures r == SliceFromMinus(events, limit)
    {
      var start := -limit;
      if start < 0 {
        start := if |events| + start < 0 then 0 else |events| + start;
      } else if start > |events| {
        start := |events|;
      }
      r := events[start..];
    }
  }

  // ----- The table -----

  /** Newest first; rows with equal timestamps come in any order. */
  predicate NewestFirst(rows: seq<Event>) {
    forall i, j | 0 <= i < j < |rows| :: rows[i].createdAt >= rows[j].createdAt
  }

  /** What `ORDER BY created_at DESC` may do with the rows of a table. */
  ghost predicate IsNewestFirstQuery(order: seq<Event> -> seq<Event>) {
    forall rows :: multiset(order(rows)) == multiset(rows) && NewestFirst(order(rows))
  }

  /** `DELETE ... WHERE id = ?` for each of `ids`. */
  function Without(rows: seq<Event>, ids: set<string>): seq<Event> {
    if rows == [] then []
    else
      var n := |rows| - 1;
      Without(rows[..n], ids) + (if rows[n].id in ids then [] else [rows[n]])
  }

  function Ids(events: seq<Event>): set<string> {
    set e <- events :: e.id
  }

  /** `INSERT OR REPLACE` on the primary key. */
  function Upsert(rows: seq<Event>, event: Event): seq<Event> {
    Without(rows, {event.id}) + [event]
  }

  /** `LIMIT -1 OFFSET 200`: everything past the newest 200. */
  function Excess(ordered: seq<Event>): seq<Event> {
    if |ordered| > MAX_EVENTS then ordered[MAX_EVENTS..] else []
  }

  function TableAfter(rows: seq<Event>, event: Event, order: seq<Event> -> seq<Event>): seq<Event> {
    var inserted := Upsert(rows, event);
    Without(inserted, Ids(Excess(order(inserted))))
  }

  /** `LIMIT n`, where a negative `n` means no limit. */
  function Limited(ordered: seq<Event>, limit: int): seq<Event> {
    if limit < 0 || limit >= |ordered| then ordered else ordered[..limit]
  }

  function Reversed(s: seq<Event>): (r: seq<Event>)
    ensures |r| == |s| && forall i | 0 <= i < |s| :: r[i] == s[|s| - 1 - i]
  {
    seq(|s|, i requires 0 <= i < |s| => s[|s| - 1 - i])
  }

  class SqliteStore {
    var rows: seq<Event>
    const order: seq<Event> -> seq<Event>

    constructor (order: seq<Event> -> seq<Event>)
      ensures rows == [] && this.order == order
    {
      rows := [];
      this.order := order;
    }

    method AppendEvent(event: Event)
      modifies this
      ensures rows == TableAfter(old(rows), event, order)
    {
      rows := Upsert(rows, event);
      var excess := Excess(order(rows));
      if |excess| > 0 {
        rows := Without(rows, Ids(excess));
      } else {
        assert excess == [] && Ids(excess) == {};
        WithoutOthers(rows, {});
      }
    }

    method ListEvents(limit: int) returns (r: seq<Event>)
      ensures r == Reversed(Limited(order(rows), limit))
    {
      var listed := Limited(order(rows), limit);
      r := Reversed(listed);
    }
  }

  lemma {:induction false} WithoutOthers(rows: seq<Event>, ids: set<string>)
    requires forall i | 0 <= i < |rows| :: rows[i].id !in ids
    ensures Without(rows, ids) == rows
  {
    if rows != [] {
      var n := |rows| - 1;
      WithoutOthers(rows[..n], ids);
      assert rows == rows[..n] + [rows[n]];
    }
  }
}
