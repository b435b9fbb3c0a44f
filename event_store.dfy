/** The `logs` table: an append-only sequence of rows
    `(timestamp, username, event_type, details)`, written by `log_event`
    and read by the viewer's `ORDER BY timestamp DESC LIMIT 100` query. */
module EventStore {

  /** Wall-clock instants, ordered; the table stores them as ISO-8601 text. */
  type Timestamp = int

  /** One row of the `logs` table. */
  datatype Event = Event(timestamp: Timestamp, user: string, eventType: string, details: string)

  /** The two arguments a detector passes to `log_event`. */
  datatype Alert = Alert(eventType: string, details: string)

  /** The rows that logging `alerts` in order at instant `at` as `user` appends. */
  function Stamp(alerts: seq<Alert>, at: Timestamp, user: string): (rows: seq<Event>)
    ensures |rows| == |alerts|
    ensures forall i :: 0 <= i < |alerts| ==>
              rows[i] == Event(at, user, alerts[i].eventType, alerts[i].details)
    decreases |alerts|
  {
    if |alerts| == 0 then []
    else
      var last := alerts[|alerts| - 1];
      Stamp(alerts[..|alerts| - 1], at, user) + [Event(at, user, last.eventType, last.details)]
  }

  lemma StampSnoc(alerts: seq<Alert>, a: Alert, at: Timestamp, user: string)
    ensures Stamp(alerts + [a], at, user) == Stamp(alerts, at, user) + [Event(at, user, a.eventType, a.details)]
  {
    assert (alerts + [a])[..|alerts|] == alerts;
  }

  /** Logging one more alert after a batch extends the log by that row. */
  lemma LogOneMore(log: seq<Event>, alerts: seq<Alert>, a: Alert, at: Timestamp, user: string)
    ensures log + Stamp(alerts, at, user) + [Event(at, user, a.eventType, a.details)]
            == log + Stamp(alerts + [a], at, user)
  {
    StampSnoc(alerts, a, at, user);
  }

  /** Logging two batches one after the other appends the rows of their concatenation. */
  lemma {:induction false} StampConcat(a: seq<Alert>, b: seq<Alert>, at: Timestamp, user: string)
    ensures Stamp(a + b, at, user) == Stamp(a, at, user) + Stamp(b, at, user)
    decreases |b|
  {
    if |b| > 0 {
      var front := b[..|b| - 1];
      var last := b[|b| - 1];
      StampConcat(a, front, at, user);
      assert a + b == (a + front) + [last];
      assert b == front + [last];
      StampSnoc(a + front, last, at, user);
      StampSnoc(front, last, at, user);
    } else {
      assert a + b == a;
    }
  }

  /** Logging a further batch after `done` extends the log by its rows. */
  lemma LogBatch(log: seq<Event>, done: seq<Alert>, next: seq<Alert>, at: Timestamp, user: string)
    ensures log + Stamp(done, at, user) + Stamp(next, at, user) == log + Stamp(done + next, at, user)
  {
    StampConcat(done, next, at, user);
  }

  /** The durable log. Rows are only ever added at the end. */
  class EventLog {
    var rows: seq<Event>

    /** A freshly created, empty table. */
    constructor ()
      ensures rows == []
    {
      rows := [];
    }

    /** `log_event`: insert one row with the given fields, stamped with the
        current instant and user. */
    method LogEvent(at: Timestamp, user: string, eventType: string, details: string)
      modifies this
      ensures rows == old(rows) + [Event(at, user, eventType, details)]
    {
      rows := rows + [Event(at, user, eventType, details)];
    }
  }

  /** Most recent first. */
  predicate SortedDesc(s: seq<Event>)
  {
    forall i, j :: 0 <= i < j < |s| ==> s[i].timestamp >= s[j].timestamp
  }

  /** Every row of `s` is no later than `t`. */
  predicate NoLaterThan(s: seq<Event>, t: Timestamp)
  {
    forall x :: x in s ==> x.timestamp <= t
  }

  function InsertDesc(e: Event, s: seq<Event>): (r: seq<Event>)
    requires SortedDesc(s)
    ensures SortedDesc(r)
    ensures multiset(r) == multiset(s) + multiset{e}
    ensures forall x :: x in r ==> x == e || x in s
    decreases |s|
  {
    if |s| == 0 || e.timestamp >= s[0].timestamp then
      [e] + s
    else
      var tail := InsertDesc(e, s[1..]);
      assert s == [s[0]] + s[1..];
      assert NoLaterThan(tail, s[0].timestamp);
      [s[0]] + tail
  }

  function SortDesc(s: seq<Event>): (r: seq<Event>)
    ensures SortedDesc(r)
    ensures multiset(r) == multiset(s)
    decreases |s|
  {
    if |s| == 0 then []
    else
      assert s == s[..|s| - 1] + [s[|s| - 1]];
      InsertDesc(s[|s| - 1], SortDesc(s[..|s| - 1]))
  }

  /** Cutting a latest-first sequence at `k`: what is cut off is no later
      than anything kept. */
  lemma SortedCut(s: seq<Event>, k: nat)
    requires SortedDesc(s) && k <= |s|
    ensures multiset(s[..k]) <= multiset(s)
    ensures forall e, x :: e in multiset(s) - multiset(s[..k]) && x in s[..k] ==> e.timestamp <= x.timestamp
  {
    assert s == s[..k] + s[k..];
    assert multiset(s) == multiset(s[..k]) + multiset(s[k..]);
    assert multiset(s) - multiset(s[..k]) == multiset(s[k..]);
    forall e, x | e in multiset(s[k..]) && x in s[..k]
      ensures e.timestamp <= x.timestamp
    {
      var i :| k <= i < |s| && s[i] == e;
      var j :| 0 <= j < k && s[j] == x;
    }
  }

  /** The viewer shows at most this many rows. */
  const RecentLimit: nat := 100

  function Min(a: nat, b: nat): nat
  {
    if a <= b then a else b
  }

  /** `SELECT * FROM logs ORDER BY timestamp DESC LIMIT 100`: the
      `min(100, n)` latest rows, latest first; every row left out is no
      later than every row returned. Rows with equal timestamps may come
      in any order. */
  function Recent(rows: seq<Event>): (r: seq<Event>)
    ensures |r| == Min(RecentLimit, |rows|)
    ensures SortedDesc(r)
    ensures multiset(r) <= multiset(rows)
    ensures forall e, x :: e in multiset(rows) - multiset(r) && x in r ==> e.timestamp <= x.timestamp
  {
    var sorted := SortDesc(rows);
    var k := Min(RecentLimit, |rows|);
    assert |sorted| == |multiset(sorted)| == |multiset(rows)| == |rows|;
    SortedCut(sorted, k);
    sorted[..k]
  }

  /** With no more than 100 rows stored, the query returns every one of them. */
  lemma RecentAll(rows: seq<Event>)
    requires |rows| <= RecentLimit
    ensures multiset(Recent(rows)) == multiset(rows)
  {
    var r := Recent(rows);
    var d := multiset(rows) - multiset(r);
    assert multiset(rows) == multiset(r) + d;
    assert |multiset(rows)| == |multiset(r)| + |d|;
    assert |d| == 0;
  }

  /** The first row returned is a latest row of the whole table. */
  lemma RecentHeadIsLatest(rows: seq<Event>)
    requires |rows| > 0
    ensures forall y :: y in rows ==> y.timestamp <= Recent(rows)[0].timestamp
  {
    var r := Recent(rows);
    assert |r| > 0;
    var first := r[0];
    assert first in r;
    forall y | y in rows
      ensures y.timestamp <= first.timestamp
    {
      assert y in multiset(rows);
      if y in r {
        var k :| 0 <= k < |r| && r[k] == y;
      } else {
        assert y !in multiset(r);
        assert y in multiset(rows) - multiset(r);
      }
    }
  }

  /** A row appended later than everything already stored is the first row
      the query returns. */
  lemma LatestFirst(rows: seq<Event>, e: Event)
    requires forall x :: x in rows ==> x.timestamp < e.timestamp
    ensures Recent(rows + [e])[0] == e
  {
    var all := rows + [e];
    var r := Recent(all);
    RecentHeadIsLatest(all);
    var first := r[0];
    assert first in multiset(all);
    assert first.timestamp >= e.timestamp;
    assert first !in rows;
  }
}
