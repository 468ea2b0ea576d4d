/**
 The commissioning journal: one append-only table of hash-chained records, the
 validator that reads it back and the writer that extends it.

 Canonical encoding followed by SHA-256 is one function of a record; its encoded size is a
 second function.  Where a theorem needs it, no two different records of the tables at hand
 share a digest.  Instants are integers.
 */
module Journal {
  import opened Prelude

  const MAX_RECORD_BYTES := 2_000_000
  const MAX_ENTITY := 256
  const SINGLETON := "singleton"

  /** `Foreign` is any name outside the known kinds. */
  datatype Kind =
    | Activation | Custody | CustodyPoll | Attempt | Response | Cycle | Seal
    | Foreign(name: string)

  datatype Envelope<+P> = Envelope(
    sequence: int,
    kind: Kind,
    entity: string,
    previous: Option<string>,
    supersedes: Option<string>,
    recordedAt: int,
    payload: P)

  /** Stored bytes either decode to a canonical envelope or do not. */
  datatype Stored<+P> = Canonical(envelope: Envelope<P>) | Malformed

  datatype Row<+P> = Row(sequence: int, kind: Kind, entity: string, sha: string, raw: Stored<P>)

  datatype Record<+P> = Record(envelope: Envelope<P>, sha: string)

  datatype Codec<!P> = Codec(digest: Envelope<P> -> string, size: Envelope<P> -> nat)

  /** What a caller asks the journal to record. */
  datatype Event<+P> = Event(kind: Kind, entity: string, payload: P, at: int)

  /** No record of one table shares its digest with a different record of the other. */
  predicate CollisionFree<P(==)>(c: Codec<P>, a: seq<Row<P>>, b: seq<Row<P>>) {
    forall i, j :: 0 <= i < |a| && 0 <= j < |b| ==> NoCollision(c, a[i], b[j])
  }

  predicate NoCollision<P(==)>(c: Codec<P>, x: Row<P>, y: Row<P>) {
    x.raw.Canonical? && y.raw.Canonical? && c.digest(x.raw.envelope) == c.digest(y.raw.envelope) ==>
      x.raw.envelope == y.raw.envelope
  }

  // ---- what a table says about its own past ----------------------------------------

  function HeadDigest<P>(rows: seq<Row<P>>): Option<string> {
    if rows == [] then None else Some(Last(rows).sha)
  }

  /** Digest of the newest row with this kind and entity. */
  function Latest<P>(rows: seq<Row<P>>, kind: Kind, entity: string): Option<string> {
    if rows == [] then None
    else if (Last(rows).kind, Last(rows).entity) == (kind, entity) then Some(Last(rows).sha)
    else Latest(Init(rows), kind, entity)
  }

  /** The oldest row with this kind and entity. */
  function First<P>(rows: seq<Row<P>>, kind: Kind, entity: string): Option<Row<P>> {
    if rows == [] then None
    else if (rows[0].kind, rows[0].entity) == (kind, entity) then Some(rows[0])
    else First(rows[1..], kind, entity)
  }

  predicate IsAttempt<P>(rows: seq<Row<P>>, sha: string) {
    exists i :: 0 <= i < |rows| && rows[i].kind == Attempt && rows[i].sha == sha
  }

  // ---- the validator ----------------------------------------------------------------

  /** A row the validator accepts directly after `prior`. */
  predicate Fits<P>(c: Codec<P>, prior: seq<Row<P>>, row: Row<P>) {
    && row.raw.Canonical?
    && var e := row.raw.envelope;
    && c.size(e) <= MAX_RECORD_BYTES
    && c.digest(e) == row.sha
    && row.sequence == |prior| + 1
    && e.sequence == row.sequence
    && e.kind == row.kind
    && e.entity == row.entity
    && !row.kind.Foreign?
    && 0 < |row.entity| <= MAX_ENTITY
    && e.previous == HeadDigest(prior)
    && e.supersedes == Latest(prior, row.kind, row.entity)
    && (prior != [] ==> Last(prior).raw.Canonical? && Last(prior).raw.envelope.recordedAt <= e.recordedAt)
    && (row.kind == Activation <==> row.sequence == 1)
    && (row.kind == Activation || row.kind == Seal ==> row.entity == SINGLETON)
    && (row.kind == Response ==> IsAttempt(prior, row.entity) && Latest(prior, Response, row.entity) == None)
    && (prior != [] ==> Last(prior).kind != Seal)
  }

  predicate Chained<P>(c: Codec<P>, rows: seq<Row<P>>) {
    rows == [] || (Chained(c, Init(rows)) && Fits(c, Init(rows), Last(rows)))
  }

  predicate Accepted<P>(c: Codec<P>, rows: seq<Row<P>>) {
    rows != [] && Chained(c, rows)
  }

  lemma {:induction false} ChainedAt<P>(c: Codec<P>, rows: seq<Row<P>>, i: nat)
    requires Chained(c, rows) && i < |rows|
    ensures Chained(c, rows[..i]) && Fits(c, rows[..i], rows[i])
  {
    if i == |rows| - 1 {
      assert rows[..i] == Init(rows);
    } else {
      ChainedAt(c, Init(rows), i);
      assert Init(rows)[..i] == rows[..i];
    }
  }

  lemma {:induction false} ChainedCanonical<P>(c: Codec<P>, rows: seq<Row<P>>)
    requires Chained(c, rows)
    ensures forall i :: 0 <= i < |rows| ==> rows[i].raw.Canonical?
  {
    forall i | 0 <= i < |rows| ensures rows[i].raw.Canonical? {
      ChainedAt(c, rows, i);
    }
  }

  // ---- reading the table in one pass ---------------------------------------------------

  /** The validator's working state describes exactly the rows read so far. */
  ghost predicate Tracks<P(!new)>(
    rows: seq<Row<P>>, records: seq<Record<P>>, priorEntities: map<(Kind, string), string>, attempts: set<string>)
  {
    && Mirrors(rows, records)
    && (forall k: Kind, e: string ::
          Latest(rows, k, e) == (if (k, e) in priorEntities then Some(priorEntities[(k, e)]) else None))
    && (forall s: string :: s in attempts <==> IsAttempt(rows, s))
  }

  ghost predicate Mirrors<P(!new)>(rows: seq<Row<P>>, records: seq<Record<P>>) {
    && |records| == |rows|
    && forall j :: 0 <= j < |rows| ==>
         rows[j].raw == Canonical(records[j].envelope) && rows[j].sha == records[j].sha
         && rows[j].kind == records[j].envelope.kind
  }

  /** The validator's test of one row against its working state. */
  predicate Passes<P>(
    c: Codec<P>, records: seq<Record<P>>, priorEntities: map<(Kind, string), string>, attempts: set<string>,
    row: Row<P>)
  {
    && row.raw.Canonical?
    && var e := row.raw.envelope;
    && var key := (row.kind, row.entity);
    && c.size(e) <= MAX_RECORD_BYTES
    && c.digest(e) == row.sha
    && row.sequence == |records| + 1
    && e.sequence == row.sequence
    && e.kind == row.kind
    && e.entity == row.entity
    && !row.kind.Foreign?
    && 0 < |row.entity| <= MAX_ENTITY
    && e.previous == (if records != [] then Some(Last(records).sha) else None)
    && e.supersedes == (if key in priorEntities then Some(priorEntities[key]) else None)
    && (records == [] || Last(records).envelope.recordedAt <= e.recordedAt)
    && (row.kind == Activation <==> row.sequence == 1)
    && (row.kind == Activation || row.kind == Seal ==> row.entity == SINGLETON)
    && (row.kind == Response ==> row.entity in attempts && key !in priorEntities)
    && (records == [] || Last(records).envelope.kind != Seal)
  }

  lemma {:induction false} PassesIsFits<P(!new)>(
    c: Codec<P>, rows: seq<Row<P>>, records: seq<Record<P>>, priorEntities: map<(Kind, string), string>,
    attempts: set<string>, row: Row<P>)
    requires Tracks(rows, records, priorEntities, attempts)
    ensures Passes(c, records, priorEntities, attempts, row) <==> Fits(c, rows, row)
  {
    assert Latest(rows, row.kind, row.entity) ==
      (if (row.kind, row.entity) in priorEntities then Some(priorEntities[(row.kind, row.entity)]) else None);
    assert row.entity in attempts <==> IsAttempt(rows, row.entity);
  }

  lemma {:induction false} TracksNext<P(!new)>(
    rows: seq<Row<P>>, records: seq<Record<P>>, priorEntities: map<(Kind, string), string>, attempts: set<string>,
    row: Row<P>)
    requires Tracks(rows, records, priorEntities, attempts)
    requires row.raw.Canonical? && row.raw.envelope.kind == row.kind
    ensures Tracks(
      rows + [row], records + [Record(row.raw.envelope, row.sha)], priorEntities[(row.kind, row.entity) := row.sha],
      if row.kind == Attempt then attempts + {row.sha} else attempts)
  {
    assert Init(rows + [row]) == rows;
    AttemptsAfter(rows, row);
  }

  /** A row that passes extends the chain read so far; a row that does not breaks the whole table's. */
  lemma {:induction false} LoadNext<P(!new)>(
    c: Codec<P>, rows: seq<Row<P>>, i: nat, records: seq<Record<P>>, priorEntities: map<(Kind, string), string>,
    attempts: set<string>)
    requires i < |rows| && Chained(c, rows[..i]) && Tracks(rows[..i], records, priorEntities, attempts)
    ensures var row := rows[i];
      if Passes(c, records, priorEntities, attempts, row) then
        Chained(c, rows[..i + 1])
        && Tracks(rows[..i + 1], records + [Record(row.raw.envelope, row.sha)],
                  priorEntities[(row.kind, row.entity) := row.sha],
                  if row.kind == Attempt then attempts + {row.sha} else attempts)
      else !Chained(c, rows)
  {
    var row := rows[i];
    PassesIsFits(c, rows[..i], records, priorEntities, attempts, row);
    if Passes(c, records, priorEntities, attempts, row) {
      TracksNext(rows[..i], records, priorEntities, attempts, row);
      assert rows[..i + 1] == rows[..i] + [row] && Init(rows[..i + 1]) == rows[..i];
    } else if Chained(c, rows) {
      ChainedAt(c, rows, i);
      assert false;
    }
  }

  /**
   Reads the whole table once, carrying the newest digest of each (kind, entity) and
   the digests of all attempts.
   */
  method Load<P(==, !new)>(c: Codec<P>, rows: seq<Row<P>>) returns (r: Result<seq<Record<P>>>)
    ensures r.Ok? <==> Accepted(c, rows)
    ensures r.Ok? ==> Mirrors(rows, r.value)
  {
    var records: seq<Record<P>> := [];
    var priorEntities: map<(Kind, string), string> := map[];
    var attempts: set<string> := {};
    var i := 0;
    while i < |rows|
      invariant 0 <= i <= |rows|
      invariant Chained(c, rows[..i])
      invariant Tracks(rows[..i], records, priorEntities, attempts)
    {
      var row := rows[i];
      LoadNext(c, rows, i, records, priorEntities, attempts);
      if !Passes(c, records, priorEntities, attempts, row) {
        return Rejected("commissioning record invariant failed");
      }
      records := records + [Record(row.raw.envelope, row.sha)];
      priorEntities := priorEntities[(row.kind, row.entity) := row.sha];
      if row.kind == Attempt {
        attempts := attempts + {row.sha};
      }
      i := i + 1;
    }
    assert rows[..|rows|] == rows;
    if records == [] {
      return Rejected("commissioning activation missing");
    }
    return Ok(records);
  }

  lemma {:induction false} AttemptsAfter<P>(rows: seq<Row<P>>, row: Row<P>)
    ensures forall s :: IsAttempt(rows + [row], s) <==> IsAttempt(rows, s) || (row.kind == Attempt && row.sha == s)
  {
    var next := rows + [row];
    forall s ensures IsAttempt(next, s) <==> IsAttempt(rows, s) || (row.kind == Attempt && row.sha == s) {
      if IsAttempt(rows, s) {
        var i :| 0 <= i < |rows| && rows[i].kind == Attempt && rows[i].sha == s;
        assert next[i] == rows[i];
      }
      if row.kind == Attempt && row.sha == s {
        assert next[|rows|] == row;
      }
    }
  }

  // ---- the writer -------------------------------------------------------------------

  /** The conditions `_insert` checks before it writes. */
  predicate Insertable<P>(c: Codec<P>, rows: seq<Row<P>>, ev: Event<P>) {
    && !ev.kind.Foreign?
    && 0 < |ev.entity| <= MAX_ENTITY
    && (rows != [] <==> ev.kind != Activation)
    && (ev.kind == Activation || ev.kind == Seal ==> ev.entity == SINGLETON)
    && (ev.kind == Response ==> IsAttempt(rows, ev.entity))
    && (rows != [] ==>
          && Last(rows).kind != Seal
          && Last(rows).raw.Canonical?
          && Last(rows).raw.envelope.recordedAt <= ev.at)
    && c.size(NewEnvelope(rows, ev)) <= MAX_RECORD_BYTES
  }

  function NewEnvelope<P>(rows: seq<Row<P>>, ev: Event<P>): Envelope<P> {
    Envelope(|rows| + 1, ev.kind, ev.entity, HeadDigest(rows), Latest(rows, ev.kind, ev.entity), ev.at, ev.payload)
  }

  function NewRow<P>(c: Codec<P>, rows: seq<Row<P>>, ev: Event<P>): Row<P> {
    var e := NewEnvelope(rows, ev);
    Row(e.sequence, ev.kind, ev.entity, c.digest(e), Canonical(e))
  }

  class Store<P(==, !new)> {
    const codec: Codec<P>
    var rows: seq<Row<P>>

    /** Exclusive creation: the new table holds exactly the activation record. */
    constructor (c: Codec<P>, manifest: P, now: int)
      requires Insertable(c, [], Event(Activation, SINGLETON, manifest, now))
      ensures codec == c
      ensures rows == [NewRow(c, [], Event(Activation, SINGLETON, manifest, now))]
      ensures Accepted(codec, rows)
    {
      var ev := Event(Activation, SINGLETON, manifest, now);
      InsertKeepsChain(c, [], ev);
      codec := c;
      rows := [NewRow(c, [], ev)];
      assert [] + [NewRow(c, [], ev)] == [NewRow(c, [], ev)];
    }

    /** Every append re-reads the table, then answers a repeated response or writes one row. */
    method Append(ev: Event<P>) returns (r: Result<Row<P>>)
      modifies this`rows
      ensures !Accepted(codec, old(rows)) ==> r.Rejected? && rows == old(rows)
      ensures Accepted(codec, old(rows)) ==>
        var s := Step(codec, old(rows), ev);
        && (r.Ok? <==> s.Ok?)
        && rows == (if s.Ok? then s.value else old(rows))
      ensures r.Ok? ==>
        && r.value in rows
        && r.value.kind == ev.kind && r.value.entity == ev.entity
        && r.value.raw.Canonical? && r.value.raw.envelope.payload == ev.payload
      ensures Accepted(codec, old(rows)) ==> Accepted(codec, rows)
    {
      var loaded := Load(codec, rows);
      if loaded.Rejected? {
        return Rejected(loaded.reason);
      }
      ChainedCanonical(codec, rows);
      if ev.kind == Response {
        var existing := First(rows, ev.kind, ev.entity);
        if existing.Some? {
          FirstIsARow(rows, ev.kind, ev.entity);
          if existing.value.raw.envelope.payload != ev.payload {
            return Rejected("conflicting response for committed attempt");
          }
          return Ok(existing.value);
        }
      }
      if !Insertable(codec, rows, ev) {
        return Rejected("invalid commissioning event");
      }
      if ev.kind == Response {
        FirstNoneIsLatestNone(rows, ev.kind, ev.entity);
      }
      InsertKeepsChain(codec, rows, ev);
      r := Ok(NewRow(codec, rows, ev));
      rows := rows + [r.value];
    }
  }

  lemma {:induction false} FirstIsARow<P>(rows: seq<Row<P>>, kind: Kind, entity: string)
    ensures First(rows, kind, entity).Some? ==>
      var row := First(rows, kind, entity).value; row in rows && row.kind == kind && row.entity == entity
  {
    if rows != [] && (rows[0].kind, rows[0].entity) != (kind, entity) {
      FirstIsARow(rows[1..], kind, entity);
    }
  }

  lemma {:induction false} FirstNoneIsLatestNone<P>(rows: seq<Row<P>>, kind: Kind, entity: string)
    ensures First(rows, kind, entity) == None <==>
      forall i :: 0 <= i < |rows| ==> (rows[i].kind, rows[i].entity) != (kind, entity)
    ensures First(rows, kind, entity) == None <==> Latest(rows, kind, entity) == None
  {
    FirstNone(rows, kind, entity);
    LatestNone(rows, kind, entity);
  }

  lemma {:induction false} FirstNone<P>(rows: seq<Row<P>>, kind: Kind, entity: string)
    ensures First(rows, kind, entity) == None <==>
      forall i :: 0 <= i < |rows| ==> (rows[i].kind, rows[i].entity) != (kind, entity)
  {
    if rows != [] && (rows[0].kind, rows[0].entity) != (kind, entity) {
      FirstNone(rows[1..], kind, entity);
      assert forall i :: 0 < i < |rows| ==> rows[i] == rows[1..][i - 1];
    }
  }

  lemma {:induction false} LatestNone<P>(rows: seq<Row<P>>, kind: Kind, entity: string)
    ensures Latest(rows, kind, entity) == None <==>
      forall i :: 0 <= i < |rows| ==> (rows[i].kind, rows[i].entity) != (kind, entity)
  {
    if rows != [] && (Last(rows).kind, Last(rows).entity) != (kind, entity) {
      LatestNone(Init(rows), kind, entity);
      assert forall i :: 0 <= i < |rows| - 1 ==> rows[i] == Init(rows)[i];
    }
  }

  /** What the writer adds, the validator accepts. */
  lemma {:induction false} InsertKeepsChain<P>(c: Codec<P>, rows: seq<Row<P>>, ev: Event<P>)
    requires Chained(c, rows) && Insertable(c, rows, ev)
    requires ev.kind == Response ==> Latest(rows, Response, ev.entity) == None
    ensures Accepted(c, rows + [NewRow(c, rows, ev)])
  {
    var next := rows + [NewRow(c, rows, ev)];
    assert Init(next) == rows && Last(next) == NewRow(c, rows, ev);
  }

  // ---- writer and validator agree -----------------------------------------------------

  function EventOf<P>(row: Row<P>): Event<P>
    requires row.raw.Canonical?
  {
    Event(row.kind, row.entity, row.raw.envelope.payload, row.raw.envelope.recordedAt)
  }

  /** The table after one writer call, as `Store.Append` leaves it. */
  function Step<P(==)>(c: Codec<P>, rows: seq<Row<P>>, ev: Event<P>): Result<seq<Row<P>>> {
    var existing := First(rows, ev.kind, ev.entity);
    if ev.kind == Response && existing.Some? then
      if existing.value.raw.Canonical? && existing.value.raw.envelope.payload == ev.payload
      then Ok(rows) else Rejected("conflicting response for committed attempt")
    else if Insertable(c, rows, ev) then Ok(rows + [NewRow(c, rows, ev)])
    else Rejected("invalid commissioning event")
  }

  /** A run of writer calls, the first of which is the creation. */
  function Written<P(==)>(c: Codec<P>, events: seq<Event<P>>): Result<seq<Row<P>>> {
    if events == [] then Ok([])
    else
      match Written(c, Init(events))
      case Ok(rows) => Step(c, rows, Last(events))
      case Rejected(why) => Rejected(why)
  }

  function EventsOf<P>(rows: seq<Row<P>>): (events: seq<Event<P>>)
    requires forall i :: 0 <= i < |rows| ==> rows[i].raw.Canonical?
  {
    seq(|rows|, i requires 0 <= i < |rows| => EventOf(rows[i]))
  }

  lemma {:induction false} WrittenIsChained<P>(c: Codec<P>, events: seq<Event<P>>)
    requires Written(c, events).Ok?
    ensures Chained(c, Written(c, events).value)
  {
    if events != [] {
      WrittenIsChained(c, Init(events));
      var rows, ev := Written(c, Init(events)).value, Last(events);
      if !(ev.kind == Response && First(rows, ev.kind, ev.entity).Some?) {
        FirstNoneIsLatestNone(rows, ev.kind, ev.entity);
        InsertKeepsChain(c, rows, ev);
      }
    }
  }

  lemma {:induction false} WrittenAppends<P>(c: Codec<P>, events: seq<Event<P>>, ev: Event<P>, rows: seq<Row<P>>)
    requires Written(c, events) == Ok(rows)
    ensures Written(c, events + [ev]) == Step(c, rows, ev)
  {
    assert Init(events + [ev]) == events;
  }

  lemma {:induction false} EventsOfAppends<P>(rows: seq<Row<P>>, row: Row<P>)
    requires row.raw.Canonical? && forall i :: 0 <= i < |rows| ==> rows[i].raw.Canonical?
    ensures forall i :: 0 <= i < |rows + [row]| ==> (rows + [row])[i].raw.Canonical?
    ensures EventsOf(rows + [row]) == EventsOf(rows) + [EventOf(row)]
  {
  }

  lemma {:induction false} ChainedIsWritten<P>(c: Codec<P>, rows: seq<Row<P>>)
    requires Chained(c, rows)
    ensures forall i :: 0 <= i < |rows| ==> rows[i].raw.Canonical?
    ensures Written(c, EventsOf(rows)) == Ok(rows)
  {
    ChainedCanonical(c, rows);
    if rows != [] {
      var rest, row := Init(rows), Last(rows);
      ChainedIsWritten(c, rest);
      WrittenAppends(c, EventsOf(rest), EventOf(row), rest);
      StepRewrites(c, rest, row);
      EventsOfAppends(rest, row);
      assert rows == rest + [row];
    }
  }

  /** Writing the event of an acceptable row again adds exactly that row. */
  lemma {:induction false} StepRewrites<P>(c: Codec<P>, rows: seq<Row<P>>, row: Row<P>)
    requires Fits(c, rows, row)
    ensures Step(c, rows, EventOf(row)) == Ok(rows + [row])
  {
    FirstNoneIsLatestNone(rows, Response, row.entity);
    assert row == NewRow(c, rows, EventOf(row));
  }

  /** The validator accepts exactly the tables that some run of the writer produces. */
  lemma {:induction false} AcceptedExactlyWhenWritten<P>(c: Codec<P>, rows: seq<Row<P>>)
    ensures Accepted(c, rows) <==> rows != [] && exists events :: Written(c, events) == Ok(rows)
  {
    if Accepted(c, rows) {
      ChainedIsWritten(c, rows);
    }
    if rows != [] && exists events :: Written(c, events) == Ok(rows) {
      var events :| Written(c, events) == Ok(rows);
      WrittenIsChained(c, events);
    }
  }

  // ---- the head digest commits to the whole history ------------------------------------

  /** Two accepted tables with the same head digest are the same table, unless their records collide. */
  lemma {:induction false} HeadCommitsToHistory<P>(c: Codec<P>, a: seq<Row<P>>, b: seq<Row<P>>)
    requires Accepted(c, a) && Accepted(c, b) && CollisionFree(c, a, b)
    requires Last(a).sha == Last(b).sha
    ensures a == b
  {
    var x, y := Last(a), Last(b);
    assert NoCollision(c, a[|a| - 1], b[|b| - 1]);
    assert x.raw.envelope == y.raw.envelope;
    assert x == y;
    if |a| > 1 {
      HeadCommitsToHistory(c, Init(a), Init(b));
    }
    assert Init(a) == Init(b);
    assert a == Init(a) + [x] && b == Init(b) + [y];
  }

  lemma {:induction false} DigestsDistinct<P>(c: Codec<P>, rows: seq<Row<P>>, i: nat, j: nat)
    requires Chained(c, rows) && CollisionFree(c, rows, rows) && i < |rows| && j < |rows| && rows[i].sha == rows[j].sha
    ensures i == j
  {
    ChainedAt(c, rows, i);
    ChainedAt(c, rows, j);
    assert NoCollision(c, rows[i], rows[j]);
  }

  // ---- the supersedes links ------------------------------------------------------------

  /** The rows of one key, oldest first. */
  function OfKey<P>(rows: seq<Row<P>>, kind: Kind, entity: string): seq<Row<P>> {
    if rows == [] then []
    else if (Last(rows).kind, Last(rows).entity) == (kind, entity) then OfKey(Init(rows), kind, entity) + [Last(rows)]
    else OfKey(Init(rows), kind, entity)
  }

  /** Follows `supersedes` digests from a starting digest, newest first. */
  function Walk<P>(rows: seq<Row<P>>, from: Option<string>): seq<Row<P>> {
    if rows == [] || from == None then []
    else if Last(rows).sha == from.value then
      [Last(rows)] + (if Last(rows).raw.Canonical? then Walk(Init(rows), Last(rows).raw.envelope.supersedes) else [])
    else Walk(Init(rows), from)
  }

  lemma {:induction false} WalkSkips<P>(rows: seq<Row<P>>, row: Row<P>, from: Option<string>)
    requires from != Some(row.sha)
    ensures Walk(rows + [row], from) == Walk(rows, from)
  {
    assert Init(rows + [row]) == rows;
  }

  lemma {:induction false} LatestIsEarlier<P>(rows: seq<Row<P>>, kind: Kind, entity: string)
    ensures Latest(rows, kind, entity).Some? ==>
      exists i :: 0 <= i < |rows| && rows[i].sha == Latest(rows, kind, entity).value
  {
    if rows != [] {
      if (Last(rows).kind, Last(rows).entity) == (kind, entity) {
        assert rows[|rows| - 1].sha == Latest(rows, kind, entity).value;
      } else {
        LatestIsEarlier(Init(rows), kind, entity);
        if Latest(rows, kind, entity).Some? {
          var i :| 0 <= i < |Init(rows)| && Init(rows)[i].sha == Latest(rows, kind, entity).value;
          assert rows[i].sha == Latest(rows, kind, entity).value;
        }
      }
    }
  }

  /** Following the links from the newest row of a key visits exactly that key's rows, in reverse. */
  lemma {:induction false} WalkVisitsTheKey<P>(c: Codec<P>, rows: seq<Row<P>>, kind: Kind, entity: string)
    requires Chained(c, rows) && CollisionFree(c, rows, rows)
    ensures Walk(rows, Latest(rows, kind, entity)) == Reverse(OfKey(rows, kind, entity))
  {
    if rows != [] {
      var rest, row := Init(rows), Last(rows);
      CollisionFreePrefix(c, rows);
      WalkVisitsTheKey(c, rest, kind, entity);
      if (row.kind, row.entity) == (kind, entity) {
        WalkStarts(c, rows, kind, entity);
        ReverseAppend(OfKey(rest, kind, entity), row);
      } else {
        EarlierDigestsDiffer(c, rows, kind, entity);
        WalkSkips(rest, row, Latest(rest, kind, entity));
        assert rows == rest + [row];
      }
    }
  }

  lemma {:induction false} CollisionFreePrefix<P>(c: Codec<P>, rows: seq<Row<P>>)
    requires rows != [] && CollisionFree(c, rows, rows)
    ensures CollisionFree(c, Init(rows), Init(rows))
  {
    forall i, j | 0 <= i < |rows| - 1 && 0 <= j < |rows| - 1 ensures NoCollision(c, Init(rows)[i], Init(rows)[j]) {
      assert NoCollision(c, rows[i], rows[j]);
    }
  }

  /** From the newest row of a key the walk goes on with what the row supersedes. */
  lemma {:induction false} WalkStarts<P>(c: Codec<P>, rows: seq<Row<P>>, kind: Kind, entity: string)
    requires Chained(c, rows) && rows != [] && (Last(rows).kind, Last(rows).entity) == (kind, entity)
    ensures Walk(rows, Latest(rows, kind, entity)) == [Last(rows)] + Walk(Init(rows), Latest(Init(rows), kind, entity))
  {
  }

  lemma {:induction false} ReverseAppend<T>(xs: seq<T>, x: T)
    ensures Reverse(xs + [x]) == [x] + Reverse(xs)
  {
    assert Init(xs + [x]) == xs;
  }

  lemma {:induction false} EarlierDigestsDiffer<P>(c: Codec<P>, rows: seq<Row<P>>, kind: Kind, entity: string)
    requires Chained(c, rows) && CollisionFree(c, rows, rows) && rows != []
    ensures Latest(Init(rows), kind, entity) != Some(Last(rows).sha)
  {
    var rest := Init(rows);
    LatestIsEarlier(rest, kind, entity);
    if Latest(rest, kind, entity) == Some(Last(rows).sha) {
      var i :| 0 <= i < |rest| && rest[i].sha == Last(rows).sha;
      DigestsDistinct(c, rows, i, |rest|);
      assert false;
    }
  }

  // ---- shape of every accepted table -----------------------------------------------------

  /** Only the first record activates, only the last may seal, and clocks never run backwards. */
  lemma {:induction false} AcceptedShape<P>(c: Codec<P>, rows: seq<Row<P>>, i: nat, j: nat)
    requires Accepted(c, rows) && i < j < |rows|
    ensures rows[0].kind == Activation && rows[j].kind != Activation
    ensures rows[i].kind != Seal
    ensures rows[i].raw.Canonical? && rows[j].raw.Canonical?
    ensures rows[i].raw.envelope.recordedAt <= rows[j].raw.envelope.recordedAt
    decreases j - i
  {
    ChainedAt(c, rows, 0);
    ChainedAt(c, rows, j);
    ChainedAt(c, rows, i + 1);
    assert Last(rows[..i + 1]) == rows[i];
    if i + 1 < j {
      AcceptedShape(c, rows, i + 1, j);
    }
  }

  /** Every response answers one earlier attempt, and no attempt is answered twice. */
  lemma {:induction false} ResponsesAnswerOnce<P>(c: Codec<P>, rows: seq<Row<P>>, i: nat)
    requires Accepted(c, rows) && i < |rows| && rows[i].kind == Response
    ensures exists a :: 0 <= a < i && rows[a].kind == Attempt && rows[a].sha == rows[i].entity
    ensures forall j :: 0 <= j < |rows| && rows[j].kind == Response && rows[j].entity == rows[i].entity ==> j == i
  {
    ChainedAt(c, rows, i);
    var a :| 0 <= a < i && rows[..i][a].kind == Attempt && rows[..i][a].sha == rows[i].entity;
    assert rows[a].kind == Attempt;
    forall j | 0 <= j < |rows| && rows[j].kind == Response && j != i ensures rows[j].entity != rows[i].entity {
      if j < i {
        LaterResponseDiffers(c, rows, j, i);
      } else {
        LaterResponseDiffers(c, rows, i, j);
      }
    }
  }

  lemma {:induction false} LaterResponseDiffers<P>(c: Codec<P>, rows: seq<Row<P>>, i: nat, j: nat)
    requires Chained(c, rows) && i < j < |rows| && rows[i].kind == Response && rows[j].kind == Response
    ensures rows[i].entity != rows[j].entity
  {
    ChainedAt(c, rows, j);
    LatestNone(rows[..j], Response, rows[j].entity);
    assert rows[..j][i] == rows[i];
  }

  /** Once sealed, no writer call changes the table: each is refused or answers an old response. */
  lemma {:induction false} SealIsFinal<P>(c: Codec<P>, rows: seq<Row<P>>, ev: Event<P>)
    requires Accepted(c, rows) && Last(rows).kind == Seal
    ensures Step(c, rows, ev).Ok? ==> Step(c, rows, ev).value == rows && ev.kind == Response
    ensures forall row :: !Fits(c, rows, row)
  {
  }
}
