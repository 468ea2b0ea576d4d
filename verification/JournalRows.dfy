/** The commissioning journal told row by row, on positions and stored columns alone. */
module JournalRows {
  import opened Prelude
  import opened Journal

  predicate SameKey<P>(x: Row<P>, kind: Kind, entity: string) {
    x.kind == kind && x.entity == entity
  }

  /** `link` is the digest of the newest row before position `i` with that kind and entity, if there is one. */
  predicate LinksBack<P>(rows: seq<Row<P>>, i: nat, kind: Kind, entity: string, link: Option<string>)
    requires i <= |rows|
  {
    match link
    case None => forall j :: 0 <= j < i ==> !SameKey(rows[j], kind, entity)
    case Some(sha) =>
      exists j :: 0 <= j < i && SameKey(rows[j], kind, entity) && rows[j].sha == sha
        && forall k :: j < k < i ==> !SameKey(rows[k], kind, entity)
  }

  /** Some row before position `i` is the attempt with that digest, and none before it answers that attempt. */
  predicate Answers<P>(rows: seq<Row<P>>, i: nat, sha: string)
    requires i <= |rows|
  {
    && (exists j :: 0 <= j < i && rows[j].kind == Attempt && rows[j].sha == sha)
    && forall j :: 0 <= j < i ==> !SameKey(rows[j], Response, sha)
  }

  /** The row at a position is legal after the rows before it. */
  predicate LegalAt<P>(c: Codec<P>, rows: seq<Row<P>>, i: nat)
    requires i < |rows|
  {
    && rows[i].raw.Canonical?
    && var row, e := rows[i], rows[i].raw.envelope;
    && c.size(e) <= 2_000_000
    && row.sha == c.digest(e)
    && row.sequence == i + 1
    && e.sequence == i + 1
    && row.kind == e.kind
    && row.entity == e.entity
    && row.kind in {Activation, Custody, CustodyPoll, Attempt, Response, Cycle, Seal}
    && 1 <= |row.entity| <= 256
    && (row.kind == Activation <==> i == 0)
    && (row.kind in {Activation, Seal} ==> row.entity == "singleton")
    && LinksBack(rows, i, row.kind, row.entity, e.supersedes)
    && (row.kind == Response ==> Answers(rows, i, row.entity))
    && (i == 0 ==> e.previous == None)
    && (i > 0 ==>
          && e.previous == Some(rows[i - 1].sha)
          && rows[i - 1].kind != Seal
          && rows[i - 1].raw.Canonical?
          && rows[i - 1].raw.envelope.recordedAt <= e.recordedAt)
  }

  lemma {:induction false} LatestLinksBack<P>(
    rows: seq<Row<P>>, i: nat, kind: Kind, entity: string, link: Option<string>)
    requires i <= |rows|
    ensures LinksBack(rows, i, kind, entity, link) <==> link == Latest(rows[..i], kind, entity)
  {
    if i > 0 {
      var prior := rows[..i];
      assert Init(prior) == rows[..i - 1] && Last(prior) == rows[i - 1];
      if !SameKey(rows[i - 1], kind, entity) {
        LatestLinksBack(rows, i - 1, kind, entity, link);
        LinksSkip(rows, i, kind, entity, link);
      } else {
        LinksLast(rows, i, kind, entity, link);
      }
    }
  }

  lemma {:induction false} LinksSkip<P>(rows: seq<Row<P>>, i: nat, kind: Kind, entity: string, link: Option<string>)
    requires 0 < i <= |rows| && !SameKey(rows[i - 1], kind, entity)
    ensures LinksBack(rows, i, kind, entity, link) <==> LinksBack(rows, i - 1, kind, entity, link)
  {
    if link.Some? && LinksBack(rows, i - 1, kind, entity, link) {
      var j :| 0 <= j < i - 1 && SameKey(rows[j], kind, entity) && rows[j].sha == link.value
        && forall k :: j < k < i - 1 ==> !SameKey(rows[k], kind, entity);
      assert forall k :: j < k < i ==> !SameKey(rows[k], kind, entity);
    }
  }

  lemma {:induction false} LinksLast<P>(rows: seq<Row<P>>, i: nat, kind: Kind, entity: string, link: Option<string>)
    requires 0 < i <= |rows| && SameKey(rows[i - 1], kind, entity)
    ensures LinksBack(rows, i, kind, entity, link) <==> link == Some(rows[i - 1].sha)
  {
    if link.Some? && LinksBack(rows, i, kind, entity, link) {
      var j :| 0 <= j < i && SameKey(rows[j], kind, entity) && rows[j].sha == link.value
        && forall k :: j < k < i ==> !SameKey(rows[k], kind, entity);
      assert j == i - 1;
    }
  }

  lemma {:induction false} LegalExactlyWhenFits<P>(c: Codec<P>, rows: seq<Row<P>>, i: nat)
    requires i < |rows|
    ensures LegalAt(c, rows, i) <==> Fits(c, rows[..i], rows[i])
  {
    var prior, row := rows[..i], rows[i];
    assert i > 0 ==> Last(prior) == rows[i - 1];
    if row.raw.Canonical? {
      LatestLinksBack(rows, i, row.kind, row.entity, row.raw.envelope.supersedes);
    }
    AnswersMeans(rows, i, row.entity);
    SevenKinds(row.kind);
  }

  lemma {:induction false} SevenKinds(kind: Kind)
    ensures kind in {Activation, Custody, CustodyPoll, Attempt, Response, Cycle, Seal} <==> !kind.Foreign?
  {
    match kind {
      case Foreign(name) =>
      case _ =>
    }
  }

  lemma {:induction false} AnswersMeans<P>(rows: seq<Row<P>>, i: nat, sha: string)
    requires i <= |rows|
    ensures Answers(rows, i, sha) <==> IsAttempt(rows[..i], sha) && Latest(rows[..i], Response, sha) == None
  {
    var prior := rows[..i];
    LatestNone(prior, Response, sha);
    if Answers(rows, i, sha) {
      var j :| 0 <= j < i && rows[j].kind == Attempt && rows[j].sha == sha;
      assert prior[j].kind == Attempt;
      forall j | 0 <= j < i ensures (prior[j].kind, prior[j].entity) != (Response, sha) {
        assert !SameKey(rows[j], Response, sha);
      }
    }
    if IsAttempt(prior, sha) && Latest(prior, Response, sha) == None {
      var j :| 0 <= j < i && prior[j].kind == Attempt && prior[j].sha == sha;
      assert rows[j].kind == Attempt;
      forall j | 0 <= j < i ensures !SameKey(rows[j], Response, sha) {
        assert (prior[j].kind, prior[j].entity) != (Response, sha);
      }
    }
  }

  /** The validator accepts a table exactly when it is not empty and every row is legal where it stands. */
  lemma {:induction false} AcceptedExactlyWhenLegal<P>(c: Codec<P>, rows: seq<Row<P>>)
    ensures Accepted(c, rows) <==> rows != [] && forall i :: 0 <= i < |rows| ==> LegalAt(c, rows, i)
  {
    if Chained(c, rows) {
      forall i | 0 <= i < |rows| ensures LegalAt(c, rows, i) {
        ChainedAt(c, rows, i);
        LegalExactlyWhenFits(c, rows, i);
      }
    }
    if forall i :: 0 <= i < |rows| ==> LegalAt(c, rows, i) {
      LegalIsChained(c, rows, |rows|);
      assert rows[..|rows|] == rows;
    }
  }

  lemma {:induction false} LegalIsChained<P>(c: Codec<P>, rows: seq<Row<P>>, n: nat)
    requires n <= |rows| && forall i :: 0 <= i < |rows| ==> LegalAt(c, rows, i)
    ensures Chained(c, rows[..n])
  {
    if n > 0 {
      LegalIsChained(c, rows, n - 1);
      LegalExactlyWhenFits(c, rows, n - 1);
      assert Init(rows[..n]) == rows[..n - 1] && Last(rows[..n]) == rows[n - 1];
    }
  }

  predicate Carries<P(==)>(row: Row<P>, ev: Event<P>) {
    && row.kind == ev.kind
    && row.entity == ev.entity
    && row.raw.Canonical?
    && row.raw.envelope.payload == ev.payload
    && row.raw.envelope.recordedAt == ev.at
  }

  /**
   An event that answers no answered attempt is appended exactly as the one row that carries it
   and is legal there; the writer refuses it exactly when there is no such row.
   */
  lemma {:induction false} AppendsExactlyWhen<P(!new)>(c: Codec<P>, rows: seq<Row<P>>, ev: Event<P>)
    requires Accepted(c, rows)
    requires !(ev.kind == Response && exists i :: 0 <= i < |rows| && SameKey(rows[i], Response, ev.entity))
    ensures forall row :: Step(c, rows, ev) == Ok(rows + [row]) <==>
      Carries(row, ev) && LegalAt(c, rows + [row], |rows|)
    ensures Step(c, rows, ev).Ok? ==> exists row :: Step(c, rows, ev) == Ok(rows + [row])
  {
    NoAnswerYet(rows, ev);
    if Step(c, rows, ev).Ok? {
      assert Step(c, rows, ev) == Ok(rows + [NewRow(c, rows, ev)]);
    }
    forall row ensures Step(c, rows, ev) == Ok(rows + [row]) <==> Carries(row, ev) && LegalAt(c, rows + [row], |rows|) {
      var next := rows + [row];
      assert next[..|rows|] == rows && next[|rows|] == row;
      LegalExactlyWhenFits(c, next, |rows|);
      if Step(c, rows, ev) == Ok(next) {
        assert next[|rows|] == (rows + [NewRow(c, rows, ev)])[|rows|];
        InsertKeepsChain(c, rows, ev);
        ChainedAt(c, next, |rows|);
      }
      if Carries(row, ev) && Fits(c, rows, row) {
        StepRewrites(c, rows, row);
        assert EventOf(row) == ev;
      }
    }
  }

  lemma {:induction false} NoAnswerYet<P>(rows: seq<Row<P>>, ev: Event<P>)
    requires !(ev.kind == Response && exists i :: 0 <= i < |rows| && SameKey(rows[i], Response, ev.entity))
    ensures ev.kind == Response ==>
      First(rows, Response, ev.entity) == None && Latest(rows, Response, ev.entity) == None
  {
    if ev.kind == Response {
      FirstNoneIsLatestNone(rows, Response, ev.entity);
      forall i | 0 <= i < |rows| ensures (rows[i].kind, rows[i].entity) != (Response, ev.entity) {
        assert !SameKey(rows[i], Response, ev.entity);
      }
    }
  }

  /** An event that answers an answered attempt adds nothing; it succeeds exactly when it repeats the answer. */
  lemma {:induction false} RepeatsExactlyWhen<P>(c: Codec<P>, rows: seq<Row<P>>, ev: Event<P>, i: nat)
    requires Accepted(c, rows) && i < |rows|
    requires ev.kind == Response && SameKey(rows[i], Response, ev.entity)
    ensures rows[i].raw.Canonical?
    ensures Step(c, rows, ev).Ok? <==> rows[i].raw.envelope.payload == ev.payload
    ensures Step(c, rows, ev).Ok? ==> Step(c, rows, ev).value == rows
  {
    ChainedCanonical(c, rows);
    FirstNoneIsLatestNone(rows, Response, ev.entity);
    assert (rows[i].kind, rows[i].entity) == (Response, ev.entity);
    FirstIsARow(rows, Response, ev.entity);
    var j :| 0 <= j < |rows| && rows[j] == First(rows, Response, ev.entity).value;
    ResponsesAnswerOnce(c, rows, i);
    assert j == i;
  }

  // ---- the supersedes links ------------------------------------------------------------

  /** The walk from the newest row of a key visits every row of that key and no other, newest first. */
  lemma {:induction false} WalkIsTheKeysRows<P(!new)>(c: Codec<P>, rows: seq<Row<P>>, kind: Kind, entity: string)
    requires Accepted(c, rows) && CollisionFree(c, rows, rows)
    ensures var walk := Walk(rows, Latest(rows, kind, entity));
      && (forall row :: row in walk <==> row in rows && SameKey(row, kind, entity))
      && (forall a, b :: 0 <= a < b < |walk| ==> walk[a].sequence > walk[b].sequence)
  {
    WalkVisitsTheKey(c, rows, kind, entity);
    OfKeyMembers(rows, kind, entity);
    OfKeyAscends(c, rows, kind, entity);
    ReverseTurns(OfKey(rows, kind, entity));
  }

  lemma {:induction false} OfKeyMembers<P(!new)>(rows: seq<Row<P>>, kind: Kind, entity: string)
    ensures forall row :: row in OfKey(rows, kind, entity) <==> row in rows && SameKey(row, kind, entity)
  {
    if rows != [] {
      OfKeyMembers(Init(rows), kind, entity);
      forall row ensures row in OfKey(rows, kind, entity) <==> row in rows && SameKey(row, kind, entity) {
        assert row in rows <==> row in Init(rows) || row == Last(rows);
      }
    }
  }

  /** Rows in increasing order of their sequence numbers, none above `n`. */
  predicate Ascend<P>(xs: seq<Row<P>>, n: int) {
    && (forall a :: 0 <= a < |xs| ==> xs[a].sequence <= n)
    && (forall a, b :: 0 <= a < b < |xs| ==> xs[a].sequence < xs[b].sequence)
  }

  lemma {:induction false} AscendNext<P>(xs: seq<Row<P>>, row: Row<P>, n: int)
    requires Ascend(xs, n) && n < row.sequence
    ensures Ascend(xs + [row], row.sequence)
  {
  }

  lemma {:induction false} OfKeyAscends<P>(c: Codec<P>, rows: seq<Row<P>>, kind: Kind, entity: string)
    requires Chained(c, rows)
    ensures Ascend(OfKey(rows, kind, entity), |rows|)
  {
    if rows != [] {
      var older, row := OfKey(Init(rows), kind, entity), Last(rows);
      OfKeyAscends(c, Init(rows), kind, entity);
      AscendNext(older, row, |rows| - 1);
    }
  }

  lemma {:induction false} ReverseTurns<T>(xs: seq<T>)
    ensures |Reverse(xs)| == |xs|
    ensures forall i :: 0 <= i < |xs| ==> Reverse(xs)[i] == xs[|xs| - 1 - i]
    ensures forall x :: x in Reverse(xs) <==> x in xs
  {
    if xs != [] {
      ReverseTurns(Init(xs));
      assert xs == Init(xs) + [Last(xs)];
    }
  }
}
