/**
 What an entry pass does to each row, said of the rows, the account and the broker's answers alone:
 which rows it touches, what it may spend, and exactly when a candidate is sent.
 */
module CanaryEntries {
  import opened Prelude
  import opened Canary
  import opened CanaryRunner

  // ---- the holding horizon ------------------------------------------------------------------------------

  predicate Increasing(days: seq<int>) {
    forall i, j :: 0 <= i < j < |days| ==> days[i] < days[j]
  }

  /** How many sessions there are from one day through another. */
  function SessionsBetween(sessions: seq<int>, from: int, through: int): nat {
    if sessions == [] then 0
    else SessionsBetween(Init(sessions), from, through) + if from <= Last(sessions) <= through then 1 else 0
  }

  lemma {:induction false} AllAreUpcoming(sessions: seq<int>, today: int, lastDay: int, through: int)
    requires forall i :: 0 <= i < |sessions| ==> sessions[i] <= through && sessions[i] <= lastDay
    ensures SessionsBetween(sessions, today, through) == |Upcoming(sessions, today, lastDay)|
  {
    if sessions != [] {
      AllAreUpcoming(Init(sessions), today, lastDay, through);
    }
  }

  lemma {:induction false} UpcomingContents(sessions: seq<int>, today: int, lastDay: int, d: int)
    ensures d in Upcoming(sessions, today, lastDay) <==> d in sessions && today <= d <= lastDay
  {
    if sessions != [] {
      UpcomingContents(Init(sessions), today, lastDay, d);
      assert sessions == Init(sessions) + [Last(sessions)];
    }
  }

  lemma {:induction false} LastIsLatest(sessions: seq<int>, d: int)
    requires Increasing(sessions) && sessions != [] && d in Init(sessions)
    ensures d < Last(sessions)
  {
    var i :| 0 <= i < |sessions| - 1 && sessions[i] == d;
  }

  lemma {:induction false} UpcomingIncreases(sessions: seq<int>, today: int, lastDay: int)
    requires Increasing(sessions)
    ensures Increasing(Upcoming(sessions, today, lastDay))
  {
    if sessions != [] {
      var u := Upcoming(Init(sessions), today, lastDay);
      UpcomingIncreases(Init(sessions), today, lastDay);
      forall i | 0 <= i < |u| ensures u[i] < Last(sessions) {
        UpcomingContents(Init(sessions), today, lastDay, u[i]);
        LastIsLatest(sessions, u[i]);
      }
    }
  }

  /** The upcoming session at position `i` is the session number `i + 1` from today on. */
  lemma {:induction false} UpcomingIsCounted(sessions: seq<int>, today: int, lastDay: int, i: nat)
    requires Increasing(sessions) && i < |Upcoming(sessions, today, lastDay)|
    ensures SessionsBetween(sessions, today, Upcoming(sessions, today, lastDay)[i]) == i + 1
  {
    var before, last := Init(sessions), Last(sessions);
    var u := Upcoming(before, today, lastDay);
    assert sessions == before + [last];
    if i < |u| {
      UpcomingIsCounted(before, today, lastDay, i);
      UpcomingContents(before, today, lastDay, u[i]);
      LastIsLatest(sessions, u[i]);
      assert Upcoming(sessions, today, lastDay)[i] == u[i];
      assert SessionsBetween(sessions, today, u[i]) == SessionsBetween(before, today, u[i]);
    } else {
      AllAreUpcoming(before, today, lastDay, last);
      assert SessionsBetween(sessions, today, last) == SessionsBetween(before, today, last) + 1;
    }
  }

  /** `day` is the session on which a holding that starts today has lasted so many sessions. */
  predicate HoldsThrough(c: Config, m: Moment, day: int) {
    && m.today in m.sessions && m.today <= c.lastDay
    && day in m.sessions && m.today <= day <= c.lastDay
    && SessionsBetween(m.sessions, m.today, day) == c.sessions
  }

  /** The pass may enter exactly in the entry window of a session whose whole holding is on the calendar. */
  lemma {:induction false} ExitIsNthSession(c: Config, m: Moment, day: int)
    requires Increasing(m.sessions) && c.sessions >= 1
    ensures PlannedExit(c, m) == ExitOn(day) <==> c.opensAt <= m.time < c.closesAt && HoldsThrough(c, m, day)
    ensures !PlannedExit(c, m).PlanRaises?
  {
    var u := Upcoming(m.sessions, m.today, c.lastDay);
    UpcomingContents(m.sessions, m.today, c.lastDay, m.today);
    UpcomingContents(m.sessions, m.today, c.lastDay, day);
    if HoldsThrough(c, m, day) {
      var i :| 0 <= i < |u| && u[i] == day;
      UpcomingIsCounted(m.sessions, m.today, c.lastDay, i);
    }
    if PlannedExit(c, m).ExitOn? {
      UpcomingIsCounted(m.sessions, m.today, c.lastDay, c.sessions - 1);
      assert u[c.sessions - 1] in u;
    }
  }

  // ---- rows a pass leaves alone -----------------------------------------------------------------------------

  lemma {:induction false} PassKeepsOthers(
    c: Config, d: Desk, exit: int, capacity: nat, left: seq<Row>, b: Book, id: string)
    requires !Names(left, id)
    ensures var after := Pass(c, d, exit, capacity, left, b).book.rows;
      (id in after <==> id in b.rows) && (id in after ==> after[id] == b.rows[id])
    decreases |left|
  {
    if left != [] {
      var t := Settle(d, exit, left, b, Decide(c, d, capacity, left[0], b));
      assert left[0].id != id;
      MarkAllAt(b.rows, left, EntryWindowMissed, id);
      if t.Next? {
        forall i | 0 <= i < |left[1..]| ensures left[1..][i].id != id {
          assert left[i + 1].id != id;
        }
        PassKeepsOthers(c, d, exit, capacity, left[1..], t.book, id);
      }
    }
  }

  lemma {:induction false} SelectNamesExactly(order: seq<string>, rows: map<string, Row>, p: Row -> bool, id: string)
    requires Table(order, rows)
    ensures Names(Select(order, rows, p), id) <==> id in rows && p(rows[id])
  {
    SelectIsExact(order, rows, p);
    var xs := Select(order, rows, p);
    if id in rows && p(rows[id]) {
      assert rows[id] in xs;
      var i :| 0 <= i < |xs| && xs[i] == rows[id];
    }
  }

  /** A row as the pass finds it once late rows are marked. */
  lemma {:induction false} ExpiredAt(order: seq<string>, rows: map<string, Row>, today: int, id: string)
    requires Table(order, rows)
    ensures var expired := Expired(order, rows, today);
      && expired.Keys == rows.Keys
      && (id in rows ==>
            expired[id] == if rows[id].state == Queued && rows[id].session < today
              then rows[id].(state := EntryWindowMissed) else rows[id])
  {
    SelectNamesExactly(order, rows, IsLate(today), id);
    MarkAllAt(rows, Select(order, rows, IsLate(today)), EntryWindowMissed, id);
  }

  lemma {:induction false} ExpiredKeepsTable(order: seq<string>, rows: map<string, Row>, today: int)
    requires Table(order, rows)
    ensures Table(order, Expired(order, rows, today))
  {
    forall id ensures Expired(order, rows, today).Keys == rows.Keys
      ensures id in rows ==> Expired(order, rows, today)[id].id == id
    {
      ExpiredAt(order, rows, today, id);
    }
  }

  /**
   An entry pass marks every queued row of an earlier session as missed, may act on the queued rows of
   today's session, and leaves every other row as it was.
   */
  lemma {:induction false} EntryPassTouches(
    c: Config, d: Desk, a: Account, m: Moment, order: seq<string>, rows: map<string, Row>, orders: seq<Order>,
    id: string)
    requires Table(order, rows) && id in rows
    requires !(rows[id].state == Queued && rows[id].session == m.today)
    ensures var after := EntryPass(c, d, a, m, order, rows, orders).book.rows;
      id in after
      && after[id] == if rows[id].state == Queued && rows[id].session < m.today
         then rows[id].(state := EntryWindowMissed) else rows[id]
  {
    var expired := Expired(order, rows, m.today);
    ExpiredAt(order, rows, m.today, id);
    ExpiredKeepsTable(order, rows, m.today);
    if PlannedExit(c, m).ExitOn? && Capacity(c, order, expired) > 0 {
      var due := Select(order, expired, IsDue(m.today));
      var p := Chosen(order, expired, m.today);
      SelectNamesExactly(order, expired, IsDue(m.today), id);
      PickSeparates(due, Symbols(Select(order, expired, IsActive())));
      assert !Names(p.selected, id) && !Names(p.overlapped, id) by {
        assert forall row :: row in due ==> row.id != id;
      }
      MarkAllAt(expired, p.overlapped, OverlapSuppressed, id);
      var b := Book(MarkAll(expired, p.overlapped, OverlapSuppressed), orders, Cash(c, a), 0, 0.0);
      PassKeepsOthers(c, d, PlannedExit(c, m).day, Capacity(c, order, expired), p.selected, b, id);
    }
  }

  // ---- the first due candidate ----------------------------------------------------------------------------

  lemma {:induction false} SelectsNone(order: seq<string>, rows: map<string, Row>, p: Row -> bool)
    requires forall j :: 0 <= j < |order| ==> !(order[j] in rows && p(rows[order[j]]))
    ensures Select(order, rows, p) == []
  {
    if order != [] {
      SelectsNone(Init(order), rows, p);
      assert !(order[|order| - 1] in rows && p(rows[order[|order| - 1]]));
    }
  }

  lemma {:induction false} SelectsFirst(order: seq<string>, rows: map<string, Row>, p: Row -> bool, i: nat)
    requires i < |order| && order[i] in rows && p(rows[order[i]])
    requires forall j :: 0 <= j < i ==> !(order[j] in rows && p(rows[order[j]]))
    ensures Select(order, rows, p) != [] && Select(order, rows, p)[0] == rows[order[i]]
  {
    if i < |order| - 1 {
      SelectsFirst(Init(order), rows, p, i);
    } else {
      SelectsNone(Init(order), rows, p);
    }
  }

  lemma {:induction false} PicksFirst(xs: seq<Row>, taken: set<string>)
    requires xs != []
    ensures var p := Pick(xs, taken);
      if xs[0].symbol in taken then p.overlapped != [] && p.overlapped[0] == xs[0]
      else p.selected != [] && p.selected[0] == xs[0]
  {
    if |xs| > 1 {
      PicksFirst(Init(xs), taken);
    } else {
      assert Init(xs) == [];
    }
  }

  lemma {:induction false} PassOnlyAppends(c: Config, d: Desk, exit: int, capacity: nat, left: seq<Row>, b: Book)
    ensures b.orders <= Pass(c, d, exit, capacity, left, b).book.orders
    ensures forall k :: |b.orders| <= k < |Pass(c, d, exit, capacity, left, b).book.orders| ==>
      exists i :: 0 <= i < |left| && Pass(c, d, exit, capacity, left, b).book.orders[k].ref == EntryRef(left[i].id)
    decreases |left|
  {
    if left != [] {
      var t := Settle(d, exit, left, b, Decide(c, d, capacity, left[0], b));
      if t.Next? {
        PassOnlyAppends(c, d, exit, capacity, left[1..], t.book);
        var after := Pass(c, d, exit, capacity, left, b).book;
        forall k | |b.orders| <= k < |after.orders|
          ensures exists i :: 0 <= i < |left| && after.orders[k].ref == EntryRef(left[i].id)
        {
          if k < |t.book.orders| {
            assert after.orders[k].ref == EntryRef(left[0].id);
          } else {
            var i :| 0 <= i < |left[1..]| && after.orders[k].ref == EntryRef(left[1..][i].id);
            assert left[i + 1] == left[1..][i];
          }
        }
      }
    }
  }

  /** The next order after `before` is one for this packet. */
  predicate SentFirst(before: seq<Order>, after: seq<Order>, id: string) {
    |before| < |after| && after[|before|].ref == EntryRef(id)
  }

  predicate PreviewPasses(c: Config, row: Row, preview: Option<Preview>) {
    var n := row.quantity as real * row.reference;
    UsablePreview(c, n, preview) && FeePasses(c, n, preview.value)
  }

  /** What a candidate costs at most: its price at the cushion and two full commissions. */
  function Ceiling(c: Config, row: Row): real {
    row.quantity as real * row.reference * (1.0 + c.cushion) + 2.0 * c.maxCommission
  }

  /** The first turn of a pass decides about its first candidate, and no later turn touches it again. */
  lemma {:induction false} FirstTurn(
    c: Config, d: Desk, exit: int, capacity: nat, left: seq<Row>, b: Book)
    requires left != [] && capacity > 0 && b.submitted == 0 && DistinctIds(left)
    requires left[0].id in b.rows && b.rows[left[0].id] == left[0] && left[0].state == Queued
    ensures var row, after := left[0], Pass(c, d, exit, capacity, left, b).book;
      && (SentFirst(b.orders, after.orders, row.id) <==>
            && Ceiling(c, row) <= b.cash && PreviewPasses(c, row, d.preview(row))
            && d.onTime(row) && !d.send(row).Refused?)
      && (SentFirst(b.orders, after.orders, row.id) ==>
            && after.orders[|b.orders|] ==
               Order(d.send(row).order, EntryRef(row.id), "presubmitted", 0, row.quantity, 0.0)
            && row.id in after.rows && after.rows[row.id].exit == Some(exit)
            && (d.send(row).Accepted? ==>
                  after.rows[row.id] == row.(
                    exit := Some(exit), state := Submitted, parent := Some(d.send(row).order),
                    held := Some(row.quantity))))
      && (Ceiling(c, row) > b.cash ==> row.id in after.rows && after.rows[row.id] == row.(state := CashSuppressed))
  {
    var row, v := left[0], Decide(c, d, capacity, left[0], b);
    var t := Settle(d, exit, left, b, v);
    SubmittedExactlyWhen(c, row, d.preview(row), b.cash, row.quantity as real * row.reference);
    SuppressedExactlyWhen(c, row, d.preview(row), b.cash, row.quantity as real * row.reference);
    assert v.Submit? <==> Ceiling(c, row) <= b.cash && PreviewPasses(c, row, d.preview(row));
    RestIsOthers(left);
    if t.Next? {
      PassKeepsOthers(c, d, exit, capacity, left[1..], t.book, row.id);
      PassOnlyAppends(c, d, exit, capacity, left[1..], t.book);
    }
  }

  lemma {:induction false} RestIsOthers(left: seq<Row>)
    requires left != [] && DistinctIds(left)
    ensures !Names(left[1..], left[0].id)
    ensures forall i :: 0 <= i < |left[1..]| ==> EntryRef(left[1..][i].id) != EntryRef(left[0].id)
  {
    forall i | 0 <= i < |left[1..]| ensures left[1..][i].id != left[0].id {
      assert left[1..][i] == left[i + 1];
    }
  }

  /** Row `order[i]` is the first, in query order, of those that are queued for today. */
  predicate FirstDue(order: seq<string>, rows: map<string, Row>, today: int, i: nat) {
    && i < |order| && order[i] in rows && rows[order[i]].state == Queued && rows[order[i]].session == today
    && forall j :: 0 <= j < i ==>
         order[j] in rows && !(rows[order[j]].state == Queued && rows[order[j]].session == today)
  }

  predicate SymbolIsFree(rows: map<string, Row>, symbol: string) {
    forall id :: id in rows && Active(rows[id].state) ==> rows[id].symbol != symbol
  }

  lemma {:induction false} ExpiredKeepsFirst(order: seq<string>, rows: map<string, Row>, today: int, i: nat)
    requires Table(order, rows) && FirstDue(order, rows, today, i)
    ensures var expired := Expired(order, rows, today);
      && Table(order, expired) && FirstDue(order, expired, today, i) && expired[order[i]] == rows[order[i]]
      && ActiveIds(expired) == ActiveIds(rows)
      && (SymbolIsFree(expired, rows[order[i]].symbol) <==> SymbolIsFree(rows, rows[order[i]].symbol))
  {
    var expired := Expired(order, rows, today);
    ExpiredKeepsTable(order, rows, today);
    forall id | id in rows
      ensures id in expired && expired[id] == if rows[id].state == Queued && rows[id].session < today
        then rows[id].(state := EntryWindowMissed) else rows[id]
    {
      ExpiredAt(order, rows, today, id);
    }
    ExpiredAt(order, rows, today, order[i]);
    assert forall id :: id in ActiveIds(expired) <==> id in ActiveIds(rows);
  }

  /** The first due row is the first chosen one if its symbol is free, and a repeat otherwise. */
  lemma {:induction false} FirstIsChosen(order: seq<string>, rows: map<string, Row>, today: int, i: nat)
    requires Table(order, rows) && FirstDue(order, rows, today, i)
    ensures var p, row := Chosen(order, rows, today), rows[order[i]];
      && DistinctIds(p.selected)
      && (SymbolIsFree(rows, row.symbol) ==>
            && p.selected != [] && p.selected[0] == row
            && MarkAll(rows, p.overlapped, OverlapSuppressed).Keys == rows.Keys
            && MarkAll(rows, p.overlapped, OverlapSuppressed)[row.id] == row)
      && (!SymbolIsFree(rows, row.symbol) ==>
            && !Names(p.selected, row.id)
            && row.id in MarkAll(rows, p.overlapped, OverlapSuppressed)
            && MarkAll(rows, p.overlapped, OverlapSuppressed)[row.id] == row.(state := OverlapSuppressed))
  {
    var row, due, active := rows[order[i]], Select(order, rows, IsDue(today)), Select(order, rows, IsActive());
    var p := Chosen(order, rows, today);
    SelectsFirst(order, rows, IsDue(today), i);
    SelectIsExact(order, rows, IsDue(today));
    TakenIsActive(order, rows, row.symbol);
    PicksFirst(due, Symbols(active));
    PickSeparates(due, Symbols(active));
    PickPartitions(due, Symbols(active));
    MarkAllAt(rows, p.overlapped, OverlapSuppressed, row.id);
    SelectedAreDistinct(due, Symbols(active));
    if !SymbolIsFree(rows, row.symbol) {
      assert p.overlapped[0] == row && Names(p.overlapped, row.id);
      forall j | 0 <= j < |p.selected| ensures p.selected[j].id != row.id {
        assert !Names(p.overlapped, p.selected[j].id);
      }
    } else {
      assert !Names(p.overlapped, p.selected[0].id);
    }
  }

  lemma {:induction false} TakenIsActive(order: seq<string>, rows: map<string, Row>, symbol: string)
    requires Table(order, rows)
    ensures symbol in Symbols(Select(order, rows, IsActive())) <==> !SymbolIsFree(rows, symbol)
  {
    var active := Select(order, rows, IsActive());
    SelectIsExact(order, rows, IsActive());
    if !SymbolIsFree(rows, symbol) {
      var id :| id in rows && Active(rows[id].state) && rows[id].symbol == symbol;
      assert rows[id] in active;
      var j :| 0 <= j < |active| && active[j] == rows[id];
    }
    if symbol in Symbols(active) {
      var j :| 0 <= j < |active| && active[j].symbol == symbol;
      assert rows[active[j].id] == active[j];
    }
  }

  lemma {:induction false} SelectedAreDistinct(xs: seq<Row>, taken: set<string>)
    ensures DistinctIds(xs) ==> DistinctIds(Pick(xs, taken).selected)
    ensures forall i :: 0 <= i < |Pick(xs, taken).selected| ==> Pick(xs, taken).selected[i] in xs
  {
    if xs != [] {
      SelectedAreDistinct(Init(xs), taken);
      if DistinctIds(xs) {
        LastIsNew(xs);
      }
    }
  }

  /** Everything but the candidate itself lets the first candidate of a pass be sent. */
  predicate PassIsOpen(c: Config, m: Moment, rows: map<string, Row>) {
    && c.opensAt <= m.time < c.closesAt
    && |ActiveIds(rows)| < c.slots
    && exists day :: day in m.sessions && HoldsThrough(c, m, day)
  }

  /** What an open pass does with its first due row. */
  lemma {:induction false} SubmissionDecidesFirst(
    c: Config, d: Desk, cash: real, exit: int, today: int, order: seq<string>, rows: map<string, Row>,
    orders: seq<Order>, i: nat)
    requires Table(order, rows) && FirstDue(order, rows, today, i) && Capacity(c, order, rows) > 0
    ensures var row, after := rows[order[i]], Submission(c, d, cash, ExitOn(exit), today, order, rows, orders).book;
      && (SentFirst(orders, after.orders, row.id) <==>
            && SymbolIsFree(rows, row.symbol)
            && Ceiling(c, row) <= cash && PreviewPasses(c, row, d.preview(row))
            && d.onTime(row) && !d.send(row).Refused?)
      && (SentFirst(orders, after.orders, row.id) ==>
            && after.orders[|orders|] ==
               Order(d.send(row).order, EntryRef(row.id), "presubmitted", 0, row.quantity, 0.0)
            && row.id in after.rows && after.rows[row.id].exit == Some(exit)
            && (d.send(row).Accepted? ==>
                  after.rows[row.id] == row.(
                    exit := Some(exit), state := Submitted, parent := Some(d.send(row).order),
                    held := Some(row.quantity))))
      && (!SymbolIsFree(rows, row.symbol) ==>
            row.id in after.rows && after.rows[row.id] == row.(state := OverlapSuppressed))
      && (SymbolIsFree(rows, row.symbol) && Ceiling(c, row) > cash ==>
            row.id in after.rows && after.rows[row.id] == row.(state := CashSuppressed))
  {
    var row, p, capacity := rows[order[i]], Chosen(order, rows, today), Capacity(c, order, rows);
    var b := Book(MarkAll(rows, p.overlapped, OverlapSuppressed), orders, cash, 0, 0.0);
    FirstIsChosen(order, rows, today, i);
    if SymbolIsFree(rows, row.symbol) {
      FirstTurn(c, d, exit, capacity, p.selected, b);
    } else {
      PassKeepsOthers(c, d, exit, capacity, p.selected, b, row.id);
      PassOnlyAppends(c, d, exit, capacity, p.selected, b);
      assert forall j :: 0 <= j < |p.selected| ==> p.selected[j].id != row.id;
    }
  }

  /**
   The first candidate due today is sent exactly when the pass is open, no active row has its symbol, both
   settled and available cash less the reserve cover its ceiling, its preview passes, it is still on time
   and the broker takes it.  It carries the exit of the holding that starts today.
   */
  lemma {:induction false} FirstCandidateIsSentExactlyWhen(
    c: Config, d: Desk, a: Account, m: Moment, order: seq<string>, rows: map<string, Row>, orders: seq<Order>, i: nat)
    requires Table(order, rows) && Increasing(m.sessions) && c.sessions >= 1
    requires FirstDue(order, rows, m.today, i)
    ensures var row, after := rows[order[i]], EntryPass(c, d, a, m, order, rows, orders).book;
      && (SentFirst(orders, after.orders, row.id) <==>
            && PassIsOpen(c, m, rows) && SymbolIsFree(rows, row.symbol)
            && Ceiling(c, row) <= a.settled - c.reserve && Ceiling(c, row) <= a.available - c.reserve
            && PreviewPasses(c, row, d.preview(row)) && d.onTime(row) && !d.send(row).Refused?)
      && (SentFirst(orders, after.orders, row.id) ==>
            && after.orders[|orders|] ==
               Order(d.send(row).order, EntryRef(row.id), "presubmitted", 0, row.quantity, 0.0)
            && row.id in after.rows && after.rows[row.id].exit.Some?
            && HoldsThrough(c, m, after.rows[row.id].exit.value)
            && (d.send(row).Accepted? ==>
                  after.rows[row.id] == row.(
                    exit := after.rows[row.id].exit, state := Submitted, parent := Some(d.send(row).order),
                    held := Some(row.quantity))))
      && (PassIsOpen(c, m, rows) && !SymbolIsFree(rows, row.symbol) ==>
            row.id in after.rows && after.rows[row.id] == row.(state := OverlapSuppressed))
      && (&& PassIsOpen(c, m, rows) && SymbolIsFree(rows, row.symbol)
          && (Ceiling(c, row) > a.settled - c.reserve || Ceiling(c, row) > a.available - c.reserve) ==>
            row.id in after.rows && after.rows[row.id] == row.(state := CashSuppressed))
  {
    var expired, row := Expired(order, rows, m.today), rows[order[i]];
    ExpiredKeepsFirst(order, rows, m.today, i);
    ActiveCount(order, expired);
    OpenPassExits(c, m, rows);
    if PassIsOpen(c, m, rows) {
      SubmissionDecidesFirst(c, d, Cash(c, a), PlannedExit(c, m).day, m.today, order, expired, orders, i);
    }
  }

  lemma {:induction false} OpenPassExits(c: Config, m: Moment, rows: map<string, Row>)
    requires Increasing(m.sessions) && c.sessions >= 1
    ensures PassIsOpen(c, m, rows) <==> PlannedExit(c, m).ExitOn? && |ActiveIds(rows)| < c.slots
    ensures PlannedExit(c, m).ExitOn? ==> HoldsThrough(c, m, PlannedExit(c, m).day)
    ensures !PlannedExit(c, m).PlanRaises?
  {
    ExitIsNthSession(c, m, 0);
    if PlannedExit(c, m).ExitOn? {
      ExitIsNthSession(c, m, PlannedExit(c, m).day);
    }
    forall day | day in m.sessions && HoldsThrough(c, m, day) && c.opensAt <= m.time < c.closesAt
      ensures PlannedExit(c, m).ExitOn?
    {
      ExitIsNthSession(c, m, day);
    }
  }

  // ---- what all orders of a pass cost ------------------------------------------------------------------------

  /** What an entry order for a row of the ledger needs: its price at the cushion, the fee asked and one more. */
  function ChargeOf(c: Config, d: Desk, rows: map<string, Row>, o: Order): real {
    match o.ref
    case ExitRef(_, _) => 0.0
    case EntryRef(id) =>
      if id !in rows || d.preview(rows[id]) == None then 0.0
      else
        var p := d.preview(rows[id]).value;
        o.remaining as real * rows[id].reference * (1.0 + c.cushion)
        + Fee(c, p) + c.maxCommission
  }

  function Charges(c: Config, d: Desk, rows: map<string, Row>, os: seq<Order>): real {
    if os == [] then 0.0 else ChargeOf(c, d, rows, os[0]) + Charges(c, d, rows, os[1..])
  }

  /** The rows a pass works through are copies of ledger rows. */
  predicate FromLedger(rows: map<string, Row>, left: seq<Row>) {
    forall i :: 0 <= i < |left| ==> left[i].id in rows && rows[left[i].id] == left[i]
  }

  lemma {:induction false} TurnCharges(
    c: Config, d: Desk, rows: map<string, Row>, exit: int, capacity: nat, left: seq<Row>, b: Book)
    requires left != [] && FromLedger(rows, left)
    ensures var after := After(Settle(d, exit, left, b, Decide(c, d, capacity, left[0], b)));
      b.orders <= after.orders && after.spent - b.spent == Charges(c, d, rows, after.orders[|b.orders|..])
  {
    var v := Decide(c, d, capacity, left[0], b);
    var after := After(Settle(d, exit, left, b, v));
    var sent := after.orders[|b.orders|..];
    SubmittedExactlyWhen(c, left[0], d.preview(left[0]), b.cash, left[0].quantity as real * left[0].reference);
    if sent != [] {
      assert sent[1..] == [] && ChargeOf(c, d, rows, sent[0]) == v.required;
    }
  }

  lemma {:induction false} PassCharges(
    c: Config, d: Desk, rows: map<string, Row>, exit: int, capacity: nat, left: seq<Row>, b: Book)
    requires FromLedger(rows, left)
    ensures var after := Pass(c, d, exit, capacity, left, b).book;
      b.orders <= after.orders && after.spent - b.spent == Charges(c, d, rows, after.orders[|b.orders|..])
    decreases |left|
  {
    if left != [] {
      var t := Settle(d, exit, left, b, Decide(c, d, capacity, left[0], b));
      TurnCharges(c, d, rows, exit, capacity, left, b);
      if t.Next? {
        PassCharges(c, d, rows, exit, capacity, left[1..], t.book);
        var after := Pass(c, d, exit, capacity, left, b).book;
        ChargesAdd(c, d, rows, t.book.orders[|b.orders|..], after.orders[|t.book.orders|..]);
        assert after.orders[|b.orders|..] == t.book.orders[|b.orders|..] + after.orders[|t.book.orders|..];
      }
    }
  }

  lemma {:induction false} ChargesAdd(c: Config, d: Desk, rows: map<string, Row>, xs: seq<Order>, ys: seq<Order>)
    ensures Charges(c, d, rows, xs + ys) == Charges(c, d, rows, xs) + Charges(c, d, rows, ys)
  {
    if xs == [] {
      assert xs + ys == ys;
    } else {
      assert (xs + ys)[1..] == xs[1..] + ys;
      ChargesAdd(c, d, rows, xs[1..], ys);
    }
  }

  /**
   All orders of a pass together, each at its cushion price with its fee and one full commission more, are
   covered by settled and by available cash less the reserve, and they fit the slots that were free.
   */
  lemma {:induction false} AllOrdersAreCovered(
    c: Config, d: Desk, a: Account, m: Moment, order: seq<string>, rows: map<string, Row>, orders: seq<Order>)
    requires Table(order, rows)
    ensures var after := EntryPass(c, d, a, m, order, rows, orders).book;
      && orders <= after.orders
      && var sent := after.orders[|orders|..];
      && (sent != [] ==>
            && Charges(c, d, rows, sent) <= a.settled - c.reserve
            && Charges(c, d, rows, sent) <= a.available - c.reserve
            && |ActiveIds(rows)| + |sent| <= c.slots)
  {
    var expired, after := Expired(order, rows, m.today), EntryPass(c, d, a, m, order, rows, orders).book;
    EntryPassSpendsAtMostCash(c, d, a, m, order, rows, orders);
    ExpiredKeepsTable(order, rows, m.today);
    ExpiredKeepsActive(order, rows, m.today);
    ActiveCount(order, expired);
    if PlannedExit(c, m).ExitOn? && Capacity(c, order, expired) > 0 {
      var p := Chosen(order, expired, m.today);
      ChosenFromLedger(order, rows, m.today);
      PassCharges(
        c, d, rows, PlannedExit(c, m).day, Capacity(c, order, expired), p.selected,
        Book(MarkAll(expired, p.overlapped, OverlapSuppressed), orders, Cash(c, a), 0, 0.0));
    }
  }

  lemma {:induction false} ExpiredKeepsActive(order: seq<string>, rows: map<string, Row>, today: int)
    requires Table(order, rows)
    ensures ActiveIds(Expired(order, rows, today)) == ActiveIds(rows)
  {
    var expired := Expired(order, rows, today);
    forall id ensures id in ActiveIds(expired) <==> id in ActiveIds(rows) {
      ExpiredAt(order, rows, today, id);
    }
  }

  lemma {:induction false} ChosenFromLedger(order: seq<string>, rows: map<string, Row>, today: int)
    requires Table(order, rows)
    ensures FromLedger(rows, Chosen(order, Expired(order, rows, today), today).selected)
  {
    var expired := Expired(order, rows, today);
    var due := Select(order, expired, IsDue(today));
    ExpiredKeepsTable(order, rows, today);
    SelectIsExact(order, expired, IsDue(today));
    PickSeparates(due, Symbols(Select(order, expired, IsActive())));
    var selected := Chosen(order, expired, today).selected;
    forall i | 0 <= i < |selected| ensures selected[i].id in rows && rows[selected[i].id] == selected[i] {
      assert selected[i] in due;
      ExpiredAt(order, rows, today, selected[i].id);
    }
  }
}
