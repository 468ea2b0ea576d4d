/**
 One live cycle as a whole, told on the ledger's columns: what each loop leaves of every row, where an
 interrupted loop stops, and when the cycle goes on to entries.
 */
module CanaryCycles {
  import opened Prelude
  import opened Canary
  import opened CanaryRunner
  import opened CanaryEntries
  import opened CanaryReconcile
  import opened CanaryLive

  // ---- loops ----------------------------------------------------------------------------------------------

  /** A loop raises exactly when one of its rows does, and stops after the first that does. */
  lemma {:induction false} SweepStopsAtFirst(rows: map<string, Row>, xs: seq<Row>, f: Row -> Change, n: nat)
    requires n <= |xs| && (n < |xs| ==> f(xs[n]).raised) && forall i :: 0 <= i < n ==> !f(xs[i]).raised
    ensures var done := if n < |xs| then n + 1 else n;
      Sweep(rows, xs, f) == Swept(UpdateAll(rows, xs[..done], RowOf(f)), n < |xs|)
    decreases |xs|
  {
    if xs == [] {
      assert xs[..0] == [];
    } else if n == 0 {
      assert xs[..1][1..] == [] && xs[..1][0] == xs[0];
    } else {
      var rest, done := xs[1..], if n < |xs| then n + 1 else n;
      SweepStopsAtFirst(rows[xs[0].id := f(xs[0]).row], rest, f, n - 1);
      assert xs[..done][1..] == rest[..done - 1] && xs[..done][0] == xs[0];
    }
  }

  /** A query lists matching rows in ledger order. */
  lemma {:induction false} SelectInPlace(
    a: seq<string>, id: string, b: seq<string>, rows: map<string, Row>, p: Row -> bool)
    ensures Select(a + [id] + b, rows, p) ==
      Select(a, rows, p) + (if id in rows && p(rows[id]) then [rows[id]] else []) + Select(b, rows, p)
  {
    var xs := a + [id];
    if b == [] {
      assert xs + b == xs && Init(xs) == a && Last(xs) == id;
    } else {
      assert Init(xs + b) == xs + Init(b) && Last(xs + b) == Last(b);
      SelectInPlace(a, id, Init(b), rows, p);
    }
  }

  /** The exits sent are those of open rows whose session has come and that have no timed exit yet. */
  lemma {:induction false} DueExitsExactly(
    c: Config, e: ExitDesk, order: seq<string>, rows: map<string, Row>, id: string)
    requires Table(order, rows) && id in rows
    requires !SweepQuery(order, rows, IsExitDue(e.today), TimedOut(c, e)).raised
    ensures var row, after := rows[id], SweepQuery(order, rows, IsExitDue(e.today), TimedOut(c, e)).rows;
      && after.Keys == rows.Keys
      && after[id] ==
         if row.state == Open && row.timed == None && row.exit.Some? && row.exit.value <= e.today
         then ExitDispatched(c, e, row).row else row
  {
    QueryToTheEnd(order, rows, IsExitDue(e.today), TimedOut(c, e));
  }

  /**
   A reconciliation that nothing interrupts looks at the entry of a submitted row, lets it lapse if it stays
   submitted, and looks at the exits of an open or closing row; no other row changes.
   */
  lemma {:induction false} ReconciledExactly(k: Report, order: seq<string>, rows: map<string, Row>, id: string)
    requires Table(order, rows) && id in rows && !Reconciliation(k, order, rows).raised
    ensures var row, after := rows[id], Reconciliation(k, order, rows).rows;
      && after.Keys == rows.Keys
      && (row.state == Submitted && EntryLookedAt(k, row).row.state != Submitted ==>
            after[id] == EntryLookedAt(k, row).row)
      && (row.state == Submitted && EntryLookedAt(k, row).row.state == Submitted ==>
            after[id] == LapsedRow(k, row).row)
      && (row.state == Open || row.state == Closing ==> after[id] == ExitsLookedAt(k, row).row)
      && (row.state !in {Submitted, Open, Closing} ==> after[id] == row)
  {
    ReconciliationComposes(k, order, rows);
    if rows[id].state == Submitted {
      EnteredMayBecome(k, rows[id]);
    }
  }

  // ---- the gates ----------------------------------------------------------------------------------------------

  function WorkingAt(seen: seq<Order>): set<nat> {
    set i: nat | i < |seen| && seen[i].status in {"pendingsubmit", "presubmitted", "submitted", "pendingcancel"}
  }

  /** The ledger's open orders are the listed ones with a working status. */
  lemma {:induction false} OpenOrdersAreWorking(seen: seq<Order>)
    ensures OpenOrders(seen) == |WorkingAt(seen)|
  {
    if seen != [] {
      var rest, n := Init(seen), |seen| - 1;
      OpenOrdersAreWorking(rest);
      var hit := Last(seen).status in {"pendingsubmit", "presubmitted", "submitted", "pendingcancel"};
      var before, after := WorkingAt(rest), WorkingAt(seen);
      forall i: nat ensures i in after <==> i in before || (hit && i == n) {
      }
      assert after == if hit then before + {n} else before;
    }
  }

  /** Cash, holdings, held rows and open orders of the account are in order. */
  predicate AccountInOrder(c: Config, a: Account, seen: seq<Order>, rows: map<string, Row>) {
    && (c.account.Some? ==> a.name == c.account.value)
    && a.net > 0.0
    && a.settled >= c.reserve
    && (forall symbol :: symbol in a.positions && a.positions[symbol] != 0 ==>
          exists id :: id in rows && rows[id].state in {Submitted, Open, Closing} && rows[id].symbol == symbol)
    && (forall id :: id in rows && rows[id].state in {Open, Closing} ==>
          rows[id].symbol in a.positions && a.positions[rows[id].symbol] != 0)
    && a.openOrders <= |WorkingAt(seen)|
  }

  /**
   Entries are allowed exactly when the account is in order for the rows as adopted, the calendar is open,
   every open or closing row has an exit session, and a whole holding horizon is listed from today.
   */
  lemma {:induction false} EntriesAllowedExactlyWhen(
    c: Config, k: Report, calendarOpen: bool, m: Moment, adopted: map<string, Row>, rows: map<string, Row>)
    requires Increasing(m.sessions) && c.sessions >= 1
    ensures EntriesAllowed(c, k, calendarOpen, m, adopted, rows) <==>
      && AccountInOrder(c, k.account, k.seen, adopted)
      && calendarOpen
      && (forall id :: id in rows && rows[id].state in {Open, Closing} ==> rows[id].exit.Some?)
      && (exists day :: day in m.sessions && HoldsThrough(c, m, day))
  {
    GateOpensExactlyWhen(c, k.account, k.seen, adopted);
    OpenOrdersAreWorking(k.seen);
    HorizonListed(c, m);
    HoldingsMean(k.account, adopted);
  }

  lemma {:induction false} HoldingsMean(a: Account, rows: map<string, Row>)
    ensures HoldingsKnown(a, rows) <==>
      forall symbol :: symbol in a.positions && a.positions[symbol] != 0 ==>
        exists id :: id in rows && rows[id].state in {Submitted, Open, Closing} && rows[id].symbol == symbol
    ensures RowsHeld(a, rows) <==>
      forall id :: id in rows && rows[id].state in {Open, Closing} ==>
        rows[id].symbol in a.positions && a.positions[rows[id].symbol] != 0
  {
  }

  lemma {:induction false} HorizonListed(c: Config, m: Moment)
    requires Increasing(m.sessions) && c.sessions >= 1
    ensures HorizonComplete(c, m) <==> exists day :: day in m.sessions && HoldsThrough(c, m, day)
  {
    var open := c.(opensAt := m.time, closesAt := m.time + 1);
    ExitIsNthSession(open, m, 0);
    if HorizonComplete(c, m) {
      ExitIsNthSession(open, m, PlannedExit(open, m).day);
      assert HoldsThrough(c, m, PlannedExit(open, m).day);
    }
    forall day | day in m.sessions && HoldsThrough(c, m, day) ensures HorizonComplete(c, m) {
      assert HoldsThrough(open, m, day);
      ExitIsNthSession(open, m, day);
    }
  }

  /**
   A cycle adopts, reconciles and sends due exits; it goes on to the entry pass exactly when nothing raised
   and entries are allowed, and otherwise leaves the orders as they were.
   */
  lemma {:induction false} CycleGoesOnExactlyWhen(
    c: Config, k: Report, e: ExitDesk, calendarOpen: bool, d: Desk, m: Moment, order: seq<string>,
    rows: map<string, Row>, orders: seq<Order>)
    ensures var adopted := Adopted(k.seen, rows);
      var reconciled := Reconciliation(k, order, adopted);
      var exits := SweepQuery(order, reconciled.rows, IsExitDue(e.today), TimedOut(c, e));
      var p := LiveCycle(c, k, e, calendarOpen, d, m, order, rows, orders);
      && (reconciled.raised ==> p.raised && p.book.rows == reconciled.rows)
      && (!reconciled.raised && exits.raised ==> p.raised && p.book.rows == exits.rows)
      && (reconciled.raised || exits.raised || !EntriesAllowed(c, k, calendarOpen, m, adopted, exits.rows) ==>
            p.book.orders == orders && p.book.submitted == 0)
      && (!reconciled.raised && !exits.raised ==>
            if EntriesAllowed(c, k, calendarOpen, m, adopted, exits.rows)
            then p == EntryPass(c, d, k.account, m, order, exits.rows, orders)
            else !p.raised && p.book.rows == exits.rows)
  {
  }

  /** Adoption gives every row its adopted form and loses none. */
  lemma {:induction false} AdoptionIsPerRow(seen: seq<Order>, rows: map<string, Row>)
    ensures Adopted(seen, rows).Keys == rows.Keys
    ensures forall id :: id in rows ==> Adopted(seen, rows)[id] == AdoptedRow(seen, rows[id])
  {
  }
}
