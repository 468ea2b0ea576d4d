/**
 The canary's ledger object: one live cycle adopts, reconciles, sends due exits and, if every gate is
 open, submits entries.
 */
module CanaryLive {
  import opened Prelude
  import opened Canary
  import opened CanaryRunner
  import opened CanaryEntries
  import opened CanaryReconcile

  // ---- the gates before entries ------------------------------------------------------------------------

  function OpenOrders(seen: seq<Order>): nat {
    if seen == [] then 0 else OpenOrders(Init(seen)) + if Working(Some(Last(seen))) then 1 else 0
  }

  /** Every holding belongs to an active row. */
  predicate HoldingsKnown(a: Account, rows: map<string, Row>) {
    forall symbol :: symbol in a.positions && a.positions[symbol] != 0 ==>
      exists id :: id in rows && Active(rows[id].state) && rows[id].symbol == symbol
  }

  /** Every open or closing row is held. */
  predicate RowsHeld(a: Account, rows: map<string, Row>) {
    forall id :: id in rows && (rows[id].state == Open || rows[id].state == Closing) ==>
      Position(a, rows[id].symbol) != 0
  }

  /** Why the account forbids entries, or that it is ready. */
  function AccountGate(c: Config, a: Account, seen: seq<Order>, rows: map<string, Row>): string {
    if c.account.Some? && a.name != c.account.value then "configured_account_mismatch"
    else if a.net <= 0.0 || a.settled < c.reserve then "insufficient_or_unsettled_cash"
    else if !HoldingsKnown(a, rows) then "unexpected_broker_position"
    else if !RowsHeld(a, rows) then "expected_broker_position_missing"
    else if a.openOrders > OpenOrders(seen) then "unexpected_non_canary_open_order"
    else "account_ready"
  }

  /** The account is ready exactly when every holding and open order is accounted for and cash suffices. */
  lemma {:induction false} GateOpensExactlyWhen(c: Config, a: Account, seen: seq<Order>, rows: map<string, Row>)
    ensures AccountGate(c, a, seen, rows) == "account_ready" <==>
      && (c.account.Some? ==> a.name == c.account.value)
      && a.net > 0.0 && a.settled >= c.reserve
      && HoldingsKnown(a, rows) && RowsHeld(a, rows)
      && a.openOrders <= OpenOrders(seen)
  {
  }

  lemma {:induction false} AllowedMeansKnown(
    c: Config, k: Report, calendarOpen: bool, m: Moment, adopted: map<string, Row>, rows: map<string, Row>)
    requires EntriesAllowed(c, k, calendarOpen, m, adopted, rows)
    ensures calendarOpen && HoldingsKnown(k.account, adopted) && RowsHeld(k.account, adopted)
  {
    GateOpensExactlyWhen(c, k.account, k.seen, adopted);
  }

  predicate ExitsPlanned(rows: map<string, Row>) {
    forall id :: id in rows && (rows[id].state == Open || rows[id].state == Closing) ==> rows[id].exit.Some?
  }

  /** The account as adoption left the rows, the calendar, and the exits as reconciliation left them. */
  predicate EntriesAllowed(
    c: Config, k: Report, calendarOpen: bool, m: Moment, adopted: map<string, Row>, rows: map<string, Row>)
  {
    && AccountGate(c, k.account, k.seen, adopted) == "account_ready"
    && calendarOpen
    && ExitsPlanned(rows)
    && HorizonComplete(c, m)
  }

  // ---- one live cycle ---------------------------------------------------------------------------------

  /** Reconciliation, then the exits that are due, up to the first broker call that raises. */
  function Exited(c: Config, k: Report, e: ExitDesk, order: seq<string>, rows: map<string, Row>): Swept {
    var s := Reconciliation(k, order, rows);
    if s.raised then s else SweepQuery(order, s.rows, IsExitDue(e.today), TimedOut(c, e))
  }

  /** An allowed cycle ends with the entry pass over the rows the exits left; any other sends no entry. */
  function LiveCycle(
    c: Config, k: Report, e: ExitDesk, calendarOpen: bool, d: Desk, m: Moment, order: seq<string>,
    rows: map<string, Row>, orders: seq<Order>): Passed
  {
    var adopted := Adopted(k.seen, rows);
    var s := Exited(c, k, e, order, adopted);
    if !s.raised && EntriesAllowed(c, k, calendarOpen, m, adopted, s.rows) then
      EntryPass(c, d, k.account, m, order, s.rows, orders)
    else Passed(Book(s.rows, orders, 0.0, 0, 0.0), s.raised)
  }

  function Outcome(p: Passed): Result<nat> {
    if p.raised then Rejected("broker call failed") else Ok(p.book.submitted)
  }

  lemma {:induction false} MarkAllAppends(rows: map<string, Row>, xs: seq<Row>, x: Row, state: State)
    ensures MarkAll(rows, xs + [x], state) == Marked(MarkAll(rows, xs, state), x.id, state)
    decreases |xs|
  {
    if xs != [] {
      assert (xs + [x])[1..] == xs[1..] + [x];
      MarkAllAppends(Marked(rows, xs[0].id, state), xs[1..], x, state);
    }
  }

  lemma {:induction false} UpdateKeepsTable(order: seq<string>, rows: map<string, Row>, row: Row)
    requires Table(order, rows) && row.id in rows
    ensures Table(order, rows[row.id := row])
  {
  }

  lemma {:induction false} MarkedKeepsTable(order: seq<string>, rows: map<string, Row>, id: string, state: State)
    requires Table(order, rows)
    ensures Table(order, Marked(rows, id, state))
  {
  }

  lemma {:induction false} InsertKeepsTable(order: seq<string>, rows: map<string, Row>, row: Row, position: nat)
    requires Table(order, rows) && row.id !in rows && position <= |order|
    ensures Table(order[..position] + [row.id] + order[position..], rows[row.id := row])
  {
    var next := order[..position] + [row.id] + order[position..];
    forall k | 0 <= k < |next|
      ensures next[k] == if k < position then order[k] else if k == position then row.id else order[k - 1]
    {
    }
    forall id ensures id in next <==> id in order || id == row.id {
      InsertMembers(order, row.id, position, id);
    }
  }

  lemma {:induction false} InsertMembers(order: seq<string>, added: string, position: nat, id: string)
    requires position <= |order|
    ensures id in order[..position] + [added] + order[position..] <==> id in order || id == added
  {
    assert order == order[..position] + order[position..];
  }

  lemma {:induction false} SoundCarries(slots: int, w: World, w': World)
    requires Reaches(slots, w, w')
    ensures Sound(slots, w) ==> Sound(slots, w')
  {
    if Sound(slots, w) {
      ReachingKeepsSound(slots, w, w');
    }
  }

  // ---- the ledger object --------------------------------------------------------------------------------------

  class Runner {
    const config: Config
    var order: seq<string>
    var rows: map<string, Row>
    /** Every entry order the broker ever accepted. */
    var orders: seq<Order>

    predicate Valid()
      reads this
    {
      Table(order, rows)
    }

    constructor (c: Config)
      ensures Valid() && config == c && rows == map[] && orders == []
    {
      config, order, rows, orders := c, [], map[], [];
    }

    /** Discovery between cycles: a packet seen before is ignored, a new one enters without an exit session. */
    method InsertCandidate(row: Row, position: nat)
      requires Valid() && position <= |order|
      requires (row.state == Queued || row.state == Ineligible) && row.exit == None
      modifies this`order, this`rows
      ensures Valid()
      ensures rows == if row.id in old(rows) then old(rows) else old(rows)[row.id := row]
      ensures Sound(config.slots, World(old(rows), orders, Down)) ==> Sound(config.slots, World(rows, orders, Down))
    {
      if row.id in rows {
        return;
      }
      ghost var before := World(rows, orders, Down);
      if Sound(config.slots, before) {
        StepKeepsSound(config.slots, before, Detect(row));
      }
      InsertKeepsTable(order, rows, row, position);
      order := order[..position] + [row.id] + order[position..];
      rows := rows[row.id := row];
    }

    /** The broker's own changes between cycles: fills, cancellations, rejections. */
    method BrokerChanges(after: seq<Order>)
      requires Valid() && Evolves(orders, after)
      modifies this`orders
      ensures Valid() && orders == after
      ensures Sound(config.slots, World(rows, old(orders), Down)) ==> Sound(config.slots, World(rows, orders, Down))
    {
      ghost var before := World(rows, orders, Down);
      if Sound(config.slots, before) {
        StepKeepsSound(config.slots, before, BrokerMoves(after));
      }
      orders := after;
    }

    /** One query and one committed update per row it returns, up to the first that raises. */
    method UpdateEach(p: Row -> bool, f: Row -> Change) returns (raised: bool)
      requires Valid() && forall row :: f(row).row.id == row.id
      modifies this`rows
      ensures Valid()
      ensures Swept(rows, raised) == SweepQuery(order, old(rows), p, f)
    {
      var xs := Select(order, rows, p);
      SelectIsExact(order, rows, p);
      for i := 0 to |xs|
        invariant Table(order, rows)
        invariant forall j :: i <= j < |xs| ==> xs[j].id in rows
        invariant Sweep(rows, xs[i..], f) == Sweep(old(rows), xs, f)
      {
        assert xs[i..][0] == xs[i] && xs[i..][1..] == xs[i + 1..];
        var change := f(xs[i]);
        UpdateKeepsTable(order, rows, change.row);
        rows := rows[xs[i].id := change.row];
        if change.raised {
          return true;
        }
      }
      return false;
    }

    /** Two loops: queued rows with a live entry order, then open rows with a live exit order. */
    method AdoptBrokerOrders(seen: seq<Order>)
      requires Valid()
      modifies this`rows
      ensures Valid() && rows == Adopted(seen, old(rows))
    {
      AdoptionComposes(seen, rows);
      var raised := UpdateEach(IsQueued(), Surely(AdoptedEntry(seen)));
      SureQuery(order, old(rows), IsQueued(), AdoptedEntry(seen));
      ghost var half := rows;
      raised := UpdateEach(IsUnexited(), Surely(AdoptedExit(seen)));
      SureQuery(order, half, IsUnexited(), AdoptedExit(seen));
    }

    method SubmitDueTimeExits(e: ExitDesk) returns (raised: bool)
      requires Valid()
      modifies this`rows
      ensures Valid()
      ensures Swept(rows, raised) == SweepQuery(order, old(rows), IsExitDue(e.today), TimedOut(config, e))
    {
      raised := UpdateEach(IsExitDue(e.today), TimedOut(config, e));
    }

    /** Three loops; the rows protected by the first are skipped by the second. */
    method ReconcileOrders(k: Report) returns (raised: bool)
      requires Valid()
      modifies this`rows
      ensures Valid()
      ensures Swept(rows, raised) == Reconciliation(k, order, old(rows))
      ensures !raised ==> rows == Mapped(old(rows), (row: Row) => Reconciled(k, row))
    {
      ghost var before := rows;
      var newlyProtected := ProtectedNow(k, rows);
      forall row
        ensures Entered(k)(row).row.id == row.id && Watched(k)(row).row.id == row.id
        ensures Lapsed(k)(row).row.id == row.id
      {
        ChangesKeepIds(k, row);
      }
      raised := UpdateEach(IsSubmitted(), Entered(k));
      if !raised {
        raised := UpdateEach(IsWatched(newlyProtected), Watched(k));
        if !raised {
          raised := UpdateEach(IsSubmitted(), Lapsed(k));
        }
      }
      if !raised {
        ReconciliationComposes(k, order, before);
      }
    }

    method MarkEach(xs: seq<Row>, state: State)
      requires Valid()
      modifies this`rows
      ensures Valid() && rows == MarkAll(old(rows), xs, state)
    {
      for i := 0 to |xs|
        invariant Table(order, rows) && MarkAll(rows, xs[i..], state) == MarkAll(old(rows), xs, state)
      {
        assert xs[i..][1..] == xs[i + 1..];
        MarkedKeepsTable(order, rows, xs[i].id, state);
        rows := Marked(rows, xs[i].id, state);
      }
    }

    /** Suppresses candidates whose symbol is active or already chosen, and returns the others. */
    method ChooseDue(today: int) returns (selected: seq<Row>)
      requires Valid()
      modifies this`rows
      ensures Valid()
      ensures var p := Chosen(order, old(rows), today);
        selected == p.selected && rows == MarkAll(old(rows), p.overlapped, OverlapSuppressed)
    {
      var due := Select(order, rows, IsDue(today));
      var symbols := Symbols(Select(order, rows, IsActive()));
      ghost var taken, overlapped: seq<Row> := symbols, [];
      selected := [];
      for i := 0 to |due|
        invariant Table(order, rows)
        invariant Picked(selected, overlapped, symbols) == Pick(due[..i], taken)
        invariant rows == MarkAll(old(rows), overlapped, OverlapSuppressed)
      {
        assert Init(due[..i + 1]) == due[..i] && Last(due[..i + 1]) == due[i];
        if due[i].symbol in symbols {
          MarkAllAppends(old(rows), overlapped, due[i], OverlapSuppressed);
          overlapped := overlapped + [due[i]];
          rows := Marked(rows, due[i].id, OverlapSuppressed);
        } else {
          symbols := symbols + {due[i].symbol};
          selected := selected + [due[i]];
        }
      }
      assert due[..|due|] == due;
    }

    /** The exit session is committed before the send; an exception leaves the ledger where it stands. */
    method SendOne(d: Desk, exit: int, left: seq<Row>, required: real, ghost b: Book) returns (ended: Option<bool>)
      requires Valid() && left != [] && b.rows == rows && b.orders == orders
      modifies this`rows, this`orders
      ensures Valid()
      ensures match Settle(d, exit, left, b, Submit(required))
        case Next(book) => ended == None && rows == book.rows && orders == book.orders
        case Stop(passed) => ended == Some(passed.raised) && rows == passed.book.rows && orders == passed.book.orders
    {
      var row := left[0];
      if !d.onTime(row) {
        MarkEach(left, EntryWindowMissed);
        return Some(false);
      }
      rows := WithExit(rows, row.id, exit);
      var sending := d.send(row);
      if sending.Refused? {
        return Some(true);
      }
      orders := orders + [EntryOrder(row, sending.order)];
      if sending.Lost? {
        return Some(true);
      }
      rows := Recorded(rows, row.id, sending.order, row.quantity);
      return None;
    }

    method SendSelected(d: Desk, exit: int, capacity: nat, available: real, selected: seq<Row>) returns (r: Result<nat>)
      requires Valid()
      modifies this`rows, this`orders
      ensures Valid()
      ensures var p := Pass(config, d, exit, capacity, selected, Book(old(rows), old(orders), available, 0, 0.0));
        rows == p.book.rows && orders == p.book.orders && r == Outcome(p)
    {
      var b := Book(rows, orders, available, 0, 0.0);
      ghost var whole := Pass(config, d, exit, capacity, selected, b);
      for index := 0 to |selected|
        invariant Valid() && b.rows == rows && b.orders == orders
        invariant Pass(config, d, exit, capacity, selected[index..], b) == whole
      {
        var row, left := selected[index], selected[index..];
        assert left[0] == row && left[1..] == selected[index + 1..];
        var verdict := Decide(config, d, capacity, row, b);
        var ended, next := TakeTurn(d, exit, left, verdict, b);
        if ended.Some? {
          return if ended.value then Rejected("broker call failed") else Ok(next.submitted);
        }
        b := next;
      }
      return Ok(b.submitted);
    }

    /** Acts on the verdict about the first candidate left, and says whether and how the pass ended. */
    method TakeTurn(
      d: Desk, exit: int, left: seq<Row>, verdict: Verdict, b: Book) returns (ended: Option<bool>, next: Book)
      requires Valid() && left != [] && b.rows == rows && b.orders == orders
      modifies this`rows, this`orders
      ensures Valid() && next.rows == rows && next.orders == orders
      ensures match Settle(d, exit, left, b, verdict)
        case Next(book) => ended == None && next == book
        case Stop(passed) =>
          && ended == Some(passed.raised) && rows == passed.book.rows && orders == passed.book.orders
          && next.submitted == passed.book.submitted
    {
      match verdict
      case Raise => return Some(true), b;
      case Reject(outcome) =>
        MarkedKeepsTable(order, rows, left[0].id, outcome);
        rows := Marked(rows, left[0].id, outcome);
        return None, b.(rows := rows);
      case Submit(required) =>
        ended := SendOne(d, exit, left, required, b);
        next := if ended.Some? then b.(rows := rows, orders := orders)
        else Book(rows, orders, b.cash - required, b.submitted + 1, b.spent + required);
    }

    method SubmitDueEntries(d: Desk, a: Account, m: Moment) returns (r: Result<nat>)
      requires Valid()
      modifies this`rows, this`orders
      ensures Valid()
      ensures var p := EntryPass(config, d, a, m, order, old(rows), old(orders));
        rows == p.book.rows && orders == p.book.orders && r == Outcome(p)
      ensures old(orders) <= orders
      ensures orders != old(orders) ==>
        var charges := Charges(config, d, old(rows), orders[|old(orders)|..]);
        charges <= a.settled - config.reserve && charges <= a.available - config.reserve
    {
      AllOrdersAreCovered(config, d, a, m, order, rows, orders);
      MarkEach(Select(order, rows, IsLate(m.today)), EntryWindowMissed);
      var plan := PlannedExit(config, m);
      if plan.PlanRaises? {
        return Rejected("broker call failed");
      }
      if plan.NoEntry? {
        return Ok(0);
      }
      var capacity := Capacity(config, order, rows);
      if capacity == 0 {
        return Ok(0);
      }
      var selected := ChooseDue(m.today);
      r := SendSelected(d, plan.day, capacity, Cash(config, a), selected);
    }

    /**
     One live cycle: adopt, reconcile, send due exits, then enter if the gates are open.  Whatever the
     broker answers, and wherever it raises, a ledger that was sound before the cycle is sound after it.
     */
    method RunLive(k: Report, e: ExitDesk, calendarOpen: bool, d: Desk, m: Moment) returns (r: Result<nat>)
      requires Valid() && Reports(orders, k.seen)
      modifies this`rows, this`orders
      ensures Valid()
      ensures var p := LiveCycle(config, k, e, calendarOpen, d, m, order, old(rows), old(orders));
        rows == p.book.rows && orders == p.book.orders && r == Outcome(p)
      ensures Reaches(config.slots, World(old(rows), old(orders), Down), World(rows, orders, Down))
      ensures Sound(config.slots, World(old(rows), old(orders), Down)) ==>
        Sound(config.slots, World(rows, orders, Down))
      ensures orders != old(orders) ==>
        var adopted := Adopted(k.seen, old(rows));
        calendarOpen && HoldingsKnown(k.account, adopted) && RowsHeld(k.account, adopted)
    {
      ghost var slots, start := config.slots, World(rows, orders, Down);
      var adopted := AdoptListed(k.seen);
      var raised := ReconcileAndExit(k, e);
      ghost var ready := World(rows, orders, Ready);
      Through(slots, start, World(adopted, orders, Ready), ready);
      var allowed := !raised && EntriesAllowed(config, k, calendarOpen, m, adopted, rows);
      ghost var reconciled := rows;
      r := EnterIfAllowed(allowed, k.account, d, m);
      Through(slots, start, ready, World(rows, orders, Down));
      if raised {
        r := Rejected("broker call failed");
      }
      SoundCarries(slots, start, World(rows, orders, Down));
      if allowed {
        AllowedMeansKnown(config, k, calendarOpen, m, adopted, reconciled);
      }
    }

    method EnterIfAllowed(allowed: bool, a: Account, d: Desk, m: Moment) returns (r: Result<nat>)
      requires Valid()
      modifies this`rows, this`orders
      ensures Valid()
      ensures Reaches(config.slots, World(old(rows), old(orders), Ready), World(rows, orders, Down))
      ensures !allowed ==> rows == old(rows) && orders == old(orders) && r == Ok(0)
      ensures allowed ==>
        var p := EntryPass(config, d, a, m, order, old(rows), old(orders));
        rows == p.book.rows && orders == p.book.orders && r == Outcome(p)
    {
      ghost var ready := World(rows, orders, Ready);
      if allowed {
        EntryPassRuns(config, d, a, m, order, rows, orders);
        r := SubmitDueEntries(d, a, m);
      } else {
        Stays(config.slots, ready);
        Further(config.slots, ready, ready, Crash);
        r := Ok(0);
      }
    }

    method AdoptListed(seen: seq<Order>) returns (adopted: map<string, Row>)
      requires Valid() && Reports(orders, seen)
      modifies this`rows
      ensures Valid() && adopted == rows == Adopted(seen, old(rows))
      ensures Reaches(config.slots, World(old(rows), orders, Down), World(rows, orders, Ready))
    {
      ghost var slots, start := config.slots, World(rows, orders, Down);
      Stays(slots, start);
      Further(slots, start, start, List(seen));
      AdoptionRuns(slots, order, rows, orders, seen);
      ghost var listed := World(rows, orders, Listing(seen));
      AdoptBrokerOrders(seen);
      Through(slots, start, listed, World(rows, orders, Ready));
      adopted := rows;
    }

    method ReconcileAndExit(k: Report, e: ExitDesk) returns (raised: bool)
      requires Valid()
      modifies this`rows
      ensures Valid()
      ensures Swept(rows, raised) == Exited(config, k, e, order, old(rows))
      ensures Reaches(config.slots, World(old(rows), orders, Ready), World(rows, orders, Ready))
    {
      ghost var slots, start := config.slots, World(rows, orders, Ready);
      ReconciliationRuns(slots, order, rows, orders, k);
      raised := ReconcileOrders(k);
      if !raised {
        ghost var reconciled := World(rows, orders, Ready);
        TimedExitsRun(slots, order, reconciled, config, e);
        raised := SubmitDueTimeExits(e);
        Through(slots, start, reconciled, World(rows, orders, Ready));
      }
    }
  }
}
