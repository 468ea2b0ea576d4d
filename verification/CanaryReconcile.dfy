/**
 One live cycle's work on the rows of the canary ledger: adopting broker orders that survived a
 crash, reconciling rows with what the broker reports, and sending the exits that are due.

 Every broker call may raise; the cycle then ends with the updates committed so far.
 */
module CanaryReconcile {
  import opened Prelude
  import opened Canary
  import opened CanaryRunner

  // ---- looking orders up ---------------------------------------------------------------------

  /** The last order listed under this reference that is not rejected. */
  function LiveByRef(seen: seq<Order>, ref: Ref): (r: Option<Order>)
    ensures r.Some? ==> r.value in seen && r.value.ref == ref && !RejectedStatus(r.value.status)
    ensures r == None ==> forall i :: 0 <= i < |seen| && seen[i].ref == ref ==> RejectedStatus(seen[i].status)
  {
    if seen == [] then None
    else if Last(seen).ref == ref && !RejectedStatus(Last(seen).status) then Some(Last(seen))
    else LiveByRef(Init(seen), ref)
  }

  function ByRef(seen: seq<Order>, ref: Ref): Option<Order> {
    if seen == [] then None
    else if Last(seen).ref == ref then Some(Last(seen))
    else ByRef(Init(seen), ref)
  }

  function ById(seen: seq<Order>, id: Option<int>): Option<Order> {
    if seen == [] || id == None then None
    else if Last(seen).id == id.value then Some(Last(seen))
    else ById(Init(seen), id)
  }

  function OrElse<T>(a: Option<T>, b: Option<T>): Option<T> {
    if a.Some? then a else b
  }

  // ---- adoption ----------------------------------------------------------------------------------

  function LiveExit(seen: seq<Order>, id: string): Option<Order> {
    OrElse(LiveByRef(seen, ExitRef(id, "TIME")),
           OrElse(LiveByRef(seen, ExitRef(id, "OVERDUE")), LiveByRef(seen, ExitRef(id, "QTYFAIL"))))
  }

  function AdoptedEntry(seen: seq<Order>): Row -> Row {
    (row: Row) =>
      match LiveByRef(seen, EntryRef(row.id))
      case Some(order) => SubmittedRow(row, order.id, row.quantity)
      case None => row
  }

  function AdoptedExit(seen: seq<Order>): Row -> Row {
    (row: Row) =>
      match LiveExit(seen, row.id)
      case Some(order) => row.(state := Closing, timed := Some(order.id))
      case None => row
  }

  function IsUnexited(): Row -> bool {
    (row: Row) => row.state == Open && row.timed == None
  }

  // ---- reconciliation -----------------------------------------------------------------------------

  /** What one row becomes, and whether a broker call raised on the way. */
  datatype Change = Change(row: Row, raised: bool)

  /**
   What one reconciliation sees.  The last three answer its calls: the ids of a protective pair, the
   id of a flattening order, and whether cancelling a partly filled entry succeeded.
   */
  datatype Report = Report(
    seen: seq<Order>, account: Account, sessions: seq<int>, today: int, horizon: int,
    bracket: Row -> Option<(int, int)>, flatten: Row -> Option<int>, cancel: Row -> bool)

  function Position(a: Account, symbol: string): int {
    if symbol in a.positions then a.positions[symbol] else 0
  }

  function Cost(a: Account, symbol: string): real {
    if symbol in a.costs then a.costs[symbol] else 0.0
  }

  function From(sessions: seq<int>, day: int): seq<int> {
    if sessions == [] then []
    else From(Init(sessions), day) + if Last(sessions) >= day then [Last(sessions)] else []
  }

  /** The last session of the holding horizon from the entry session, if that many are listed. */
  function ComputedExit(k: Report, row: Row): Result<Option<int>> {
    var future := From(k.sessions, row.session);
    if |future| < k.horizon then Ok(None)
    else
      match ElementAt(future, k.horizon - 1)
      case Some(day) => Ok(Some(day))
      case None => Rejected("index out of range")
  }

  /** Both exits are placed before anything is recorded; a stored exit session wins over one computed now. */
  function Protected(k: Report, row: Row, quantity: int, price: real): Change {
    if k.bracket(row) == None || ComputedExit(k, row).Rejected? then Change(row, true)
    else
      Change(row.(
             state := Open, held := Some(quantity), price := Some(price),
             exit := OrElse(row.exit, ComputedExit(k, row).value),
             target := Some(k.bracket(row).value.0), stop := Some(k.bracket(row).value.1)), false)
  }

  /** A submitted row after its entry order has been looked at. */
  function EntryLookedAt(k: Report, row: Row): Change {
    var position := Position(k.account, row.symbol);
    match ById(k.seen, row.parent)
    case None =>
      var price := Cost(k.account, row.symbol);
      if position > 0 && price > 0.0 then Protected(k, row, position, price) else Change(row, false)
    case Some(order) =>
      if order.filled <= 0 && RejectedStatus(order.status) then Change(row.(state := EntryFailed), false)
      else if order.filled <= 0 || order.price <= 0.0 then Change(row, false)
      else if position <= 0 then Change(row.(state := ClosedUnattributed), false)
      else if order.remaining > 0 && !k.cancel(row) then Change(row, true)
      else Protected(k, row, position, order.price)
  }

  function Entered(k: Report): Row -> Change {
    (row: Row) => EntryLookedAt(k, row)
  }

  predicate Working(order: Option<Order>) {
    order.Some? && order.value.status in {"pendingsubmit", "presubmitted", "submitted", "pendingcancel"}
  }

  predicate FilledExit(order: Option<Order>, position: int) {
    order.Some? && order.value.filled > 0 && (order.value.remaining <= 0 || position == 0)
  }

  predicate CancelledStatus(status: string) {
    RejectedStatus(status) || status == "canceled"
  }

  function TargetOf(k: Report, row: Row): Option<Order> {
    OrElse(ById(k.seen, row.target), ByRef(k.seen, ExitRef(row.id, "TARGET")))
  }

  function StopOf(k: Report, row: Row): Option<Order> {
    OrElse(ById(k.seen, row.stop), ByRef(k.seen, ExitRef(row.id, "STOP")))
  }

  /** A cancelled timed exit leaves shares behind: the row is reopened before anything else. */
  predicate Reopens(k: Report, row: Row) {
    var timed := ById(k.seen, row.timed);
    timed.Some? && CancelledStatus(timed.value.status) && Position(k.account, row.symbol) > 0
  }

  function Reopened(k: Report, row: Row): Row {
    if Reopens(k, row) then row.(state := Open, held := Some(Position(k.account, row.symbol)), timed := None) else row
  }

  predicate ExitFilled(k: Report, row: Row) {
    var position := Position(k.account, row.symbol);
    || FilledExit(StopOf(k, row), position)
    || FilledExit(TargetOf(k, row), position)
    || (!Reopens(k, row) && FilledExit(ById(k.seen, row.timed), position))
  }

  /**
   An open or closing row after its exits have been looked at.  The quantity and the timed exit
   compared at the end are the ones read at the start, even if a cancelled exit was just cleared.
   */
  function ExitsLookedAt(k: Report, row: Row): Change {
    var position, current := Position(k.account, row.symbol), Reopened(k, row);
    var expected := if row.held.Some? then row.held.value else 0;
    if ExitFilled(k, row) then Change(current.(state := Closed), false)
    else if position == 0 && expected > 0 then Change(current.(state := ClosedUnattributed), false)
    else if position > 0 && position != expected && row.timed == None then Flattened(k, row, current)
    else if position > 0 && !(Working(TargetOf(k, row)) && Working(StopOf(k, row))) && RepairPrice(k, row) > 0.0 then
      Repaired(k, row, current)
    else Change(current, false)
  }

  function Watched(k: Report): Row -> Change {
    (row: Row) => ExitsLookedAt(k, row)
  }

  function Flattened(k: Report, row: Row, current: Row): Change {
    match k.flatten(row)
    case Some(id) => Change(current.(state := Closing, timed := Some(id)), false)
    case None => Change(current, true)
  }

  function Repaired(k: Report, row: Row, current: Row): Change {
    match k.bracket(row)
    case Some(ids) => Change(current.(target := Some(ids.0), stop := Some(ids.1)), false)
    case None => Change(current, true)
  }

  function RepairPrice(k: Report, row: Row): real {
    var price := if row.price.Some? then row.price.value else 0.0;
    if price <= 0.0 then Cost(k.account, row.symbol) else price
  }

  /** A submitted row whose session is over with nothing to show for it. */
  function LapsedRow(k: Report, row: Row): Change {
    if row.session < k.today && ById(k.seen, row.parent) == None && Position(k.account, row.symbol) == 0
    then Change(row.(state := EntryExpiredUnknown), false) else Change(row, false)
  }

  function Lapsed(k: Report): Row -> Change {
    (row: Row) => LapsedRow(k, row)
  }

  function IsSubmitted(): Row -> bool {
    (row: Row) => row.state == Submitted
  }

  /** The packets whose entry this reconciliation protects. */
  function ProtectedNow(k: Report, rows: map<string, Row>): set<string> {
    set id | id in rows && rows[id].state == Submitted && Entered(k)(rows[id]).row.state == Open
  }

  function IsWatched(newlyProtected: set<string>): Row -> bool {
    (row: Row) => (row.state == Open || row.state == Closing) && row.id !in newlyProtected
  }

  // ---- exits that are due ----------------------------------------------------------------------------------

  /** When each row's turn comes, the session's hours as the calendar then has them, and the broker's answers. */
  datatype ExitDesk = ExitDesk(
    today: int, day: Row -> int, at: Row -> int, bounds: Row -> Option<(int, int)>, atClose: Row -> Option<int>,
    atMarket: Row -> Option<int>)

  datatype Dispatch = Wait | AtClose | AtMarket

  /** On the exit session a fixed lead before the close, past the cutoff or any later day at market. */
  function Dispatched(c: Config, e: ExitDesk, row: Row): Dispatch
    requires row.exit.Some?
  {
    if row.exit.value < e.day(row) then AtMarket
    else
      match e.bounds(row)
      case None => Wait
      case Some(hours) =>
        if !(hours.0 <= e.at(row) < hours.1) || e.at(row) < hours.1 - c.submitLead then Wait
        else if e.at(row) >= hours.1 - c.cutoffLead then AtMarket
        else AtClose
  }

  function IsExitDue(today: int): Row -> bool {
    (row: Row) => row.state == Open && row.timed == None && row.exit.Some? && row.exit.value <= today
  }

  function ExitDispatched(c: Config, e: ExitDesk, row: Row): Change {
    if row.exit == None || Dispatched(c, e, row).Wait? then Change(row, false)
    else
      var sent := if Dispatched(c, e, row).AtMarket? then e.atMarket(row) else e.atClose(row);
      if row.held == None || sent == None then Change(row, true)
      else Change(row.(state := Closing, timed := sent), false)
  }

  function TimedOut(c: Config, e: ExitDesk): Row -> Change {
    (row: Row) => ExitDispatched(c, e, row)
  }

  // ---- what these may do to a row --------------------------------------------------------------------------------

  lemma {:induction false} EnteredMayBecome(k: Report, row: Row)
    requires row.state == Submitted
    ensures MayBecome(row, EntryLookedAt(k, row).row)
    ensures EntryLookedAt(k, row).row.state == Submitted ==> EntryLookedAt(k, row).row == row
  {
  }

  lemma {:induction false} ReopenedKeeps(k: Report, row: Row)
    requires row.state == Open || row.state == Closing
    ensures var current := Reopened(k, row);
      && (current.state == Open || current.state == Closing)
      && current.id == row.id && current.symbol == row.symbol && current.exit == row.exit
  {
  }

  lemma {:induction false} WatchedMayBecome(k: Report, row: Row)
    requires row.state == Open || row.state == Closing
    ensures MayBecome(row, ExitsLookedAt(k, row).row)
    ensures ExitsLookedAt(k, row).row.state != Submitted
  {
    ReopenedKeeps(k, row);
    ReturnsWithState(k, row, Reopened(k, row));
  }

  /** Whichever branch is taken, only the state, the quantity and order ids of the row change. */
  lemma {:induction false} ReturnsWithState(k: Report, row: Row, current: Row)
    requires current == Reopened(k, row)
    ensures var next := ExitsLookedAt(k, row).row;
      && next.id == current.id && next.symbol == current.symbol && next.exit == current.exit
      && (next.state == current.state || next.state in {Closed, ClosedUnattributed, Closing})
      && (next.state == Closed ==> ExitFilled(k, row) || current.state == Closed)
      && (next.state == ClosedUnattributed ==>
            Position(k.account, row.symbol) == 0 || current.state == ClosedUnattributed)
  {
  }

  lemma {:induction false} ChangesKeepIds(k: Report, row: Row)
    ensures EntryLookedAt(k, row).row.id == row.id
    ensures ExitsLookedAt(k, row).row.id == row.id
    ensures LapsedRow(k, row).row.id == row.id
  {
    ReturnsWithState(k, row, Reopened(k, row));
  }

  // A row stops being active only on evidence: a dead order, a filled exit, or no shares at the broker.

  lemma {:induction false} EntryLeavesOnEvidence(k: Report, row: Row)
    requires row.state == Submitted && !Active(EntryLookedAt(k, row).row.state)
    ensures
      || (ById(k.seen, row.parent).Some? && RejectedStatus(ById(k.seen, row.parent).value.status)
          && ById(k.seen, row.parent).value.filled <= 0)
      || Position(k.account, row.symbol) <= 0
  {
  }

  lemma {:induction false} WatchedLeavesOnEvidence(k: Report, row: Row)
    requires (row.state == Open || row.state == Closing) && !Active(ExitsLookedAt(k, row).row.state)
    ensures ExitFilled(k, row) || Position(k.account, row.symbol) == 0
  {
    ReopenedKeeps(k, row);
    ReturnsWithState(k, row, Reopened(k, row));
  }

  /** In an uninterrupted reconciliation every row that stops being active does so on evidence. */
  lemma {:induction false} ReconciledLeavesOnEvidence(k: Report, row: Row)
    requires Active(row.state) && !Active(Reconciled(k, row).state)
    ensures
      || (row.state == Submitted && ById(k.seen, row.parent).Some?
          && RejectedStatus(ById(k.seen, row.parent).value.status) && ById(k.seen, row.parent).value.filled <= 0)
      || (row.state != Submitted && ExitFilled(k, row))
      || Position(k.account, row.symbol) <= 0
  {
    if row.state != Submitted {
      WatchedLeavesOnEvidence(k, row);
    } else if !Active(EntryLookedAt(k, row).row.state) {
      EntryLeavesOnEvidence(k, row);
    } else {
      EnteredMayBecome(k, row);
    }
  }

  // ---- updating every row of a query --------------------------------------------------------------------

  function UpdateAll(rows: map<string, Row>, xs: seq<Row>, f: Row -> Row): map<string, Row>
    decreases |xs|
  {
    if xs == [] then rows else UpdateAll(rows[xs[0].id := f(xs[0])], xs[1..], f)
  }

  lemma {:induction false} UpdateAllAt(rows: map<string, Row>, xs: seq<Row>, p: Row -> bool, f: Row -> Row, id: string)
    requires DistinctIds(xs) && Copies(rows, xs, p)
    ensures UpdateAll(rows, xs, f).Keys == rows.Keys
    ensures id in rows ==> UpdateAll(rows, xs, f)[id] == if Names(xs, id) then f(rows[id]) else rows[id]
    decreases |xs|
  {
    if xs != [] {
      UpdateAllAt(rows[xs[0].id := f(xs[0])], xs[1..], p, f, id);
      assert Names(xs, id) <==> xs[0].id == id || Names(xs[1..], id) by {
        if Names(xs[1..], id) {
          var i :| 0 <= i < |xs| - 1 && xs[1..][i].id == id;
          assert xs[i + 1].id == id;
        }
        if Names(xs, id) {
          var i :| 0 <= i < |xs| && xs[i].id == id;
          assert i > 0 ==> xs[1..][i - 1].id == id;
        }
      }
      assert !Names(xs[1..], xs[0].id);
    }
  }

  function Mapped(rows: map<string, Row>, f: Row -> Row): map<string, Row> {
    map id | id in rows :: f(rows[id])
  }

  function When(p: Row -> bool, f: Row -> Row): Row -> Row {
    (row: Row) => if p(row) then f(row) else row
  }

  lemma {:induction false} MappedAgree(rows: map<string, Row>, f: Row -> Row, g: Row -> Row)
    requires forall id :: id in rows ==> f(rows[id]) == g(rows[id])
    ensures Mapped(rows, f) == Mapped(rows, g)
  {
  }

  lemma {:induction false} MappedTwice(rows: map<string, Row>, f: Row -> Row, g: Row -> Row)
    ensures Mapped(Mapped(rows, f), g) == Mapped(rows, (row: Row) => g(f(row)))
  {
  }

  /** Updating the rows of a query is the same as mapping every row of the table. */
  lemma {:induction false} UpdateSelected(order: seq<string>, rows: map<string, Row>, p: Row -> bool, f: Row -> Row)
    requires Table(order, rows)
    ensures UpdateAll(rows, Select(order, rows, p), f) == Mapped(rows, When(p, f))
  {
    var xs := Select(order, rows, p);
    SelectIsExact(order, rows, p);
    forall id
      ensures UpdateAll(rows, xs, f).Keys == rows.Keys
      ensures id in rows ==> UpdateAll(rows, xs, f)[id] == When(p, f)(rows[id])
    {
      UpdateAllAt(rows, xs, p, f, id);
      if id in rows && p(rows[id]) {
        assert rows[id] in xs;
      }
    }
  }

  // ---- a loop that may stop half way ------------------------------------------------------------------------

  datatype Swept = Swept(rows: map<string, Row>, raised: bool)

  /** One committed update per row, up to and including the first that raises. */
  function Sweep(rows: map<string, Row>, xs: seq<Row>, f: Row -> Change): Swept
    decreases |xs|
  {
    if xs == [] then Swept(rows, false)
    else
      var next := rows[xs[0].id := f(xs[0]).row];
      if f(xs[0]).raised then Swept(next, true) else Sweep(next, xs[1..], f)
  }

  function SweepQuery(order: seq<string>, rows: map<string, Row>, p: Row -> bool, f: Row -> Change): Swept {
    Sweep(rows, Select(order, rows, p), f)
  }

  function RowOf(f: Row -> Change): Row -> Row {
    (row: Row) => f(row).row
  }

  /** A loop that ran to the end updated every row of its query. */
  lemma {:induction false} SweepToTheEnd(rows: map<string, Row>, xs: seq<Row>, f: Row -> Change)
    requires !Sweep(rows, xs, f).raised
    ensures Sweep(rows, xs, f).rows == UpdateAll(rows, xs, RowOf(f))
    decreases |xs|
  {
    if xs != [] {
      SweepToTheEnd(rows[xs[0].id := f(xs[0]).row], xs[1..], f);
    }
  }

  lemma {:induction false} QueryToTheEnd(order: seq<string>, rows: map<string, Row>, p: Row -> bool, f: Row -> Change)
    requires Table(order, rows) && !SweepQuery(order, rows, p, f).raised
    ensures SweepQuery(order, rows, p, f).rows == Mapped(rows, When(p, RowOf(f)))
  {
    SweepToTheEnd(rows, Select(order, rows, p), f);
    UpdateSelected(order, rows, p, RowOf(f));
  }

  /** An update without a broker call. */
  function Surely(f: Row -> Row): Row -> Change {
    (row: Row) => Change(f(row), false)
  }

  lemma {:induction false} SureSweep(rows: map<string, Row>, xs: seq<Row>, f: Row -> Row)
    ensures Sweep(rows, xs, Surely(f)) == Swept(UpdateAll(rows, xs, f), false)
    decreases |xs|
  {
    if xs != [] {
      SureSweep(rows[xs[0].id := f(xs[0])], xs[1..], f);
    }
  }

  lemma {:induction false} SureQuery(order: seq<string>, rows: map<string, Row>, p: Row -> bool, f: Row -> Row)
    requires Table(order, rows)
    ensures SweepQuery(order, rows, p, Surely(f)) == Swept(Mapped(rows, When(p, f)), false)
  {
    SureSweep(rows, Select(order, rows, p), f);
    UpdateSelected(order, rows, p, f);
  }

  // ---- the passes as runs of the machine --------------------------------------------------------------------

  /** A change the machine allows to one row at this stage. */
  ghost predicate MayChange(stage: Stage, a: Row, b: Row) {
    || b == a
    || MayBecome(a, b)
    || (stage.Listing? && a.state == Queued
        && exists k :: 0 <= k < |stage.seen| && LiveOrder(stage.seen[k], a.id)
             && b == SubmittedRow(a, stage.seen[k].id, a.quantity))
  }

  lemma {:induction false} ChangeRuns(slots: int, w: World, id: string, row: Row)
    requires (w.stage.Listing? || w.stage.Ready?) && id in w.rows && w.rows[id].id == id
    requires MayChange(w.stage, w.rows[id], row)
    ensures Reaches(slots, w, w.(rows := w.rows[id := row]))
  {
    var a := w.rows[id];
    Stays(slots, w);
    if row == a {
      assert w.rows[id := row] == w.rows;
    } else if MayBecome(a, row) {
      Further(slots, w, w, Reconcile(row));
    } else {
      var k :| 0 <= k < |w.stage.seen| && LiveOrder(w.stage.seen[k], a.id)
        && row == SubmittedRow(a, w.stage.seen[k].id, a.quantity);
      Further(slots, w, w, Adopt(id, k));
    }
  }

  lemma {:induction false} UpdateAllRuns(slots: int, w: World, xs: seq<Row>, p: Row -> bool, f: Row -> Row)
    requires w.stage.Listing? || w.stage.Ready?
    requires DistinctIds(xs) && Copies(w.rows, xs, p)
    requires forall i :: 0 <= i < |xs| ==> MayChange(w.stage, xs[i], f(xs[i]))
    ensures Reaches(slots, w, w.(rows := UpdateAll(w.rows, xs, f)))
    decreases |xs|
  {
    if xs == [] {
      Stays(slots, w);
    } else {
      var next := w.(rows := w.rows[xs[0].id := f(xs[0])]);
      ChangeRuns(slots, w, xs[0].id, f(xs[0]));
      UpdateAllRuns(slots, next, xs[1..], p, f);
      Through(slots, w, next, w.(rows := UpdateAll(w.rows, xs, f)));
    }
  }

  function AdoptedRow(seen: seq<Order>, row: Row): Row {
    if row.state == Queued then AdoptedEntry(seen)(row)
    else if row.state == Open && row.timed == None then AdoptedExit(seen)(row)
    else row
  }

  function Adopted(seen: seq<Order>, rows: map<string, Row>): map<string, Row> {
    Mapped(rows, (row: Row) => AdoptedRow(seen, row))
  }

  function IsChangedBy(f: Row -> Row): Row -> bool {
    (row: Row) => f(row) != row
  }

  lemma {:induction false} MappingIsUpdating(order: seq<string>, rows: map<string, Row>, f: Row -> Row)
    requires Table(order, rows)
    ensures UpdateAll(rows, Select(order, rows, IsChangedBy(f)), f) == Mapped(rows, f)
  {
    UpdateSelected(order, rows, IsChangedBy(f), f);
    MappedAgree(rows, When(IsChangedBy(f), f), f);
  }

  /** Mapping every row by allowed changes is a run that stays at its stage. */
  lemma {:induction false} MappingRuns(slots: int, order: seq<string>, w: World, f: Row -> Row)
    requires (w.stage.Listing? || w.stage.Ready?) && Table(order, w.rows)
    requires forall id :: id in w.rows ==> MayChange(w.stage, w.rows[id], f(w.rows[id]))
    ensures Reaches(slots, w, w.(rows := Mapped(w.rows, f)))
  {
    var xs := Select(order, w.rows, IsChangedBy(f));
    SelectIsExact(order, w.rows, IsChangedBy(f));
    MappingIsUpdating(order, w.rows, f);
    forall i | 0 <= i < |xs| ensures MayChange(w.stage, xs[i], f(xs[i])) {
      assert w.rows[xs[i].id] == xs[i];
    }
    UpdateAllRuns(slots, w, xs, IsChangedBy(f), f);
  }

  /** However far a loop of allowed changes got, it is a run that stays at its stage. */
  lemma {:induction false} SweepRuns(slots: int, w: World, xs: seq<Row>, p: Row -> bool, f: Row -> Change)
    requires w.stage.Listing? || w.stage.Ready?
    requires DistinctIds(xs) && Copies(w.rows, xs, p)
    requires forall i :: 0 <= i < |xs| ==> MayChange(w.stage, xs[i], f(xs[i]).row)
    ensures Reaches(slots, w, w.(rows := Sweep(w.rows, xs, f).rows))
    ensures Sweep(w.rows, xs, f).rows.Keys == w.rows.Keys
    ensures (forall id :: id in w.rows ==> w.rows[id].id == id) ==>
      forall id :: id in w.rows ==> Sweep(w.rows, xs, f).rows[id].id == id
    decreases |xs|
  {
    if xs == [] {
      Stays(slots, w);
    } else {
      var next := w.(rows := w.rows[xs[0].id := f(xs[0]).row]);
      ChangeRuns(slots, w, xs[0].id, f(xs[0]).row);
      if !f(xs[0]).raised {
        SweepRuns(slots, next, xs[1..], p, f);
        Through(slots, w, next, w.(rows := Sweep(w.rows, xs, f).rows));
      }
    }
  }

  lemma {:induction false} QueryRuns(slots: int, order: seq<string>, w: World, p: Row -> bool, f: Row -> Change)
    requires (w.stage.Listing? || w.stage.Ready?) && Table(order, w.rows)
    requires forall id :: id in w.rows && p(w.rows[id]) ==> MayChange(w.stage, w.rows[id], f(w.rows[id]).row)
    ensures Reaches(slots, w, w.(rows := SweepQuery(order, w.rows, p, f).rows))
    ensures Table(order, SweepQuery(order, w.rows, p, f).rows)
  {
    SelectIsExact(order, w.rows, p);
    SweepRuns(slots, w, Select(order, w.rows, p), p, f);
  }

  lemma {:induction false} AdoptionMayChange(seen: seq<Order>, row: Row)
    ensures MayChange(Listing(seen), row, AdoptedRow(seen, row))
    ensures LiveIn(seen, row.id) ==> AdoptedRow(seen, row).state != Queued
  {
    if row.state == Queued && LiveByRef(seen, EntryRef(row.id)).Some? {
      var order := LiveByRef(seen, EntryRef(row.id)).value;
      var k :| 0 <= k < |seen| && seen[k] == order;
      assert LiveOrder(seen[k], row.id);
    }
  }

  /** After adoption no row whose entry order is listed as live is still queued. */
  lemma {:induction false} AdoptionRuns(
    slots: int, order: seq<string>, rows: map<string, Row>, orders: seq<Order>, seen: seq<Order>)
    requires Table(order, rows)
    ensures Reaches(slots, World(rows, orders, Listing(seen)), World(Adopted(seen, rows), orders, Ready))
  {
    var w := World(rows, orders, Listing(seen));
    var f := (row: Row) => AdoptedRow(seen, row);
    forall id | id in rows ensures MayChange(w.stage, rows[id], f(rows[id]))
      ensures LiveIn(seen, id) ==> f(rows[id]).state != Queued
    {
      AdoptionMayChange(seen, rows[id]);
    }
    MappingRuns(slots, order, w, f);
    Further(slots, w, w.(rows := Adopted(seen, rows)), FinishAdoption);
  }

  /** The three loops; an exception in one ends the cycle. */
  function Reconciliation(k: Report, order: seq<string>, rows: map<string, Row>): Swept {
    var entered := SweepQuery(order, rows, IsSubmitted(), Entered(k));
    if entered.raised then entered
    else
      var watched := SweepQuery(order, entered.rows, IsWatched(ProtectedNow(k, rows)), Watched(k));
      if watched.raised then watched else SweepQuery(order, watched.rows, IsSubmitted(), Lapsed(k))
  }

  /** Wherever it stops, reconciliation is a run of the machine that touches active rows only. */
  lemma {:induction false} ReconciliationRuns(
    slots: int, order: seq<string>, rows: map<string, Row>, orders: seq<Order>, k: Report)
    requires Table(order, rows)
    ensures Reaches(slots, World(rows, orders, Ready), World(Reconciliation(k, order, rows).rows, orders, Ready))
    ensures Table(order, Reconciliation(k, order, rows).rows)
  {
    var w := World(rows, orders, Ready);
    EnteringRuns(slots, order, w, k);
    var entered := SweepQuery(order, rows, IsSubmitted(), Entered(k));
    if !entered.raised {
      var next := World(entered.rows, orders, Ready);
      WatchingRuns(slots, order, next, k, ProtectedNow(k, rows));
      var watched := SweepQuery(order, entered.rows, IsWatched(ProtectedNow(k, rows)), Watched(k));
      Through(slots, w, next, World(watched.rows, orders, Ready));
      if !watched.raised {
        LapsingRuns(slots, order, World(watched.rows, orders, Ready), k);
        Through(
          slots, w, World(watched.rows, orders, Ready), World(Reconciliation(k, order, rows).rows, orders, Ready));
      }
    }
  }

  lemma {:induction false} EnteringRuns(slots: int, order: seq<string>, w: World, k: Report)
    requires w.stage.Ready? && Table(order, w.rows)
    ensures Reaches(slots, w, w.(rows := SweepQuery(order, w.rows, IsSubmitted(), Entered(k)).rows))
    ensures Table(order, SweepQuery(order, w.rows, IsSubmitted(), Entered(k)).rows)
  {
    forall id | id in w.rows && w.rows[id].state == Submitted
      ensures MayChange(Ready, w.rows[id], Entered(k)(w.rows[id]).row)
    {
      EnteredMayBecome(k, w.rows[id]);
    }
    QueryRuns(slots, order, w, IsSubmitted(), Entered(k));
  }

  lemma {:induction false} WatchingRuns(
    slots: int, order: seq<string>, w: World, k: Report, newlyProtected: set<string>)
    requires w.stage.Ready? && Table(order, w.rows)
    ensures Reaches(slots, w, w.(rows := SweepQuery(order, w.rows, IsWatched(newlyProtected), Watched(k)).rows))
    ensures Table(order, SweepQuery(order, w.rows, IsWatched(newlyProtected), Watched(k)).rows)
  {
    forall id | id in w.rows && IsWatched(newlyProtected)(w.rows[id])
      ensures MayChange(Ready, w.rows[id], Watched(k)(w.rows[id]).row)
    {
      WatchedMayBecome(k, w.rows[id]);
    }
    QueryRuns(slots, order, w, IsWatched(newlyProtected), Watched(k));
  }

  lemma {:induction false} LapsingRuns(slots: int, order: seq<string>, w: World, k: Report)
    requires w.stage.Ready? && Table(order, w.rows)
    ensures Reaches(slots, w, w.(rows := SweepQuery(order, w.rows, IsSubmitted(), Lapsed(k)).rows))
    ensures Table(order, SweepQuery(order, w.rows, IsSubmitted(), Lapsed(k)).rows)
  {
    forall id | id in w.rows && w.rows[id].state == Submitted
      ensures MayChange(Ready, w.rows[id], Lapsed(k)(w.rows[id]).row)
    {
      assert MayBecome(w.rows[id], Lapsed(k)(w.rows[id]).row) || Lapsed(k)(w.rows[id]).row == w.rows[id];
    }
    QueryRuns(slots, order, w, IsSubmitted(), Lapsed(k));
  }

  lemma {:induction false} TimedExitsRun(slots: int, order: seq<string>, w: World, c: Config, e: ExitDesk)
    requires w.stage.Ready? && Table(order, w.rows)
    ensures Reaches(slots, w, w.(rows := SweepQuery(order, w.rows, IsExitDue(e.today), TimedOut(c, e)).rows))
    ensures Table(order, SweepQuery(order, w.rows, IsExitDue(e.today), TimedOut(c, e)).rows)
  {
    forall id | id in w.rows && IsExitDue(e.today)(w.rows[id])
      ensures MayChange(Ready, w.rows[id], TimedOut(c, e)(w.rows[id]).row)
    {
      assert TimedOut(c, e)(w.rows[id]).row == w.rows[id] || MayBecome(w.rows[id], TimedOut(c, e)(w.rows[id]).row);
    }
    QueryRuns(slots, order, w, IsExitDue(e.today), TimedOut(c, e));
  }

  /** The two adoption loops act on different rows. */
  lemma {:induction false} AdoptionComposes(seen: seq<Order>, rows: map<string, Row>)
    ensures Mapped(Mapped(rows, When(IsQueued(), AdoptedEntry(seen))), When(IsUnexited(), AdoptedExit(seen))) ==
      Adopted(seen, rows)
  {
    var f, g := When(IsQueued(), AdoptedEntry(seen)), When(IsUnexited(), AdoptedExit(seen));
    MappedTwice(rows, f, g);
    forall id | id in rows ensures g(f(rows[id])) == AdoptedRow(seen, rows[id]) {
    }
    MappedAgree(rows, (row: Row) => g(f(row)), (row: Row) => AdoptedRow(seen, row));
  }

  // ---- a reconciliation that nothing interrupts -----------------------------------------------------------------

  /** The three loops seen from one row: a row protected now is not watched until the next cycle. */
  function Reconciled(k: Report, row: Row): Row {
    match row.state
    case Submitted =>
      var entered := EntryLookedAt(k, row).row;
      if entered.state == Submitted then Lapsed(k)(entered).row else entered
    case Open => ExitsLookedAt(k, row).row
    case Closing => ExitsLookedAt(k, row).row
    case _ => row
  }

  function InThree(k: Report, newlyProtected: set<string>, row: Row): Row {
    var entered := When(IsSubmitted(), RowOf(Entered(k)))(row);
    When(IsSubmitted(), RowOf(Lapsed(k)))(When(IsWatched(newlyProtected), RowOf(Watched(k)))(entered))
  }

  lemma {:induction false} ReconciledInThree(k: Report, rows: map<string, Row>, row: Row)
    requires row.id in rows && rows[row.id] == row
    ensures InThree(k, ProtectedNow(k, rows), row) == Reconciled(k, row)
  {
    if row.state == Submitted {
      SubmittedInThree(k, ProtectedNow(k, rows), row, EntryLookedAt(k, row).row);
    } else if Active(row.state) {
      ActiveInThree(k, ProtectedNow(k, rows), row);
    } else {
      IdleInThree(k, ProtectedNow(k, rows), row);
    }
  }

  lemma {:induction false} IdleInThree(k: Report, newlyProtected: set<string>, row: Row)
    requires !Active(row.state)
    ensures InThree(k, newlyProtected, row) == row
  {
  }

  lemma {:induction false} ActiveInThree(k: Report, newlyProtected: set<string>, row: Row)
    requires (row.state == Open || row.state == Closing) && row.id !in newlyProtected
    ensures InThree(k, newlyProtected, row) == ExitsLookedAt(k, row).row
  {
    WatchedMayBecome(k, row);
  }

  lemma {:induction false} SubmittedInThree(k: Report, newlyProtected: set<string>, row: Row, entered: Row)
    requires row.state == Submitted && entered == EntryLookedAt(k, row).row
    requires entered.state == Open ==> row.id in newlyProtected
    ensures InThree(k, newlyProtected, row) == if entered.state == Submitted then Lapsed(k)(entered).row else entered
  {
    EnteredMayBecome(k, row);
    assert entered.state != Closing;
    assert !IsWatched(newlyProtected)(entered);
  }

  /** Three loops over all rows, each a map over the table, are one map. */
  lemma {:induction false} ThreeMaps(
    rows: map<string, Row>, f: Row -> Row, g: Row -> Row, h: Row -> Row, whole: Row -> Row)
    requires forall id :: id in rows ==> h(g(f(rows[id]))) == whole(rows[id])
    ensures Mapped(Mapped(Mapped(rows, f), g), h) == Mapped(rows, whole)
  {
  }

  /** Uninterrupted, the three loops give every row its reconciled form. */
  lemma {:induction false} ReconciliationComposes(k: Report, order: seq<string>, rows: map<string, Row>)
    requires Table(order, rows) && !Reconciliation(k, order, rows).raised
    ensures Reconciliation(k, order, rows).rows == Mapped(rows, (row: Row) => Reconciled(k, row))
  {
    var world := World(rows, [], Ready);
    var watch := IsWatched(ProtectedNow(k, rows));
    EnteringRuns(0, order, world, k);
    QueryToTheEnd(order, rows, IsSubmitted(), Entered(k));
    var entered := SweepQuery(order, rows, IsSubmitted(), Entered(k)).rows;
    WatchingRuns(0, order, World(entered, [], Ready), k, ProtectedNow(k, rows));
    QueryToTheEnd(order, entered, watch, Watched(k));
    var watched := SweepQuery(order, entered, watch, Watched(k)).rows;
    QueryToTheEnd(order, watched, IsSubmitted(), Lapsed(k));
    forall id | id in rows ensures InThree(k, ProtectedNow(k, rows), rows[id]) == Reconciled(k, rows[id]) {
      ReconciledInThree(k, rows, rows[id]);
    }
    ThreeMaps(rows, When(IsSubmitted(), RowOf(Entered(k))), When(watch, RowOf(Watched(k))),
              When(IsSubmitted(), RowOf(Lapsed(k))), (row: Row) => Reconciled(k, row));
  }
}
