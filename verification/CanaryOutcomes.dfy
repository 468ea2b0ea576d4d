/**
 What one cycle decides about a row, said of the row, the broker's orders and the account alone: when
 an order is adopted, when an entry or an exit is taken to have happened, and when and how an exit is sent.
 */
module CanaryOutcomes {
  import opened Prelude
  import opened Canary
  import opened CanaryEntries
  import opened CanaryRunner
  import opened CanaryReconcile

  // ---- lookups --------------------------------------------------------------------------------------------

  /** The position of the last listed order that satisfies a condition, or -1. */
  function LastWhere(seen: seq<Order>, p: Order -> bool): (n: int)
    ensures -1 <= n < |seen| && (n >= 0 ==> p(seen[n]))
    ensures forall i :: n < i < |seen| ==> !p(seen[i])
  {
    if seen == [] then -1 else if p(Last(seen)) then |seen| - 1 else LastWhere(Init(seen), p)
  }

  function OrderAt(seen: seq<Order>, n: int): Option<Order>
    requires n < |seen|
  {
    if n < 0 then None else Some(seen[n])
  }

  function Unrejected(ref: Ref): Order -> bool {
    (o: Order) => o.ref == ref && o.status !in {"cancelled", "apicancelled", "inactive"}
  }

  /** Orders are looked up by id or by reference, the last one listed counting; rejected ones only by choice. */
  lemma {:induction false} LookupsFindLast(seen: seq<Order>, id: int, ref: Ref)
    ensures ById(seen, None) == None
    ensures ById(seen, Some(id)) == OrderAt(seen, LastWhere(seen, (o: Order) => o.id == id))
    ensures ByRef(seen, ref) == OrderAt(seen, LastWhere(seen, (o: Order) => o.ref == ref))
    ensures LiveByRef(seen, ref) == OrderAt(seen, LastWhere(seen, Unrejected(ref)))
  {
    if seen != [] {
      LookupsFindLast(Init(seen), id, ref);
    }
  }

  // ---- adoption -----------------------------------------------------------------------------------------------

  /** A queued row takes its live entry order; an open row without a timed exit takes its live exit order. */
  lemma {:induction false} AdoptedExactlyWhen(seen: seq<Order>, row: Row)
    ensures var entry, next := LiveByRef(seen, EntryRef(row.id)), AdoptedRow(seen, row);
      && (row.state == Queued ==>
            next == if entry == None then row
              else row.(state := Submitted, parent := Some(entry.value.id), held := Some(row.quantity)))
      && (row.state == Open && row.timed == None ==>
            var time, overdue, mismatch := LiveByRef(seen, ExitRef(row.id, "TIME")),
                                           LiveByRef(seen, ExitRef(row.id, "OVERDUE")),
                                           LiveByRef(seen, ExitRef(row.id, "QTYFAIL"));
            && (time == None && overdue == None && mismatch == None ==> next == row)
            && (time.Some? ==> next == row.(state := Closing, timed := Some(time.value.id)))
            && (time == None && overdue.Some? ==> next == row.(state := Closing, timed := Some(overdue.value.id)))
            && (time == None && overdue == None && mismatch.Some? ==>
                  next == row.(state := Closing, timed := Some(mismatch.value.id))))
      && (row.state != Queued && !(row.state == Open && row.timed == None) ==> next == row)
  {
  }

  // ---- entries --------------------------------------------------------------------------------------------------

  lemma {:induction false} FromIsUpcoming(sessions: seq<int>, day: int, lastDay: int)
    requires forall i :: 0 <= i < |sessions| ==> sessions[i] <= lastDay
    ensures From(sessions, day) == Upcoming(sessions, day, lastDay)
  {
    if sessions != [] {
      FromIsUpcoming(Init(sessions), day, lastDay);
    }
  }

  /** The exit computed for a row is the session on which it has been held for the whole horizon, if listed. */
  lemma {:induction false} ComputedExitIsNth(k: Report, row: Row, day: int)
    requires Increasing(k.sessions) && k.horizon >= 1
    ensures ComputedExit(k, row) == Ok(Some(day)) <==>
      day in k.sessions && row.session <= day && SessionsBetween(k.sessions, row.session, day) == k.horizon
    ensures ComputedExit(k, row).Ok?
  {
    if k.sessions != [] {
      var last := Last(k.sessions);
      var u := Upcoming(k.sessions, row.session, last);
      FromIsUpcoming(k.sessions, row.session, last);
      UpcomingContents(k.sessions, row.session, last, day);
      if day in k.sessions && row.session <= day {
        var j :| 0 <= j < |k.sessions| && k.sessions[j] == day;
        var i :| 0 <= i < |u| && u[i] == day;
        UpcomingIsCounted(k.sessions, row.session, last, i);
      }
      if |u| >= k.horizon {
        UpcomingIsCounted(k.sessions, row.session, last, k.horizon - 1);
        UpcomingContents(k.sessions, row.session, last, u[k.horizon - 1]);
      }
    }
  }

  /** The holding an entry is taken to have produced: its shares and price, if it is to be protected. */
  function Holding(k: Report, row: Row): Option<(int, real)> {
    var shares := if row.symbol in k.account.positions then k.account.positions[row.symbol] else 0;
    var cost := if row.symbol in k.account.costs then k.account.costs[row.symbol] else 0.0;
    match ById(k.seen, row.parent)
    case None => if shares > 0 && cost > 0.0 then Some((shares, cost)) else None
    case Some(order) =>
      if shares > 0 && order.filled > 0 && order.price > 0.0 then Some((shares, order.price)) else None
  }

  /**
   A submitted row fails exactly on a rejected order without fills, is closed without attribution exactly
   on a priced fill the account does not show, and opens exactly on a holding that both exits protect,
   once the rest of a partial fill is cancelled.  Otherwise it stays as it was.
   */
  lemma {:induction false} EntryDecidedExactly(k: Report, row: Row)
    requires row.state == Submitted
    ensures var order, holding, change := ById(k.seen, row.parent), Holding(k, row), EntryLookedAt(k, row);
      var partial := order.Some? && order.value.remaining > 0;
      var protected := holding.Some? && (partial ==> k.cancel(row)) && k.bracket(row).Some? && ComputedExit(k, row).Ok?;
      && (change.row.state == EntryFailed <==>
            order.Some? && order.value.filled <= 0 && order.value.status in {"cancelled", "apicancelled", "inactive"})
      && (change.row.state == ClosedUnattributed <==>
            order.Some? && order.value.filled > 0 && order.value.price > 0.0
            && (row.symbol in k.account.positions ==> k.account.positions[row.symbol] <= 0))
      && (change.row.state == Open <==> protected)
      && (protected ==>
            change.row == row.(
              state := Open, held := Some(holding.value.0), price := Some(holding.value.1),
              exit := if row.exit.Some? then row.exit else ComputedExit(k, row).value,
              target := Some(k.bracket(row).value.0), stop := Some(k.bracket(row).value.1)))
      && (change.raised <==> holding.Some? && !protected)
      && change.row.state in {EntryFailed, ClosedUnattributed, Open, Submitted}
      && (change.row.state == EntryFailed ==> change.row == row.(state := EntryFailed))
      && (change.row.state == ClosedUnattributed ==> change.row == row.(state := ClosedUnattributed))
      && (change.row.state == Submitted ==> change.row == row)
  {
  }

  /** A submitted row that nothing came of lapses after its session: no order and no shares at the broker. */
  lemma {:induction false} LapsesExactlyWhen(k: Report, row: Row)
    ensures var unlisted := row.parent == None || forall i :: 0 <= i < |k.seen| ==> k.seen[i].id != row.parent.value;
      var gone := row.symbol in k.account.positions ==> k.account.positions[row.symbol] == 0;
      LapsedRow(k, row) ==
        Change(if row.session < k.today && unlisted && gone then row.(state := EntryExpiredUnknown) else row, false)
  {
    if row.parent.Some? {
      LookupsFindLast(k.seen, row.parent.value, EntryRef(row.id));
    }
  }

  // ---- exits ----------------------------------------------------------------------------------------------------

  function SharesOf(k: Report, row: Row): int {
    if row.symbol in k.account.positions then k.account.positions[row.symbol] else 0
  }

  function HeldOf(row: Row): int {
    if row.held.Some? then row.held.value else 0
  }

  /** An exit counts as done once it has fills and either nothing is left of it or no shares are left. */
  predicate Done(order: Option<Order>, shares: int) {
    order.Some? && order.value.filled > 0 && (order.value.remaining <= 0 || shares == 0)
  }

  predicate StillWorks(order: Option<Order>) {
    order.Some? && order.value.status in {"pendingsubmit", "presubmitted", "submitted", "pendingcancel"}
  }

  /** An exit order by the id recorded for it, or else by its reference. */
  function Exit(k: Report, row: Row, id: Option<int>, suffix: string): Option<Order> {
    if ById(k.seen, id).Some? then ById(k.seen, id) else ByRef(k.seen, ExitRef(row.id, suffix))
  }

  /** The timed exit was cancelled although shares remain. */
  predicate TimedExitLost(k: Report, row: Row) {
    var timed := ById(k.seen, row.timed);
    && timed.Some? && SharesOf(k, row) > 0
    && timed.value.status in {"cancelled", "canceled", "apicancelled", "inactive"}
  }

  predicate SomeExitDone(k: Report, row: Row) {
    var shares := SharesOf(k, row);
    || Done(Exit(k, row, row.stop, "STOP"), shares)
    || Done(Exit(k, row, row.target, "TARGET"), shares)
    || (!TimedExitLost(k, row) && Done(ById(k.seen, row.timed), shares))
  }

  /** The row once a lost timed exit is cleared. */
  function Kept(k: Report, row: Row): Row {
    if TimedExitLost(k, row) then row.(state := Open, held := Some(SharesOf(k, row)), timed := None) else row
  }

  /** The shares differ from the row's and no timed exit is recorded. */
  predicate Mismatched(k: Report, row: Row) {
    SharesOf(k, row) > 0 && SharesOf(k, row) != HeldOf(row) && row.timed == None
  }

  /** One of the two protective exits does not work, and a price is known to place them again. */
  predicate Unprotected(k: Report, row: Row) {
    && SharesOf(k, row) > 0
    && !(StillWorks(Exit(k, row, row.target, "TARGET")) && StillWorks(Exit(k, row, row.stop, "STOP")))
    && ((row.price.Some? && row.price.value > 0.0)
        || (row.symbol in k.account.costs && k.account.costs[row.symbol] > 0.0))
  }

  /**
   An open or closing row closes exactly when an exit is done, closes without attribution exactly when its
   shares are gone without one, is flattened when the shares differ, and protected again when an exit is
   missing; otherwise only a lost timed exit is cleared.
   */
  lemma {:induction false} WatchDecidedExactly(k: Report, row: Row)
    ensures ExitsLookedAt(k, row) ==
      if SomeExitDone(k, row) then Change(Kept(k, row).(state := Closed), false)
      else if SharesOf(k, row) == 0 && HeldOf(row) > 0 then Change(Kept(k, row).(state := ClosedUnattributed), false)
      else if Mismatched(k, row) then
        (if k.flatten(row) == None then Change(Kept(k, row), true)
         else Change(Kept(k, row).(state := Closing, timed := k.flatten(row)), false))
      else if Unprotected(k, row) then
        (if k.bracket(row) == None then Change(Kept(k, row), true)
         else Change(
           Kept(k, row).(target := Some(k.bracket(row).value.0), stop := Some(k.bracket(row).value.1)), false))
      else Change(Kept(k, row), false)
  {
    assert Reopened(k, row) == Kept(k, row);
    assert ExitFilled(k, row) <==> SomeExitDone(k, row);
  }

  /**
   A timed exit is sent at the close exactly from the submission lead to the cutoff lead before it, and at
   market from the cutoff on or on any later day; never outside the session's hours, nor without them.
   */
  lemma {:induction false} ExitIsSentExactlyWhen(c: Config, e: ExitDesk, row: Row)
    requires row.exit.Some? && row.held.Some?
    ensures var now, hours, change := e.at(row), e.bounds(row), ExitDispatched(c, e, row);
      var overdue, inSession := row.exit.value < e.day(row), hours.Some? && hours.value.0 <= now < hours.value.1;
      var submitAt, cutoff := if hours.Some? then hours.value.1 - c.submitLead else 0,
                              if hours.Some? then hours.value.1 - c.cutoffLead else 0;
      && (!overdue && inSession && submitAt <= now < cutoff ==>
            change == if e.atClose(row) == None then Change(row, true)
              else Change(row.(state := Closing, timed := e.atClose(row)), false))
      && (overdue || (inSession && submitAt <= now && cutoff <= now) ==>
            change == if e.atMarket(row) == None then Change(row, true)
              else Change(row.(state := Closing, timed := e.atMarket(row)), false))
      && (!overdue && (!inSession || now < submitAt) ==> change == Change(row, false))
  {
  }
}
