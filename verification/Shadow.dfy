/**
 The capacity rules of the shadow book, which shares its candidates with the live ledger: how many
 of each past entry session may be opened, and which symbols are passed over.
 */
module Shadow {
  import opened Prelude
  import Canary
  import CanaryRunner

  type Row = Canary.Row

  datatype State = Queued | Open | Closed | OverlapSuppressed | CapacitySuppressed | Rejected

  type Rows = map<string, Row>

  /** The shadow state of each candidate, a column of its own. */
  type States = map<string, State>

  /** What the completed bars say of one candidate; `Failed` is an exception. */
  datatype Evaluation = NoEntry | Holding | Finished | Failed

  predicate In(states: States, id: string, state: State) {
    id in states && states[id] == state
  }

  function OpenIds(states: States): set<string> {
    set id | id in states && states[id] == Open
  }

  predicate Table(rows: Rows, states: States) {
    && states.Keys == rows.Keys
    && (forall id :: id in rows ==> rows[id].id == id)
  }

  predicate DistinctOpenSymbols(rows: Rows, states: States) {
    forall a, b :: a in rows && b in rows && a != b && In(states, a, Open) && In(states, b, Open) ==>
      rows[a].symbol != rows[b].symbol
  }

  predicate Sound(rows: Rows, states: States) {
    Table(rows, states) && DistinctOpenSymbols(rows, states)
  }

  function Put(states: States, xs: seq<Row>, state: State): States
    decreases |xs|
  {
    if xs == [] then states else Put(states[xs[0].id := state], xs[1..], state)
  }

  /** The rows are different rows of the table, in this state. */
  predicate Current(rows: Rows, states: States, xs: seq<Row>, state: State) {
    && CanaryRunner.DistinctIds(xs)
    && forall i :: 0 <= i < |xs| ==> xs[i].id in rows && rows[xs[i].id] == xs[i] && In(states, xs[i].id, state)
  }

  predicate Named(xs: seq<Row>, id: string) {
    CanaryRunner.Names(xs, id)
  }

  // ---- one row at a time ---------------------------------------------------------------------------

  predicate OtherOpen(rows: Rows, states: States, row: Row) {
    exists id :: id in rows && id != row.id && In(states, id, Open) && rows[id].symbol == row.symbol
  }

  /** The state a selected row is given; `None` leaves it as it is. */
  function Settled(rows: Rows, states: States, row: Row, queued: bool, e: Evaluation): Option<State> {
    if queued && OtherOpen(rows, states, row) then Some(OverlapSuppressed)
    else
      match e
      case NoEntry => None
      case Holding => Some(Open)
      case Finished => Some(Closed)
      case Failed => None
  }

  function Step(rows: Rows, states: States, row: Row, queued: bool, e: Evaluation): States {
    match Settled(rows, states, row, queued, e)
    case Some(state) => states[row.id := state]
    case None => states
  }

  /** An exception ends the pass, unless the row was passed over before it was evaluated. */
  predicate Failing(rows: Rows, states: States, row: Row, queued: bool, e: Evaluation) {
    e.Failed? && !(queued && OtherOpen(rows, states, row))
  }

  function Before(queued: bool): State {
    if queued then Queued else Open
  }

  lemma {:induction false} StepKeepsSound(rows: Rows, states: States, row: Row, queued: bool, e: Evaluation)
    requires Sound(rows, states) && row.id in rows && rows[row.id] == row && In(states, row.id, Before(queued))
    ensures Sound(rows, Step(rows, states, row, queued, e))
  {
  }

  /** Only a queued row can take a new slot, and it takes one. */
  lemma {:induction false} StepTakesAtMostOne(rows: Rows, states: States, row: Row, queued: bool, e: Evaluation)
    requires In(states, row.id, Before(queued))
    ensures |OpenIds(Step(rows, states, row, queued, e))| <= |OpenIds(states)| + if queued then 1 else 0
  {
    var next := Step(rows, states, row, queued, e);
    var most := OpenIds(states) + if queued then {row.id} else {};
    assert OpenIds(next) <= most;
    Canary.SubsetSize(OpenIds(next), most);
  }

  // ---- one session's candidates --------------------------------------------------------------------------

  datatype Outcome = Outcome(states: States, failed: bool)

  function Working(rows: Rows, states: States, xs: seq<Row>, queued: bool, evaluate: Row -> Evaluation): Outcome
    decreases |xs|
  {
    if xs == [] then Outcome(states, false)
    else if Failing(rows, states, xs[0], queued, evaluate(xs[0])) then Outcome(states, true)
    else Working(rows, Step(rows, states, xs[0], queued, evaluate(xs[0])), xs[1..], queued, evaluate)
  }

  /** Rows outside the list keep their state. */
  predicate Untouched(before: States, after: States, xs: seq<Row>) {
    && before.Keys == after.Keys
    && forall id :: id in before && !Named(xs, id) ==> after[id] == before[id]
  }

  lemma {:induction false} TailNames(xs: seq<Row>, id: string)
    requires xs != []
    ensures Named(xs, id) <==> xs[0].id == id || Named(xs[1..], id)
  {
    if Named(xs[1..], id) {
      var i :| 0 <= i < |xs| - 1 && xs[1..][i].id == id;
      assert xs[i + 1].id == id;
    }
    if Named(xs, id) {
      var i :| 0 <= i < |xs| && xs[i].id == id;
      assert i > 0 ==> xs[1..][i - 1].id == id;
    }
  }

  /** Changing the first row of a list leaves the others as they were. */
  lemma {:induction false} TailCurrent(rows: Rows, states: States, next: States, xs: seq<Row>, state: State)
    requires xs != [] && Current(rows, states, xs, state)
    requires next.Keys == states.Keys && forall id :: id in states && id != xs[0].id ==> next[id] == states[id]
    ensures Current(rows, next, xs[1..], state)
  {
  }

  lemma {:induction false} HeadThenTail(states: States, next: States, after: States, xs: seq<Row>)
    requires xs != [] && next.Keys == states.Keys && Untouched(next, after, xs[1..])
    requires forall id :: id in states && id != xs[0].id ==> next[id] == states[id]
    ensures Untouched(states, after, xs)
  {
    forall id | id in states && !Named(xs, id) ensures after[id] == states[id] {
      TailNames(xs, id);
    }
  }

  lemma {:induction false} WorkingKeeps(
    rows: Rows, states: States, xs: seq<Row>, queued: bool, evaluate: Row -> Evaluation)
    requires Sound(rows, states) && Current(rows, states, xs, Before(queued))
    ensures var after := Working(rows, states, xs, queued, evaluate).states;
      && Sound(rows, after)
      && Untouched(states, after, xs)
      && |OpenIds(after)| <= |OpenIds(states)| + if queued then |xs| else 0
    decreases |xs|
  {
    if xs != [] && !Failing(rows, states, xs[0], queued, evaluate(xs[0])) {
      var next := Step(rows, states, xs[0], queued, evaluate(xs[0]));
      StepKeepsSound(rows, states, xs[0], queued, evaluate(xs[0]));
      StepTakesAtMostOne(rows, states, xs[0], queued, evaluate(xs[0]));
      TailCurrent(rows, states, next, xs, Before(queued));
      WorkingKeeps(rows, next, xs[1..], queued, evaluate);
      HeadThenTail(states, next, Working(rows, next, xs[1..], queued, evaluate).states, xs);
    }
  }

  /** Marking rows that are not open takes no slot and touches no other row. */
  lemma {:induction false} PutKeeps(rows: Rows, states: States, xs: seq<Row>, state: State)
    requires Sound(rows, states) && Current(rows, states, xs, Queued) && state != Open
    ensures Sound(rows, Put(states, xs, state))
    ensures Untouched(states, Put(states, xs, state), xs)
    ensures OpenIds(Put(states, xs, state)) == OpenIds(states)
    decreases |xs|
  {
    if xs != [] {
      var next := states[xs[0].id := state];
      assert OpenIds(next) == OpenIds(states);
      TailCurrent(rows, states, next, xs, Queued);
      PutKeeps(rows, next, xs[1..], state);
      HeadThenTail(states, next, Put(next, xs[1..], state), xs);
    }
  }

  lemma {:induction false} StillCurrent(
    rows: Rows, states: States, next: States, xs: seq<Row>, ys: seq<Row>, state: State)
    requires Current(rows, states, ys, state) && Untouched(states, next, xs)
    requires forall i :: 0 <= i < |ys| ==> !Named(xs, ys[i].id)
    ensures Current(rows, next, ys, state)
  {
  }

  function Take(xs: seq<Row>, n: nat): seq<Row> {
    if n <= |xs| then xs[..n] else xs
  }

  function Beyond(xs: seq<Row>, n: nat): seq<Row> {
    if n <= |xs| then xs[n..] else []
  }

  function FreeSlots(slots: int, states: States): nat {
    Max(0, slots - |OpenIds(states)|)
  }

  function Candidates(open: seq<Row>, queued: seq<Row>): CanaryRunner.Picked {
    CanaryRunner.Pick(queued, CanaryRunner.Symbols(open))
  }

  /** The states after repeats and the candidates beyond the free slots were suppressed. */
  function Cleared(slots: int, states: States, open: seq<Row>, queued: seq<Row>): States {
    var p := Candidates(open, queued);
    Put(Put(states, p.overlapped, OverlapSuppressed), Beyond(p.selected, FreeSlots(slots, states)), CapacitySuppressed)
  }

  function Fresh(slots: int, states: States, open: seq<Row>, queued: seq<Row>): seq<Row> {
    Take(Candidates(open, queued).selected, FreeSlots(slots, states))
  }

  /** One session: open rows first, then as many new candidates as there were free slots. */
  function Session(
    slots: int, rows: Rows, states: States, open: seq<Row>, queued: seq<Row>, evaluate: Row -> Evaluation): Outcome
  {
    var first := Working(rows, Cleared(slots, states, open, queued), open, false, evaluate);
    if first.failed then first else Working(rows, first.states, Fresh(slots, states, open, queued), true, evaluate)
  }

  /** The candidates picked from a session's queued rows: no row twice, none also dropped. */
  lemma {:induction false} PickedAreCurrent(rows: Rows, states: States, open: seq<Row>, queued: seq<Row>)
    requires Current(rows, states, queued, Queued)
    ensures var p := Candidates(open, queued);
      && Current(rows, states, p.selected, Queued)
      && Current(rows, states, p.overlapped, Queued)
      && (forall i :: 0 <= i < |p.selected| ==> !Named(p.overlapped, p.selected[i].id))
      && (forall id :: Named(p.selected, id) || Named(p.overlapped, id) ==> Named(queued, id))
  {
    CanaryRunner.PickSeparates(queued, CanaryRunner.Symbols(open));
    CanaryRunner.PickPartitions(queued, CanaryRunner.Symbols(open));
    var p := Candidates(open, queued);
    assert forall row :: row in queued ==> row.id in rows && rows[row.id] == row && In(states, row.id, Queued);
    forall id | Named(p.selected, id) || Named(p.overlapped, id) ensures Named(queued, id) {
      if Named(p.selected, id) {
        var i :| 0 <= i < |p.selected| && p.selected[i].id == id;
        assert p.selected[i] in queued;
      } else {
        var i :| 0 <= i < |p.overlapped| && p.overlapped[i].id == id;
        assert p.overlapped[i] in queued;
      }
    }
  }

  /** Cutting a list of different rows in two leaves no row on both sides. */
  lemma {:induction false} CutApart(rows: Rows, states: States, xs: seq<Row>, n: nat)
    requires Current(rows, states, xs, Queued)
    ensures Current(rows, states, Take(xs, n), Queued) && Current(rows, states, Beyond(xs, n), Queued)
    ensures forall i :: 0 <= i < |Take(xs, n)| ==> !Named(Beyond(xs, n), Take(xs, n)[i].id)
    ensures forall id :: Named(Take(xs, n), id) || Named(Beyond(xs, n), id) ==> Named(xs, id)
  {
    forall id | Named(Beyond(xs, n), id) ensures Named(xs, id) {
      var i :| 0 <= i < |Beyond(xs, n)| && Beyond(xs, n)[i].id == id;
      assert xs[n + i].id == id;
    }
    forall id | Named(Take(xs, n), id) ensures Named(xs, id) {
      var i :| 0 <= i < |Take(xs, n)| && Take(xs, n)[i].id == id;
      assert xs[i].id == id;
    }
  }

  /** Open and queued rows are never the same rows. */
  lemma {:induction false} StatesSeparate(rows: Rows, states: States, open: seq<Row>, queued: seq<Row>)
    requires Current(rows, states, open, Open) && Current(rows, states, queued, Queued)
    ensures forall id :: Named(open, id) ==> !Named(queued, id)
  {
    forall id | Named(open, id) ensures !Named(queued, id) {
      var i :| 0 <= i < |open| && open[i].id == id;
      assert In(states, id, Open);
    }
  }

  lemma {:induction false} ClearingKeeps(slots: int, rows: Rows, states: States, open: seq<Row>, queued: seq<Row>)
    requires Sound(rows, states) && Current(rows, states, open, Open) && Current(rows, states, queued, Queued)
    ensures var next, chosen := Cleared(slots, states, open, queued), Fresh(slots, states, open, queued);
      && Sound(rows, next) && OpenIds(next) == OpenIds(states)
      && Untouched(states, next, queued)
      && Current(rows, next, open, Open) && Current(rows, next, chosen, Queued)
      && (forall i :: 0 <= i < |chosen| ==> Named(queued, chosen[i].id))
      && |chosen| <= FreeSlots(slots, states)
  {
    var p, n := Candidates(open, queued), FreeSlots(slots, states);
    var passed, chosen := Beyond(p.selected, n), Take(p.selected, n);
    PickedAreCurrent(rows, states, open, queued);
    PutKeeps(rows, states, p.overlapped, OverlapSuppressed);
    var once := Put(states, p.overlapped, OverlapSuppressed);
    StillCurrent(rows, states, once, p.overlapped, p.selected, Queued);
    CutApart(rows, once, p.selected, n);
    PutKeeps(rows, once, passed, CapacitySuppressed);
    StillCurrent(rows, once, Put(once, passed, CapacitySuppressed), passed, chosen, Queued);
    StatesSeparate(rows, states, open, queued);
    forall i | 0 <= i < |open| ensures !Named(queued, open[i].id) {
      assert Named(open, open[i].id);
    }
    StillCurrent(rows, states, Put(once, passed, CapacitySuppressed), queued, open, Open);
    forall i | 0 <= i < |chosen| ensures Named(p.selected, chosen[i].id) {
      assert Named(chosen, chosen[i].id);
    }
  }

  /**
   After one session the open rows of the whole book do not exceed the slots, unless they already
   did, and no two share a symbol; only rows of the session were touched.
   */
  lemma {:induction false} SessionKeeps(
    slots: int, rows: Rows, states: States, open: seq<Row>, queued: seq<Row>, evaluate: Row -> Evaluation)
    requires Sound(rows, states) && Current(rows, states, open, Open) && Current(rows, states, queued, Queued)
    ensures var after := Session(slots, rows, states, open, queued, evaluate).states;
      && Sound(rows, after)
      && Untouched(states, after, open + queued)
      && |OpenIds(after)| <= Max(slots, |OpenIds(states)|)
  {
    var next, chosen := Cleared(slots, states, open, queued), Fresh(slots, states, open, queued);
    ClearingKeeps(slots, rows, states, open, queued);
    WorkingKeeps(rows, next, open, false, evaluate);
    var first := Working(rows, next, open, false, evaluate);
    JoinedNames(open, queued);
    if !first.failed {
      StatesSeparate(rows, states, open, queued);
      StillCurrent(rows, next, first.states, open, chosen, Queued);
      WorkingKeeps(rows, first.states, chosen, true, evaluate);
      forall id | Named(chosen, id) ensures Named(queued, id) {
        var i :| 0 <= i < |chosen| && chosen[i].id == id;
      }
    }
  }

  lemma {:induction false} JoinedNames(a: seq<Row>, b: seq<Row>)
    ensures forall id :: Named(a + b, id) <==> Named(a, id) || Named(b, id)
  {
    forall id ensures Named(a + b, id) <==> Named(a, id) || Named(b, id) {
      if Named(a, id) {
        var i :| 0 <= i < |a| && a[i].id == id;
        assert (a + b)[i].id == id;
      }
      if Named(b, id) {
        var i :| 0 <= i < |b| && b[i].id == id;
        assert (a + b)[|a| + i].id == id;
      }
    }
  }

  // ---- the loop over sessions -----------------------------------------------------------------------------

  function Filter(xs: seq<Row>, p: Row -> bool): seq<Row> {
    if xs == [] then [] else Filter(Init(xs), p) + if p(Last(xs)) then [Last(xs)] else []
  }

  lemma {:induction false} FilterKeeps(xs: seq<Row>, p: Row -> bool)
    requires CanaryRunner.DistinctIds(xs)
    ensures CanaryRunner.DistinctIds(Filter(xs, p))
    ensures forall row :: row in Filter(xs, p) <==> row in xs && p(row)
  {
    if xs != [] {
      FilterKeeps(Init(xs), p);
      assert xs == Init(xs) + [Last(xs)];
      assert forall row :: row in Init(xs) ==> row.id != Last(xs).id;
    }
  }

  function Waiting(states: States): Row -> bool {
    (row: Row) => In(states, row.id, Queued) || In(states, row.id, Open)
  }

  function OfSession(session: int, states: States, state: State): Row -> bool {
    (row: Row) => row.session == session && In(states, row.id, state)
  }

  /** The sessions of the rows read, in the order of their first row. */
  function Sessions(xs: seq<Row>): seq<int> {
    if xs == [] then []
    else Sessions(Init(xs)) + if Last(xs).session in Sessions(Init(xs)) then [] else [Last(xs).session]
  }

  predicate DistinctSessions(keys: seq<int>) {
    forall i, j :: 0 <= i < j < |keys| ==> keys[i] != keys[j]
  }

  lemma {:induction false} SessionsAreDistinct(xs: seq<Row>)
    ensures DistinctSessions(Sessions(xs))
  {
    if xs != [] {
      SessionsAreDistinct(Init(xs));
    }
  }

  /** Every past session in turn, its rows as they were read at the start; an exception ends the loop. */
  function Settlement(
    slots: int, rows: Rows, read: States, states: States, xs: seq<Row>, keys: seq<int>, today: int,
    evaluate: Row -> Evaluation): Outcome
    decreases |keys|
  {
    if keys == [] then Outcome(states, false)
    else if keys[0] >= today then Settlement(slots, rows, read, states, xs, keys[1..], today, evaluate)
    else
      var open, queued := Filter(xs, OfSession(keys[0], read, Open)), Filter(xs, OfSession(keys[0], read, Queued));
      var o := Session(slots, rows, states, open, queued, evaluate);
      if o.failed then o else Settlement(slots, rows, read, o.states, xs, keys[1..], today, evaluate)
  }

  /** The rows read of the sessions still to come are as they were read. */
  predicate Ahead(rows: Rows, read: States, states: States, keys: seq<int>) {
    && read.Keys == states.Keys
    && forall id :: id in rows && id in read && rows[id].session in keys ==> states[id] == read[id]
  }

  /** Rows of other sessions, and of sessions not yet over, keep their state. */
  predicate OnlyPast(rows: Rows, before: States, after: States, today: int) {
    && before.Keys == after.Keys
    && forall id :: id in before && id in rows && after[id] != before[id] ==> rows[id].session < today
  }

  lemma {:induction false} GroupIsCurrent(
    rows: Rows, read: States, states: States, xs: seq<Row>, keys: seq<int>, state: State)
    requires keys != [] && Ahead(rows, read, states, keys) && CanaryRunner.DistinctIds(xs)
    requires forall i :: 0 <= i < |xs| ==> xs[i].id in rows && rows[xs[i].id] == xs[i]
    ensures Current(rows, states, Filter(xs, OfSession(keys[0], read, state)), state)
    ensures forall id :: Named(Filter(xs, OfSession(keys[0], read, state)), id) ==>
      id in rows && rows[id].session == keys[0]
  {
    var group := Filter(xs, OfSession(keys[0], read, state));
    FilterKeeps(xs, OfSession(keys[0], read, state));
    assert forall i :: 0 <= i < |group| ==> group[i] in xs;
  }

  /** Settling the next session touches its own rows only, so later sessions stay as they were read. */
  lemma {:induction false} OneSettles(
    slots: int, rows: Rows, read: States, states: States, xs: seq<Row>, keys: seq<int>, evaluate: Row -> Evaluation)
    requires Sound(rows, states) && keys != [] && Ahead(rows, read, states, keys) && DistinctSessions(keys)
    requires CanaryRunner.DistinctIds(xs) && forall i :: 0 <= i < |xs| ==> xs[i].id in rows && rows[xs[i].id] == xs[i]
    ensures var open, queued :=
      Filter(xs, OfSession(keys[0], read, Open)), Filter(xs, OfSession(keys[0], read, Queued));
      var after := Session(slots, rows, states, open, queued, evaluate).states;
      && Sound(rows, after)
      && |OpenIds(after)| <= Max(slots, |OpenIds(states)|)
      && after.Keys == states.Keys
      && (forall id :: id in states && id in rows && rows[id].session != keys[0] ==> after[id] == states[id])
      && Ahead(rows, read, after, keys[1..])
  {
    var open, queued := Filter(xs, OfSession(keys[0], read, Open)), Filter(xs, OfSession(keys[0], read, Queued));
    GroupIsCurrent(rows, read, states, xs, keys, Open);
    GroupIsCurrent(rows, read, states, xs, keys, Queued);
    SessionKeeps(slots, rows, states, open, queued, evaluate);
    JoinedNames(open, queued);
    assert forall k :: k in keys[1..] ==> k in keys && k != keys[0];
  }

  /** The whole settlement keeps the book within its slots and its symbols apart. */
  lemma {:induction false} SettlementKeeps(
    slots: int, rows: Rows, read: States, states: States, xs: seq<Row>, keys: seq<int>, today: int,
    evaluate: Row -> Evaluation)
    requires Sound(rows, states) && Ahead(rows, read, states, keys) && DistinctSessions(keys)
    requires CanaryRunner.DistinctIds(xs) && forall i :: 0 <= i < |xs| ==> xs[i].id in rows && rows[xs[i].id] == xs[i]
    ensures var after := Settlement(slots, rows, read, states, xs, keys, today, evaluate).states;
      && Sound(rows, after)
      && |OpenIds(after)| <= Max(slots, |OpenIds(states)|)
      && OnlyPast(rows, states, after, today)
    decreases |keys|
  {
    if keys != [] {
      assert forall k :: k in keys[1..] ==> k in keys && k != keys[0];
      if keys[0] >= today {
        SettlementKeeps(slots, rows, read, states, xs, keys[1..], today, evaluate);
      } else {
        var open, queued := Filter(xs, OfSession(keys[0], read, Open)), Filter(xs, OfSession(keys[0], read, Queued));
        var o := Session(slots, rows, states, open, queued, evaluate);
        OneSettles(slots, rows, read, states, xs, keys, evaluate);
        if !o.failed {
          SettlementKeeps(slots, rows, read, o.states, xs, keys[1..], today, evaluate);
        }
      }
    }
  }

  lemma {:induction false} SettlementNext(
    slots: int, rows: Rows, read: States, states: States, xs: seq<Row>, keys: seq<int>, i: nat, today: int,
    evaluate: Row -> Evaluation)
    requires i < |keys|
    ensures var open, queued :=
      Filter(xs, OfSession(keys[i], read, Open)), Filter(xs, OfSession(keys[i], read, Queued));
      var o := Session(slots, rows, states, open, queued, evaluate);
      Settlement(slots, rows, read, states, xs, keys[i..], today, evaluate) ==
        if keys[i] >= today then Settlement(slots, rows, read, states, xs, keys[i + 1..], today, evaluate)
        else if o.failed then o
        else Settlement(slots, rows, read, o.states, xs, keys[i + 1..], today, evaluate)
  {
    assert keys[i..][0] == keys[i] && keys[i..][1..] == keys[i + 1..];
  }

  // ---- the book object --------------------------------------------------------------------------------------

  class Book {
    const slots: int
    /** The candidates, in the order all queries return. */
    var order: seq<string>
    var rows: Rows
    var states: States

    predicate Valid()
      reads this
    {
      CanaryRunner.Table(order, rows) && Sound(rows, states)
    }

    constructor (slots: int)
      ensures Valid() && this.slots == slots && rows == map[] && states == map[]
    {
      this.slots, order, rows, states := slots, [], map[], map[];
    }

    method PutEach(xs: seq<Row>, state: State)
      modifies this`states
      ensures states == Put(old(states), xs, state)
    {
      for i := 0 to |xs|
        invariant Put(states, xs[i..], state) == Put(old(states), xs, state)
      {
        assert xs[i..][1..] == xs[i + 1..];
        states := states[xs[i].id := state];
      }
    }

    method WorkThrough(xs: seq<Row>, queued: bool, evaluate: Row -> Evaluation) returns (failed: bool)
      modifies this`states
      ensures Outcome(states, failed) == Working(rows, old(states), xs, queued, evaluate)
    {
      for i := 0 to |xs|
        invariant Working(rows, states, xs[i..], queued, evaluate) == Working(rows, old(states), xs, queued, evaluate)
      {
        assert xs[i..][0] == xs[i] && xs[i..][1..] == xs[i + 1..];
        if Failing(rows, states, xs[i], queued, evaluate(xs[i])) {
          return true;
        }
        states := Step(rows, states, xs[i], queued, evaluate(xs[i]));
      }
      return false;
    }

    method SettleSession(open: seq<Row>, queued: seq<Row>, evaluate: Row -> Evaluation) returns (failed: bool)
      modifies this`states
      ensures Outcome(states, failed) == Session(slots, rows, old(states), open, queued, evaluate)
    {
      var p := CanaryRunner.Pick(queued, CanaryRunner.Symbols(open));
      var capacity := FreeSlots(slots, states);
      PutEach(p.overlapped, OverlapSuppressed);
      PutEach(Beyond(p.selected, capacity), CapacitySuppressed);
      failed := WorkThrough(open, false, evaluate);
      if !failed {
        failed := WorkThrough(Take(p.selected, capacity), true, evaluate);
      }
    }

    /**
     Reads the open and queued rows once, groups them by entry session, and settles each session that
     is over.  The open rows never exceed the slots, unless they already did, and never share a symbol.
     */
    method SettleShadow(today: int, evaluate: Row -> Evaluation) returns (failed: bool)
      requires Valid()
      modifies this`states
      ensures Valid()
      ensures var xs := CanaryRunner.Select(order, rows, Waiting(old(states)));
        Outcome(states, failed) == Settlement(slots, rows, old(states), old(states), xs, Sessions(xs), today, evaluate)
      ensures |OpenIds(states)| <= Max(slots, |OpenIds(old(states))|)
      ensures OnlyPast(rows, old(states), states, today)
    {
      var read := states;
      var xs := CanaryRunner.Select(order, rows, Waiting(read));
      CanaryRunner.SelectIsExact(order, rows, Waiting(read));
      var keys := Sessions(xs);
      SessionsAreDistinct(xs);
      SettlementKeeps(slots, rows, read, read, xs, keys, today, evaluate);
      failed := SettleEach(read, xs, keys, today, evaluate);
    }

    /** The loop over the sessions, with the rows as they were read. */
    method SettleEach(read: States, xs: seq<Row>, keys: seq<int>, today: int, evaluate: Row -> Evaluation)
      returns (failed: bool)
      modifies this`states
      ensures Outcome(states, failed) == Settlement(slots, rows, read, old(states), xs, keys, today, evaluate)
    {
      for i := 0 to |keys|
        invariant Settlement(slots, rows, read, states, xs, keys[i..], today, evaluate)
          == Settlement(slots, rows, read, old(states), xs, keys, today, evaluate)
      {
        SettlementNext(slots, rows, read, states, xs, keys, i, today, evaluate);
        if keys[i] >= today {
          continue;
        }
        var open := Filter(xs, OfSession(keys[i], read, Open));
        var queued := Filter(xs, OfSession(keys[i], read, Queued));
        failed := SettleSession(open, queued, evaluate);
        if failed {
          return true;
        }
      }
      return false;
    }
  }
}
