/**
 The live passes of the canary runner: adoption, reconciliation and entry submission, each tied
 to the steps of the ledger-and-broker machine.
 */
module CanaryRunner {
  import opened Prelude
  import opened Canary

  /** Amounts are exact; times of day are integers. */
  datatype Config = Config(
    slots: int, sessions: int, cushion: real, maxCommission: real, maxBps: real, reserve: real,
    fallbackToCap: bool, opensAt: int, closesAt: int, lastDay: int, account: Option<string>, submitLead: int,
    cutoffLead: int)

  datatype Preview = Preview(valid: bool, commission: real, currency: string, warning: string, error: string)

  /** `Lost` is an order the broker accepted although the runner never heard back. */
  datatype Sending = Accepted(order: int) | Lost(order: int) | Refused

  /** What the outside world answers while a pass runs; a missing preview raised. */
  datatype Desk = Desk(preview: Row -> Option<Preview>, send: Row -> Sending, onTime: Row -> bool)

  datatype Account = Account(
    name: string, net: real, settled: real, available: real, positions: map<string, int>, costs: map<string, real>,
    openOrders: int)

  // ---- one candidate ----------------------------------------------------------------------------

  datatype Verdict = Reject(outcome: State) | Submit(required: real) | Raise

  function Notional(row: Row): real {
    row.quantity as real * row.reference
  }

  function Conservative(c: Config, row: Row): real {
    Notional(row) * (1.0 + c.cushion) + 2.0 * c.maxCommission
  }

  function PlannedCommission(c: Config, p: Preview): real {
    if p.valid then p.commission else c.maxCommission
  }

  function Required(c: Config, row: Row, p: Preview): real {
    Notional(row) * (1.0 + c.cushion) + PlannedCommission(c, p) + c.maxCommission
  }

  /** The texts whose upper case is USD. */
  predicate IsDollar(currency: string) {
    |currency| == 3 && currency[0] in "uU" && currency[1] in "sS\U{17F}" && currency[2] in "dD"
  }

  /** Currency, warning and commission are acceptable for this order. */
  predicate CleanPreview(c: Config, row: Row, p: Preview)
    requires Notional(row) != 0.0
  {
    && (p.valid && p.currency != "" ==> IsDollar(p.currency))
    && (p.warning == "" || p.warning == p.error)
    && PlannedCommission(c, p) <= c.maxCommission
    && PlannedCommission(c, p) / Notional(row) * 10_000.0 <= c.maxBps
  }

  function Judge(c: Config, row: Row, preview: Option<Preview>, cash: real): Verdict {
    if Conservative(c, row) > cash then Reject(CashSuppressed)
    else
      match preview
      case None => Raise
      case Some(p) =>
        if !p.valid && !c.fallbackToCap then Reject(PreflightRejected)
        else if Notional(row) == 0.0 then Raise
        else if CleanPreview(c, row, p) && Required(c, row, p) <= cash then Submit(Required(c, row, p))
        else Reject(if Required(c, row, p) > cash then CashSuppressed else PreflightRejected)
  }

  function Fee(c: Config, p: Preview): real {
    if p.valid then p.commission else c.maxCommission
  }

  /** A preview that can be acted on, for a candidate of notional `n`. */
  predicate UsablePreview(c: Config, n: real, preview: Option<Preview>) {
    preview.Some? && (preview.value.valid || c.fallbackToCap) && n != 0.0
  }

  /** The fee asked is within both caps, in dollars and without a warning of its own. */
  predicate FeePasses(c: Config, n: real, p: Preview)
    requires n != 0.0
  {
    && Fee(c, p) <= c.maxCommission && Fee(c, p) / n * 10_000.0 <= c.maxBps
    && (p.warning == "" || p.warning == p.error)
    && (p.valid ==> p.currency == "" || IsDollar(p.currency))
  }

  /**
   The verdict on a candidate of notional `n`: it is sent exactly if it is covered at the cushion with two
   full commissions, its preview is usable and the fee passes; then it is covered with that fee.
   */
  lemma {:induction false} SubmittedExactlyWhen(c: Config, row: Row, preview: Option<Preview>, cash: real, n: real)
    requires n == row.quantity as real * row.reference
    ensures var v, ceiling := Judge(c, row, preview, cash), n * (1.0 + c.cushion) + 2.0 * c.maxCommission;
      && (v.Submit? <==> ceiling <= cash && UsablePreview(c, n, preview) && FeePasses(c, n, preview.value))
      && (v.Submit? ==>
            v.required == n * (1.0 + c.cushion) + Fee(c, preview.value) + c.maxCommission <= ceiling)
  {
    assert n == Notional(row);
  }

  /** It is suppressed for cash exactly if one of the two covers fails, and raises without a usable preview. */
  lemma {:induction false} SuppressedExactlyWhen(c: Config, row: Row, preview: Option<Preview>, cash: real, n: real)
    requires n == row.quantity as real * row.reference
    ensures var v, ceiling := Judge(c, row, preview, cash), n * (1.0 + c.cushion) + 2.0 * c.maxCommission;
      && (v == Raise <==>
            ceiling <= cash && (preview == None || (n == 0.0 && (preview.value.valid || c.fallbackToCap))))
      && (v == Reject(CashSuppressed) <==>
            || ceiling > cash
            || (&& UsablePreview(c, n, preview)
                && n * (1.0 + c.cushion) + Fee(c, preview.value) + c.maxCommission > cash))
      && (v.Reject? ==> v.outcome in {CashSuppressed, PreflightRejected})
  {
    assert n == Notional(row);
  }

  /** A text reads USD in upper case exactly if each letter does; U+017F is the long s. */
  lemma {:induction false} DollarExactlyWhen(currency: string)
    ensures IsDollar(currency) <==>
      exists u, s, d :: currency == [u, s, d] && u in {'u', 'U'} && s in {'s', 'S', '\U{17F}'} && d in {'d', 'D'}
  {
    if |currency| == 3 {
      assert currency == [currency[0], currency[1], currency[2]];
    }
  }

  // ---- the loop over selected candidates ------------------------------------------------------------

  /** `spent` adds up what every order the broker accepted requires, whether or not its answer arrived. */
  datatype Book = Book(rows: map<string, Row>, orders: seq<Order>, cash: real, submitted: nat, spent: real)

  datatype Passed = Passed(book: Book, raised: bool)

  function Ids(xs: seq<Row>): (ids: seq<string>)
    ensures |ids| == |xs| && forall i :: 0 <= i < |xs| ==> ids[i] == xs[i].id
  {
    seq(|xs|, i requires 0 <= i < |xs| => xs[i].id)
  }

  function MarkAll(rows: map<string, Row>, xs: seq<Row>, state: State): map<string, Row> {
    if xs == [] then rows else MarkAll(Marked(rows, xs[0].id, state), xs[1..], state)
  }

  function EntryOrder(row: Row, order: int): Order {
    Order(order, EntryRef(row.id), "presubmitted", 0, row.quantity, 0.0)
  }

  /** Either the pass goes on to the next candidate with a new book, or it ends. */
  datatype Turn = Next(book: Book) | Stop(passed: Passed)

  /** Acts on the verdict about the first candidate left. */
  function Settle(d: Desk, exit: int, left: seq<Row>, b: Book, v: Verdict): Turn
    requires left != []
  {
    var row := left[0];
    match v
    case Raise => Stop(Passed(b, true))
    case Reject(outcome) => Next(b.(rows := Marked(b.rows, row.id, outcome)))
    case Submit(required) =>
      if !d.onTime(row) then Stop(Passed(b.(rows := MarkAll(b.rows, left, EntryWindowMissed)), false))
      else
        var armed := WithExit(b.rows, row.id, exit);
        match d.send(row)
        case Refused => Stop(Passed(b.(rows := armed), true))
        case Lost(order) =>
          Stop(Passed(
            Book(armed, b.orders + [EntryOrder(row, order)], b.cash - required, b.submitted, b.spent + required), true))
        case Accepted(order) =>
          Next(Book(
            Recorded(armed, row.id, order, row.quantity), b.orders + [EntryOrder(row, order)],
            b.cash - required, b.submitted + 1, b.spent + required))
  }

  function Decide(c: Config, d: Desk, capacity: nat, row: Row, b: Book): Verdict {
    if b.submitted >= capacity then Reject(CapacitySuppressed) else Judge(c, row, d.preview(row), b.cash)
  }

  function Pass(c: Config, d: Desk, exit: int, capacity: nat, left: seq<Row>, b: Book): Passed
    decreases |left|
  {
    if left == [] then Passed(b, false)
    else
      match Settle(d, exit, left, b, Decide(c, d, capacity, left[0], b))
      case Stop(passed) => passed
      case Next(book) => Pass(c, d, exit, capacity, left[1..], book)
  }

  function After(t: Turn): Book {
    match t
    case Next(book) => book
    case Stop(passed) => passed.book
  }

  lemma {:induction false} SettleSpends(d: Desk, exit: int, left: seq<Row>, b: Book, v: Verdict)
    requires left != []
    requires v.Submit? ==> v.required <= b.cash
    ensures var after := After(Settle(d, exit, left, b, v));
      && after.cash + after.spent == b.cash + b.spent
      && b.submitted <= after.submitted <= b.submitted + 1
      && |b.orders| + after.submitted - b.submitted <= |after.orders| <= |b.orders| + 1
      && (|after.orders| > |b.orders| ==> v.Submit? && after.cash >= 0.0 && after.spent == b.spent + v.required)
      && (|after.orders| == |b.orders| ==> after.spent == b.spent)
  {
  }

  lemma {:induction false} DecideIsCovered(c: Config, d: Desk, capacity: nat, row: Row, b: Book)
    ensures var v := Decide(c, d, capacity, row, b);
      && (v.Submit? ==> b.submitted < capacity && v.required <= b.cash)
      && (v.Reject? ==> Suppressed(v.outcome))
  {
    SubmittedExactlyWhen(c, row, d.preview(row), b.cash, row.quantity as real * row.reference);
    SuppressedExactlyWhen(c, row, d.preview(row), b.cash, row.quantity as real * row.reference);
  }

  /**
   Every order of a pass is paid from what was available when it began, and the slots suffice, even
   for an order whose answer was lost.
   */
  lemma {:induction false} PassSpendsAtMostCash(c: Config, d: Desk, exit: int, capacity: nat, left: seq<Row>, b: Book)
    requires b.submitted <= capacity
    ensures var after := Pass(c, d, exit, capacity, left, b).book;
      && after.cash + after.spent == b.cash + b.spent
      && b.submitted <= after.submitted <= capacity
      && |b.orders| + after.submitted - b.submitted <= |after.orders| <= |b.orders| + capacity - b.submitted
      && (|b.orders| < |after.orders| ==> after.cash >= 0.0)
      && (|b.orders| == |after.orders| ==> after.spent == b.spent)
    decreases |left|
  {
    if left != [] {
      var v := Decide(c, d, capacity, left[0], b);
      DecideIsCovered(c, d, capacity, left[0], b);
      SettleSpends(d, exit, left, b, v);
      var t := Settle(d, exit, left, b, v);
      if t.Next? {
        PassSpendsAtMostCash(c, d, exit, capacity, left[1..], t.book);
      }
    }
  }

  // ---- the pass is a run of the machine ---------------------------------------------------------------

  predicate AllIn(rows: map<string, Row>, xs: seq<Row>) {
    forall i :: 0 <= i < |xs| ==> xs[i].id in rows
  }

  lemma {:induction false} MissAllRuns(
    slots: int, rows: map<string, Row>, orders: seq<Order>, room: int, left: seq<Row>, outcome: State)
    requires AllIn(rows, left) && Suppressed(outcome)
    ensures Reaches(slots, World(rows, orders, Entering(room, Ids(left))),
                    World(MarkAll(rows, left, outcome), orders, Entering(room, [])))
    decreases |left|
  {
    var w := World(rows, orders, Entering(room, Ids(left)));
    Stays(slots, w);
    if left != [] {
      Further(slots, w, w, Suppress(outcome));
      var next := Marked(rows, left[0].id, outcome);
      assert Ids(left)[1..] == Ids(left[1..]);
      MissAllRuns(slots, next, orders, room, left[1..], outcome);
      Through(slots, w, World(next, orders, Entering(room, Ids(left[1..]))),
              World(MarkAll(rows, left, outcome), orders, Entering(room, [])));
    }
  }

  /** The world after a turn: the next candidate's, or a stopped runner. */
  function TurnWorld(t: Turn, capacity: int, left: seq<Row>): World
    requires left != []
  {
    match t
    case Next(book) => World(book.rows, book.orders, Entering(capacity - book.submitted, Ids(left[1..])))
    case Stop(passed) => World(passed.book.rows, passed.book.orders, Down)
  }

  lemma {:induction false} SettleRuns(
    slots: int, d: Desk, exit: int, capacity: int, left: seq<Row>, b: Book, v: Verdict)
    requires left != [] && AllIn(b.rows, left)
    requires v.Reject? ==> Suppressed(v.outcome)
    requires v.Submit? ==> b.submitted < capacity
    ensures Reaches(slots, World(b.rows, b.orders, Entering(capacity - b.submitted, Ids(left))),
                    TurnWorld(Settle(d, exit, left, b, v), capacity, left))
  {
    var w := World(b.rows, b.orders, Entering(capacity - b.submitted, Ids(left)));
    Stays(slots, w);
    assert Ids(left)[1..] == Ids(left[1..]);
    match v
    case Raise => Further(slots, w, w, Crash);
    case Reject(outcome) => Further(slots, w, w, Suppress(outcome));
    case Submit(_) =>
      if !d.onTime(left[0]) {
        MissAllRuns(slots, b.rows, b.orders, capacity - b.submitted, left, EntryWindowMissed);
        Further(slots, w,
          World(MarkAll(b.rows, left, EntryWindowMissed), b.orders, Entering(capacity - b.submitted, [])), Finish);
      } else {
        SendRuns(slots, w, left[0], d.send(left[0]), exit);
      }
  }

  /** Writing the exit session, sending and recording are three separate steps. */
  lemma {:induction false} SendRuns(slots: int, w: World, row: Row, sending: Sending, exit: int)
    requires w.stage.Entering? && AtRow(w.rows, w.stage.left) && w.stage.room > 0 && w.stage.left[0] == row.id
    ensures var armed := WithExit(w.rows, row.id, exit);
      match sending
      case Refused => Reaches(slots, w, World(armed, w.orders, Down))
      case Lost(order) => Reaches(slots, w, World(armed, w.orders + [EntryOrder(row, order)], Down))
      case Accepted(order) =>
        Reaches(slots, w, World(
          Recorded(armed, row.id, order, row.quantity), w.orders + [EntryOrder(row, order)],
          Entering(w.stage.room - 1, w.stage.left[1..])))
  {
    Stays(slots, w);
    Further(slots, w, w, Arm(exit));
    var armed := Do(slots, w, Arm(exit));
    match sending
    case Refused => Further(slots, w, armed, Crash);
    case Lost(order) =>
      Further(slots, w, armed, Send(EntryOrder(row, order)));
      Further(slots, w, Do(slots, armed, Send(EntryOrder(row, order))), Crash);
    case Accepted(order) =>
      Further(slots, w, armed, Send(EntryOrder(row, order)));
      Further(slots, w, Do(slots, armed, Send(EntryOrder(row, order))), Record(order, row.quantity));
  }

  lemma {:induction false} PassRuns(slots: int, c: Config, d: Desk, exit: int, capacity: nat, left: seq<Row>, b: Book)
    requires AllIn(b.rows, left)
    ensures var after := Pass(c, d, exit, capacity, left, b).book;
      Reaches(
        slots, World(b.rows, b.orders, Entering(capacity - b.submitted, Ids(left))),
        World(after.rows, after.orders, Down))
    decreases |left|
  {
    var w := World(b.rows, b.orders, Entering(capacity - b.submitted, Ids(left)));
    if left == [] {
      Stays(slots, w);
      Further(slots, w, w, Finish);
    } else {
      var v := Decide(c, d, capacity, left[0], b);
      var t := Settle(d, exit, left, b, v);
      DecideIsCovered(c, d, capacity, left[0], b);
      SettleRuns(slots, d, exit, capacity, left, b, v);
      if t.Next? {
        PassRuns(slots, c, d, exit, capacity, left[1..], t.book);
        var after := Pass(c, d, exit, capacity, left, b).book;
        Through(slots, w, TurnWorld(t, capacity, left), World(after.rows, after.orders, Down));
      }
    }
  }

  // ---- queries -------------------------------------------------------------------------------------------

  /** Every packet has one row, under its own id; `order` is the order all queries return. */
  predicate Table(order: seq<string>, rows: map<string, Row>) {
    && (forall i, j :: 0 <= i < j < |order| ==> order[i] != order[j])
    && (forall id :: id in rows ==> id in order)
    && (forall id :: id in order ==> id in rows)
    && (forall id :: id in rows ==> rows[id].id == id)
  }

  function Select(order: seq<string>, rows: map<string, Row>, p: Row -> bool): seq<Row> {
    if order == [] then []
    else Select(Init(order), rows, p) + if Last(order) in rows && p(rows[Last(order)]) then [rows[Last(order)]] else []
  }

  function IsActive(): Row -> bool {
    (row: Row) => Active(row.state)
  }

  function IsQueued(): Row -> bool {
    (row: Row) => row.state == Queued
  }

  /** Queued for a session already past. */
  function IsLate(today: int): Row -> bool {
    (row: Row) => row.state == Queued && row.session < today
  }

  function IsDue(today: int): Row -> bool {
    (row: Row) => row.state == Queued && row.session == today
  }

  predicate DistinctIds(xs: seq<Row>) {
    forall i, j :: 0 <= i < j < |xs| ==> xs[i].id != xs[j].id
  }

  /** The rows are copies of ledger rows that match. */
  predicate Copies(rows: map<string, Row>, xs: seq<Row>, p: Row -> bool) {
    forall i :: 0 <= i < |xs| ==> xs[i].id in rows && rows[xs[i].id] == xs[i] && p(xs[i])
  }

  /** A query returns each matching row once. */
  lemma {:induction false} SelectIsExact(order: seq<string>, rows: map<string, Row>, p: Row -> bool)
    requires forall i, j :: 0 <= i < j < |order| ==> order[i] != order[j]
    requires forall id :: id in rows ==> rows[id].id == id
    ensures var xs := Select(order, rows, p);
      && Copies(rows, xs, p)
      && DistinctIds(xs)
      && (forall i :: 0 <= i < |xs| ==> xs[i].id in order)
      && (forall id :: id in order && id in rows && p(rows[id]) ==> rows[id] in xs)
  {
    if order != [] {
      SelectIsExact(Init(order), rows, p);
      assert order == Init(order) + [Last(order)];
      assert Last(order) !in Init(order);
    }
  }

  lemma {:induction false} DistinctIdsSize(xs: seq<Row>)
    requires DistinctIds(xs)
    ensures |set i | 0 <= i < |xs| :: xs[i].id| == |xs|
  {
    if xs != [] {
      var ys := Init(xs);
      DistinctIdsSize(ys);
      assert (set i | 0 <= i < |xs| :: xs[i].id) == (set i | 0 <= i < |ys| :: ys[i].id) + {Last(xs).id};
    }
  }

  /** Counting the active rows of a query counts the active packets. */
  lemma {:induction false} ActiveCount(order: seq<string>, rows: map<string, Row>)
    requires Table(order, rows)
    ensures |Select(order, rows, IsActive())| == |ActiveIds(rows)|
  {
    var xs := Select(order, rows, IsActive());
    SelectIsExact(order, rows, IsActive());
    DistinctIdsSize(xs);
    forall id | id in ActiveIds(rows) ensures exists i :: 0 <= i < |xs| && xs[i].id == id {
      assert rows[id] in xs;
    }
    assert (set i | 0 <= i < |xs| :: xs[i].id) == ActiveIds(rows);
  }

  predicate Names(xs: seq<Row>, id: string) {
    exists i :: 0 <= i < |xs| && xs[i].id == id
  }

  lemma {:induction false} MarkAllAt(rows: map<string, Row>, xs: seq<Row>, state: State, id: string)
    ensures MarkAll(rows, xs, state).Keys == rows.Keys
    ensures id in rows ==> MarkAll(rows, xs, state)[id] == if Names(xs, id) then rows[id].(state := state) else rows[id]
    decreases |xs|
  {
    if xs != [] {
      MarkAllAt(Marked(rows, xs[0].id, state), xs[1..], state, id);
      assert Names(xs, id) <==> xs[0].id == id || Names(xs[1..], id) by {
        if Names(xs[1..], id) {
          var i :| 0 <= i < |xs| - 1 && xs[1..][i].id == id;
          assert xs[i + 1].id == id;
        }
        if Names(xs, id) {
          var i :| 0 <= i < |xs| && xs[i].id == id;
          assert i > 0 ==> xs[1..][i - 1].id == id;
        }
      }
    }
  }

  // ---- choosing candidates -----------------------------------------------------------------------------------

  datatype Picked = Picked(selected: seq<Row>, overlapped: seq<Row>, symbols: set<string>)

  /** The first candidate of each symbol that is not taken yet. */
  function Pick(xs: seq<Row>, taken: set<string>): Picked {
    if xs == [] then Picked([], [], taken) else PickNext(Pick(Init(xs), taken), Last(xs))
  }

  function PickNext(p: Picked, row: Row): Picked {
    if row.symbol in p.symbols then p.(overlapped := p.overlapped + [row])
    else p.(selected := p.selected + [row], symbols := p.symbols + {row.symbol})
  }

  /** The chosen candidates have new, pairwise different symbols; the others repeat a symbol. */
  lemma {:induction false} PickSeparates(xs: seq<Row>, taken: set<string>)
    ensures var p := Pick(xs, taken);
      && taken <= p.symbols
      && (forall i :: 0 <= i < |p.selected| ==>
            p.selected[i] in xs && p.selected[i].symbol !in taken && p.selected[i].symbol in p.symbols)
      && (forall i, j :: 0 <= i < j < |p.selected| ==> p.selected[i].symbol != p.selected[j].symbol)
      && (forall i :: 0 <= i < |p.overlapped| ==> p.overlapped[i] in xs && p.overlapped[i].symbol in p.symbols)
      && (forall x :: x in p.symbols ==> x in taken || exists i :: 0 <= i < |p.selected| && p.selected[i].symbol == x)
  {
    if xs != [] {
      PickSeparates(Init(xs), taken);
      var p, q := Pick(Init(xs), taken), Pick(xs, taken);
      if q.selected != p.selected {
        assert q.selected[|p.selected|] == Last(xs);
        forall x | x in p.symbols && x !in taken
          ensures exists i :: 0 <= i < |q.selected| && q.selected[i].symbol == x
        {
          var i :| 0 <= i < |p.selected| && p.selected[i].symbol == x;
          assert q.selected[i] == p.selected[i];
        }
      }
    }
  }

  lemma {:induction false} PickPartitions(xs: seq<Row>, taken: set<string>)
    requires DistinctIds(xs)
    ensures var p := Pick(xs, taken);
      && DistinctIds(p.overlapped)
      && (forall i :: 0 <= i < |p.selected| ==> !Names(p.overlapped, p.selected[i].id))
      && (forall row :: row in xs ==> row in p.selected || row in p.overlapped)
  {
    if xs != [] {
      PickPartitions(Init(xs), taken);
      PickSeparates(Init(xs), taken);
      var p := Pick(Init(xs), taken);
      LastIsNew(xs);
      PickNextPartitions(p, Last(xs));
      assert xs == Init(xs) + [Last(xs)];
    }
  }

  lemma {:induction false} LastIsNew(xs: seq<Row>)
    requires xs != [] && DistinctIds(xs)
    ensures DistinctIds(Init(xs)) && forall row :: row in Init(xs) ==> row.id != Last(xs).id
  {
  }

  lemma {:induction false} PickNextPartitions(p: Picked, row: Row)
    requires DistinctIds(p.overlapped)
    requires forall i :: 0 <= i < |p.selected| ==> !Names(p.overlapped, p.selected[i].id) && p.selected[i].id != row.id
    requires forall i :: 0 <= i < |p.overlapped| ==> p.overlapped[i].id != row.id
    ensures var q := PickNext(p, row);
      && DistinctIds(q.overlapped)
      && (forall i :: 0 <= i < |q.selected| ==> !Names(q.overlapped, q.selected[i].id))
      && (row in q.selected || row in q.overlapped)
      && (forall r :: r in p.selected || r in p.overlapped ==> r in q.selected || r in q.overlapped)
  {
    var q := PickNext(p, row);
    if row.symbol in p.symbols {
      assert q.overlapped[|p.overlapped|] == row;
      forall i | 0 <= i < |q.selected| ensures !Names(q.overlapped, q.selected[i].id) {
        assert !Names(p.overlapped, p.selected[i].id);
      }
    } else {
      assert q.selected[|p.selected|] == row;
    }
  }

  // ---- the whole entry pass --------------------------------------------------------------------------------

  function Upcoming(sessions: seq<int>, today: int, lastDay: int): seq<int> {
    if sessions == [] then []
    else Upcoming(Init(sessions), today, lastDay) + if today <= Last(sessions) <= lastDay then [Last(sessions)] else []
  }

  function Symbols(xs: seq<Row>): set<string> {
    set i | 0 <= i < |xs| :: xs[i].symbol
  }

  datatype Moment = Moment(today: int, time: int, sessions: seq<int>)

  /** Indexing that counts from the end for a negative index, and raises outside. */
  function ElementAt<T>(xs: seq<T>, i: int): Option<T> {
    if 0 <= i < |xs| then Some(xs[i]) else if -|xs| <= i < 0 then Some(xs[|xs| + i]) else None
  }

  datatype Plan = NoEntry | ExitOn(day: int) | PlanRaises

  /** From today through the last day allowed there is a holding horizon. */
  predicate HorizonComplete(c: Config, m: Moment) {
    var horizon := Upcoming(m.sessions, m.today, c.lastDay);
    m.today in horizon && |horizon| >= c.sessions
  }

  /** The last session of the holding horizon from today, where the pass may enter at all. */
  function PlannedExit(c: Config, m: Moment): Plan {
    if !(c.opensAt <= m.time < c.closesAt) || !HorizonComplete(c, m) then NoEntry
    else
      match ElementAt(Upcoming(m.sessions, m.today, c.lastDay), c.sessions - 1)
      case Some(day) => ExitOn(day)
      case None => PlanRaises
  }

  function Capacity(c: Config, order: seq<string>, rows: map<string, Row>): nat {
    Max(0, c.slots - |Select(order, rows, IsActive())|)
  }

  function Cash(c: Config, a: Account): real {
    (if a.settled <= a.available then a.settled else a.available) - c.reserve
  }

  function Expired(order: seq<string>, rows: map<string, Row>, today: int): map<string, Row> {
    MarkAll(rows, Select(order, rows, IsLate(today)), EntryWindowMissed)
  }

  function Chosen(order: seq<string>, rows: map<string, Row>, today: int): Picked {
    Pick(Select(order, rows, IsDue(today)), Symbols(Select(order, rows, IsActive())))
  }

  /** Marks the late rows, chooses candidates and works through them. */
  function EntryPass(
    c: Config, d: Desk, a: Account, m: Moment, order: seq<string>, rows: map<string, Row>, orders: seq<Order>): Passed
  {
    Submission(c, d, Cash(c, a), PlannedExit(c, m), m.today, order, Expired(order, rows, m.today), orders)
  }

  function Submission(
    c: Config, d: Desk, cash: real, plan: Plan, today: int, order: seq<string>, rows: map<string, Row>,
    orders: seq<Order>): Passed
  {
    if !plan.ExitOn? || Capacity(c, order, rows) == 0 then
      Passed(Book(rows, orders, cash, 0, 0.0), plan.PlanRaises?)
    else
      var p := Chosen(order, rows, today);
      var cleared := MarkAll(rows, p.overlapped, OverlapSuppressed);
      Pass(c, d, plan.day, Capacity(c, order, rows), p.selected, Book(cleared, orders, cash, 0, 0.0))
  }

  /**
   Whatever the broker accepts in a pass is paid from settled and from available cash, each less the
   reserve, and never exceeds the free slots.
   */
  lemma {:induction false} EntryPassSpendsAtMostCash(
    c: Config, d: Desk, a: Account, m: Moment, order: seq<string>, rows: map<string, Row>, orders: seq<Order>)
    ensures var after := EntryPass(c, d, a, m, order, rows, orders).book;
      && (|after.orders| > |orders| ==>
            after.spent <= a.settled - c.reserve && after.spent <= a.available - c.reserve)
      && (|after.orders| == |orders| ==> after.spent == 0.0)
      && |orders| + after.submitted <= |after.orders| <= |orders| + Capacity(c, order, Expired(order, rows, m.today))
  {
    SubmissionSpends(c, d, Cash(c, a), PlannedExit(c, m), m.today, order, Expired(order, rows, m.today), orders);
  }

  lemma {:induction false} SubmissionSpends(
    c: Config, d: Desk, cash: real, plan: Plan, today: int, order: seq<string>, rows: map<string, Row>,
    orders: seq<Order>)
    ensures var after := Submission(c, d, cash, plan, today, order, rows, orders).book;
      && (|after.orders| > |orders| ==> after.spent <= cash)
      && (|after.orders| == |orders| ==> after.spent == 0.0)
      && |orders| + after.submitted <= |after.orders| <= |orders| + Capacity(c, order, rows)
  {
    if plan.ExitOn? {
      var p := Chosen(order, rows, today);
      PassSpendsAtMostCash(
        c, d, plan.day, Capacity(c, order, rows), p.selected,
        Book(MarkAll(rows, p.overlapped, OverlapSuppressed), orders, cash, 0, 0.0));
    }
  }

  lemma {:induction false} DropAllRuns(
    slots: int, rows: map<string, Row>, orders: seq<Order>, xs: seq<Row>, outcome: State)
    requires DistinctIds(xs) && (forall i :: 0 <= i < |xs| ==> QueuedAt(rows, xs[i].id)) && Suppressed(outcome)
    ensures Reaches(slots, World(rows, orders, Ready), World(MarkAll(rows, xs, outcome), orders, Ready))
    decreases |xs|
  {
    var w := World(rows, orders, Ready);
    Stays(slots, w);
    if xs != [] {
      Further(slots, w, w, Drop(xs[0].id, outcome));
      var next := Marked(rows, xs[0].id, outcome);
      DropAllRuns(slots, next, orders, xs[1..], outcome);
      Through(slots, w, World(next, orders, Ready), World(MarkAll(rows, xs, outcome), orders, Ready));
    }
  }

  lemma {:induction false} ExpiryRuns(
    slots: int, order: seq<string>, rows: map<string, Row>, orders: seq<Order>, today: int)
    requires Table(order, rows)
    ensures Reaches(slots, World(rows, orders, Ready), World(Expired(order, rows, today), orders, Ready))
    ensures Table(order, Expired(order, rows, today))
  {
    var xs := Select(order, rows, IsLate(today));
    SelectIsExact(order, rows, IsLate(today));
    DropAllRuns(slots, rows, orders, xs, EntryWindowMissed);
    forall id ensures Expired(order, rows, today).Keys == rows.Keys
      ensures id in rows ==> Expired(order, rows, today)[id].id == id
    {
      MarkAllAt(rows, xs, EntryWindowMissed, id);
    }
  }

  /** Rows that are suppressed as repeats leave the chosen candidates able to enter. */
  lemma {:induction false} ChosenAreSelectable(order: seq<string>, rows: map<string, Row>, today: int)
    requires Table(order, rows)
    ensures var p := Chosen(order, rows, today);
      && DistinctIds(p.overlapped)
      && (forall i :: 0 <= i < |p.overlapped| ==> QueuedAt(rows, p.overlapped[i].id))
      && AllIn(rows, p.selected)
      && Selectable(MarkAll(rows, p.overlapped, OverlapSuppressed), Ids(p.selected))
  {
    var due, active := Select(order, rows, IsDue(today)), Select(order, rows, IsActive());
    SelectIsExact(order, rows, IsDue(today));
    SelectIsExact(order, rows, IsActive());
    PickSeparates(due, Symbols(active));
    PickPartitions(due, Symbols(active));
    var p := Chosen(order, rows, today);
    assert forall row :: row in due ==> row.id in rows && rows[row.id] == row && row.state == Queued;
    forall id | id in rows && Active(rows[id].state) ensures rows[id].symbol in Symbols(active) {
      assert rows[id] in active;
    }
    ClearedIsSelectable(rows, p.selected, p.overlapped);
  }

  lemma {:induction false} ClearedIsSelectable(rows: map<string, Row>, selected: seq<Row>, overlapped: seq<Row>)
    requires Copies(rows, selected, IsQueued())
    requires forall i :: 0 <= i < |selected| ==> !Names(overlapped, selected[i].id)
    requires forall i, j :: 0 <= i < j < |selected| ==> selected[i].symbol != selected[j].symbol
    requires forall i, id :: 0 <= i < |selected| && id in rows && Active(rows[id].state) ==>
      rows[id].symbol != selected[i].symbol
    ensures Selectable(MarkAll(rows, overlapped, OverlapSuppressed), Ids(selected))
  {
    var cleared := MarkAll(rows, overlapped, OverlapSuppressed);
    forall id ensures cleared.Keys == rows.Keys
      ensures id in rows ==>
        cleared[id] == if Names(overlapped, id) then rows[id].(state := OverlapSuppressed) else rows[id]
    {
      MarkAllAt(rows, overlapped, OverlapSuppressed, id);
    }
  }

  lemma {:induction false} ClearedKeepsActive(rows: map<string, Row>, overlapped: seq<Row>)
    requires forall i :: 0 <= i < |overlapped| ==> QueuedAt(rows, overlapped[i].id)
    ensures ActiveIds(MarkAll(rows, overlapped, OverlapSuppressed)) == ActiveIds(rows)
  {
    var cleared := MarkAll(rows, overlapped, OverlapSuppressed);
    forall id ensures id in ActiveIds(cleared) <==> id in ActiveIds(rows) {
      MarkAllAt(rows, overlapped, OverlapSuppressed, id);
    }
  }

  /** Dropping the repeats and then selecting the chosen rows is a run into the entry stage. */
  lemma {:induction false} ChoosingRuns(
    c: Config, today: int, order: seq<string>, rows: map<string, Row>, orders: seq<Order>)
    requires Table(order, rows) && Capacity(c, order, rows) > 0
    ensures var p := Chosen(order, rows, today);
      Reaches(
        c.slots, World(rows, orders, Ready),
        World(MarkAll(rows, p.overlapped, OverlapSuppressed), orders,
              Entering(Capacity(c, order, rows), Ids(p.selected))))
  {
    var p := Chosen(order, rows, today);
    ChosenAreSelectable(order, rows, today);
    ClearedKeepsActive(rows, p.overlapped);
    ActiveCount(order, rows);
    var cleared := MarkAll(rows, p.overlapped, OverlapSuppressed);
    DropAllRuns(c.slots, rows, orders, p.overlapped, OverlapSuppressed);
    Further(c.slots, World(rows, orders, Ready), World(cleared, orders, Ready), Canary.Enter(Ids(p.selected)));
  }

  lemma {:induction false} SubmissionRuns(
    c: Config, d: Desk, cash: real, plan: Plan, today: int, order: seq<string>, rows: map<string, Row>,
    orders: seq<Order>)
    requires Table(order, rows)
    ensures var after := Submission(c, d, cash, plan, today, order, rows, orders).book;
      Reaches(c.slots, World(rows, orders, Ready), World(after.rows, after.orders, Down))
  {
    var start, capacity := World(rows, orders, Ready), Capacity(c, order, rows);
    Stays(c.slots, start);
    if !plan.ExitOn? || capacity == 0 {
      Further(c.slots, start, start, Crash);
    } else {
      var p := Chosen(order, rows, today);
      ChosenAreSelectable(order, rows, today);
      var cleared := MarkAll(rows, p.overlapped, OverlapSuppressed);
      ChoosingRuns(c, today, order, rows, orders);
      var b := Book(cleared, orders, cash, 0, 0.0);
      var after := Pass(c, d, plan.day, capacity, p.selected, b).book;
      PassRuns(c.slots, c, d, plan.day, capacity, p.selected, b);
      Through(
        c.slots, start, World(cleared, orders, Entering(capacity, Ids(p.selected))),
        World(after.rows, after.orders, Down));
    }
  }

  /** The entry pass is a run of the machine, so all its invariants apply to it. */
  lemma {:induction false} EntryPassRuns(
    c: Config, d: Desk, a: Account, m: Moment, order: seq<string>, rows: map<string, Row>, orders: seq<Order>)
    requires Table(order, rows)
    ensures var after := EntryPass(c, d, a, m, order, rows, orders).book;
      Reaches(c.slots, World(rows, orders, Ready), World(after.rows, after.orders, Down))
  {
    var current := Expired(order, rows, m.today);
    var after := EntryPass(c, d, a, m, order, rows, orders).book;
    ExpiryRuns(c.slots, order, rows, orders, m.today);
    SubmissionRuns(c, d, Cash(c, a), PlannedExit(c, m), m.today, order, current, orders);
    Through(c.slots, World(rows, orders, Ready), World(current, orders, Ready), World(after.rows, after.orders, Down));
  }
}
