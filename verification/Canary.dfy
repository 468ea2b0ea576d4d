/**
 The live canary ledger beside a broker that does not share its transactions.

 Every ledger update commits on its own, and the process may die between any two steps.  One
 runner at a time writes the ledger and places orders.  An order reference carries a digest of the
 packet id, here the id itself.
 */
module Canary {
  import opened Prelude

  /** `Ineligible` is a candidate that detection itself rejected. */
  datatype State =
    | Queued | Submitted | Open | Closing
    | Closed | ClosedUnattributed | EntryFailed | EntryExpiredUnknown | EntryWindowMissed
    | OverlapSuppressed | CapacitySuppressed | CashSuppressed | PreflightRejected | Ineligible

  datatype Row = Row(
    id: string, symbol: string, session: int, quantity: int, reference: real, state: State,
    exit: Option<int>, parent: Option<int>, held: Option<int>, price: Option<real>,
    target: Option<int>, stop: Option<int>, timed: Option<int>)

  datatype Ref = EntryRef(packet: string) | ExitRef(packet: string, suffix: string)

  /** Statuses are lower case; quantities are whole shares. */
  datatype Order = Order(id: int, ref: Ref, status: string, filled: int, remaining: int, price: real)

  predicate RejectedStatus(status: string) {
    status == "cancelled" || status == "apicancelled" || status == "inactive"
  }

  predicate Active(state: State) {
    state == Submitted || state == Open || state == Closing
  }

  predicate Suppressed(state: State) {
    state in {EntryWindowMissed, OverlapSuppressed, CapacitySuppressed, CashSuppressed, PreflightRejected}
  }

  /** Some entry order of this packet stands in the list and has not been rejected. */
  predicate LiveIn(orders: seq<Order>, id: string) {
    exists k :: 0 <= k < |orders| && LiveOrder(orders[k], id)
  }

  predicate LiveOrder(order: Order, id: string) {
    order.ref == EntryRef(id) && !RejectedStatus(order.status)
  }

  /** Where the runner stands; `left` are the selected candidates it has not yet decided. */
  datatype Stage =
    | Down
    | Listing(seen: seq<Order>)
    | Ready
    | Entering(room: int, left: seq<string>)
    | Armed(room: int, left: seq<string>)
    | Sent(room: int, left: seq<string>)

  /** `orders` holds every entry order the broker ever accepted. */
  datatype World = World(rows: map<string, Row>, orders: seq<Order>, stage: Stage)

  datatype Step =
    | Detect(candidate: Row)
    | BrokerMoves(after: seq<Order>)
    | Crash
    | List(seen: seq<Order>)
    | Adopt(id: string, k: nat)
    | FinishAdoption
    | Reconcile(row: Row)
    | Drop(id: string, outcome: State)
    | Enter(selected: seq<string>)
    | Suppress(outcome: State)
    | Arm(exit: int)
    | Send(sent: Order)
    | Record(order: int, quantity: int)
    | Finish

  // ---- the environment ------------------------------------------------------------------

  /** A rejected order never revives, and identities never change. */
  predicate Evolves(a: seq<Order>, b: seq<Order>) {
    && |a| == |b|
    && forall k :: 0 <= k < |a| ==>
         a[k].id == b[k].id && a[k].ref == b[k].ref && (RejectedStatus(a[k].status) ==> RejectedStatus(b[k].status))
  }

  /** The broker's report, at the moment it is made, shows the live entry orders and no others. */
  ghost predicate Reports(orders: seq<Order>, seen: seq<Order>) {
    forall id :: LiveIn(orders, id) <==> LiveIn(seen, id)
  }

  predicate Placed(orders: seq<Order>, id: string) {
    exists k :: 0 <= k < |orders| && orders[k].ref == EntryRef(id)
  }

  // ---- steps ----------------------------------------------------------------------------

  /** What reconciliation and exits may do to an active row. */
  predicate MayBecome(a: Row, b: Row) {
    && Active(a.state) && b.state != Queued
    && b.id == a.id && b.symbol == a.symbol
    && (a.exit.Some? ==> b.exit == a.exit)
  }

  function ActiveIds(rows: map<string, Row>): set<string> {
    set id | id in rows && Active(rows[id].state)
  }

  predicate QueuedAt(rows: map<string, Row>, id: string) {
    id in rows && rows[id].state == Queued
  }

  /** Queued candidates whose symbols are new and pairwise different. */
  predicate Selectable(rows: map<string, Row>, selected: seq<string>) {
    && (forall i :: 0 <= i < |selected| ==> QueuedAt(rows, selected[i]))
    && (forall i, j :: 0 <= i < j < |selected| ==> rows[selected[i]].symbol != rows[selected[j]].symbol)
    && (forall i, id :: 0 <= i < |selected| && id in rows && Active(rows[id].state) ==>
          rows[id].symbol != rows[selected[i]].symbol)
  }

  predicate AtRow(rows: map<string, Row>, left: seq<string>) {
    left != [] && left[0] in rows
  }

  ghost predicate Can(slots: int, w: World, s: Step) {
    match s
    case Detect(row) => row.id !in w.rows && (row.state == Queued || row.state == Ineligible) && row.exit == None
    case BrokerMoves(after) => Evolves(w.orders, after)
    case Crash => true
    case List(seen) => w.stage.Down? && Reports(w.orders, seen)
    case Adopt(id, k) =>
      w.stage.Listing? && k < |w.stage.seen| && LiveOrder(w.stage.seen[k], id) && QueuedAt(w.rows, id)
    case FinishAdoption =>
      w.stage.Listing? && forall id :: QueuedAt(w.rows, id) ==> !LiveIn(w.stage.seen, id)
    case Reconcile(row) =>
      (w.stage.Listing? || w.stage.Ready?) && row.id in w.rows && MayBecome(w.rows[row.id], row)
    case Drop(id, outcome) => w.stage.Ready? && QueuedAt(w.rows, id) && Suppressed(outcome)
    case Enter(selected) =>
      w.stage.Ready? && Selectable(w.rows, selected) && |ActiveIds(w.rows)| < slots
    case Suppress(outcome) => w.stage.Entering? && AtRow(w.rows, w.stage.left) && Suppressed(outcome)
    case Arm(_) => w.stage.Entering? && AtRow(w.rows, w.stage.left) && w.stage.room > 0
    case Send(sent) => w.stage.Armed? && AtRow(w.rows, w.stage.left) && sent.ref == EntryRef(w.stage.left[0])
    case Record(_, _) => w.stage.Sent? && AtRow(w.rows, w.stage.left)
    case Finish => w.stage.Entering?
  }

  // An update whose packet is missing changes nothing.

  function Marked(rows: map<string, Row>, id: string, state: State): map<string, Row> {
    if id in rows then rows[id := rows[id].(state := state)] else rows
  }

  function WithExit(rows: map<string, Row>, id: string, exit: int): map<string, Row> {
    if id in rows then rows[id := rows[id].(exit := Some(exit))] else rows
  }

  function Recorded(rows: map<string, Row>, id: string, order: int, quantity: int): map<string, Row> {
    if id in rows then rows[id := SubmittedRow(rows[id], order, quantity)] else rows
  }

  function SubmittedRow(row: Row, order: int, quantity: int): Row {
    row.(state := Submitted, parent := Some(order), held := Some(quantity))
  }

  ghost function Do(slots: int, w: World, s: Step): World
    requires Can(slots, w, s)
  {
    match s
    case Detect(row) => w.(rows := w.rows[row.id := row])
    case BrokerMoves(after) => w.(orders := after)
    case Crash => w.(stage := Down)
    case List(seen) => w.(stage := Listing(seen))
    case Adopt(id, k) => w.(rows := Recorded(w.rows, id, w.stage.seen[k].id, w.rows[id].quantity))
    case FinishAdoption => w.(stage := Ready)
    case Reconcile(row) => w.(rows := w.rows[row.id := row])
    case Drop(id, outcome) => w.(rows := Marked(w.rows, id, outcome))
    case Enter(selected) => w.(stage := Entering(slots - |ActiveIds(w.rows)|, selected))
    case Suppress(outcome) =>
      World(Marked(w.rows, w.stage.left[0], outcome), w.orders, Entering(w.stage.room, w.stage.left[1..]))
    case Arm(exit) => World(WithExit(w.rows, w.stage.left[0], exit), w.orders, Armed(w.stage.room, w.stage.left))
    case Send(sent) => World(w.rows, w.orders + [sent], Sent(w.stage.room, w.stage.left))
    case Record(order, quantity) =>
      World(Recorded(w.rows, w.stage.left[0], order, quantity), w.orders, Entering(w.stage.room - 1, w.stage.left[1..]))
    case Finish => w.(stage := Down)
  }

  // ---- what every reachable world keeps -----------------------------------------------------

  /** The order this packet's row does not show yet: live, listed as live, or accepted a moment ago. */
  predicate Stray(w: World, id: string) {
    || LiveIn(w.orders, id)
    || (w.stage.Listing? && LiveIn(w.stage.seen, id))
    || (w.stage.Sent? && w.stage.left != [] && id == w.stage.left[0])
  }

  predicate Holds(w: World, id: string) {
    id in w.rows && (Active(w.rows[id].state) || (w.rows[id].state == Queued && Stray(w, id)))
  }

  function Held(w: World): set<string> {
    set id | id in w.rows && Holds(w, id)
  }

  /** Slots still promised to candidates that the current pass may submit. */
  function Promised(stage: Stage): int {
    match stage
    case Entering(room, _) => room
    case Armed(room, _) => room
    case Sent(room, _) => room - 1
    case _ => 0
  }

  ghost predicate WithinSlots(slots: int, w: World) {
    0 <= Promised(w.stage) && |Held(w)| + Promised(w.stage) <= slots
  }

  ghost predicate DistinctSymbols(w: World) {
    forall a, b :: Holds(w, a) && Holds(w, b) && a != b ==> w.rows[a].symbol != w.rows[b].symbol
  }

  ghost predicate ExitsWritten(w: World) {
    forall id :: Holds(w, id) ==> w.rows[id].exit.Some?
  }

  ghost predicate OrdersKnown(w: World) {
    && (forall id :: Placed(w.orders, id) ==> id in w.rows)
    && (w.stage.Listing? ==> forall id :: LiveIn(w.stage.seen, id) ==> id in w.rows)
    && (w.stage.Listing? ==> forall id :: LiveIn(w.orders, id) ==> LiveIn(w.stage.seen, id))
  }

  /** After adoption no queued row has a live order, except the one being sent. */
  ghost predicate NoStrays(w: World) {
    !w.stage.Down? && !w.stage.Listing? ==>
      forall id :: QueuedAt(w.rows, id) && LiveIn(w.orders, id) ==>
        w.stage.Sent? && w.stage.left != [] && id == w.stage.left[0]
  }

  /** Stages past selection keep pointing at queued rows. */
  predicate LeftQueued(w: World) {
    (w.stage.Entering? || w.stage.Armed? || w.stage.Sent?) ==> Selectable(w.rows, w.stage.left)
  }

  ghost predicate StageSound(w: World) {
    && LeftQueued(w)
    && (w.stage.Armed? || w.stage.Sent? ==> w.stage.left != [] && w.stage.room > 0)
    && (w.stage.Armed? || w.stage.Sent? ==> w.rows[w.stage.left[0]].exit.Some?)
  }

  ghost predicate Sound(slots: int, w: World) {
    && (forall id :: id in w.rows ==> w.rows[id].id == id)
    && StageSound(w)
    && NoStrays(w)
    && OrdersKnown(w)
    && ExitsWritten(w)
    && DistinctSymbols(w)
    && WithinSlots(slots, w)
  }

  // ---- orders ---------------------------------------------------------------------------------

  lemma {:induction false} LiveStaysPlaced(orders: seq<Order>, id: string)
    ensures LiveIn(orders, id) ==> Placed(orders, id)
  {
    if LiveIn(orders, id) {
      var k :| 0 <= k < |orders| && LiveOrder(orders[k], id);
      assert orders[k].ref == EntryRef(id);
    }
  }

  lemma {:induction false} EvolvingLosesOnly(a: seq<Order>, b: seq<Order>, id: string)
    requires Evolves(a, b)
    ensures LiveIn(b, id) ==> LiveIn(a, id)
    ensures Placed(b, id) ==> Placed(a, id)
  {
    if LiveIn(b, id) {
      var k :| 0 <= k < |b| && LiveOrder(b[k], id);
      assert LiveOrder(a[k], id);
    }
    if Placed(b, id) {
      var k :| 0 <= k < |b| && b[k].ref == EntryRef(id);
      assert a[k].ref == EntryRef(id);
    }
  }

  lemma {:induction false} SendingAddsOne(orders: seq<Order>, sent: Order, id: string)
    ensures LiveIn(orders + [sent], id) ==> LiveIn(orders, id) || sent.ref == EntryRef(id)
    ensures Placed(orders + [sent], id) ==> Placed(orders, id) || sent.ref == EntryRef(id)
    ensures LiveIn(orders, id) ==> LiveIn(orders + [sent], id)
  {
    var next := orders + [sent];
    if LiveIn(next, id) {
      var k :| 0 <= k < |next| && LiveOrder(next[k], id);
      if k < |orders| {
        assert LiveOrder(orders[k], id);
      }
    }
    if Placed(next, id) {
      var k :| 0 <= k < |next| && next[k].ref == EntryRef(id);
      if k < |orders| {
        assert orders[k].ref == EntryRef(id);
      }
    }
    if LiveIn(orders, id) {
      var k :| 0 <= k < |orders| && LiveOrder(orders[k], id);
      assert LiveOrder(next[k], id);
    }
  }

  // ---- one step ---------------------------------------------------------------------------------

  lemma {:induction false} SubsetSize<T>(a: set<T>, b: set<T>)
    requires a <= b
    ensures |a| <= |b|
  {
    if a != {} {
      var x :| x in a;
      SubsetSize(a - {x}, b - {x});
    }
  }

  /** A step that creates no new holding keeps the three holding invariants. */
  lemma {:induction false} NothingGained(slots: int, w: World, w': World)
    requires DistinctSymbols(w) && WithinSlots(slots, w)
    requires forall id :: Holds(w', id) ==>
      Holds(w, id) && w'.rows[id].symbol == w.rows[id].symbol && w'.rows[id].exit.Some?
    requires 0 <= Promised(w'.stage) <= Promised(w.stage)
    ensures ExitsWritten(w') && DistinctSymbols(w') && WithinSlots(slots, w')
  {
    SubsetSize(Held(w'), Held(w));
  }

  lemma {:induction false} DetectKeeps(slots: int, w: World, s: Step)
    requires Sound(slots, w) && Can(slots, w, s) && s.Detect?
    ensures Sound(slots, Do(slots, w, s))
  {
    var w', x := Do(slots, w, s), s.candidate.id;
    LiveStaysPlaced(w.orders, x);
    assert !Stray(w', x) && !Holds(w', x);
    NewRowKeepsStage(w, w', s.candidate);
    forall id | Holds(w', id) ensures Holds(w, id) && w'.rows[id] == w.rows[id] {
      assert id != x;
    }
    NothingGained(slots, w, w');
  }

  lemma {:induction false} NewRowKeepsStage(w: World, w': World, row: Row)
    requires StageSound(w) && row.id !in w.rows && !Active(row.state)
    requires w' == w.(rows := w.rows[row.id := row])
    ensures StageSound(w')
    ensures (w.stage.Sent? || w.stage.Armed? || w.stage.Entering?) ==> row.id !in w.stage.left
  {
    if w.stage.Sent? || w.stage.Armed? || w.stage.Entering? {
      assert forall i :: 0 <= i < |w.stage.left| ==> QueuedAt(w.rows, w.stage.left[i]);
    }
  }

  lemma {:induction false} BrokerMovesKeeps(slots: int, w: World, s: Step)
    requires Sound(slots, w) && Can(slots, w, s) && s.BrokerMoves?
    ensures Sound(slots, Do(slots, w, s))
  {
    var w' := Do(slots, w, s);
    forall id ensures LiveIn(s.after, id) ==> LiveIn(w.orders, id)
      ensures Placed(s.after, id) ==> Placed(w.orders, id)
    {
      EvolvingLosesOnly(w.orders, s.after, id);
    }
    NothingGained(slots, w, w');
  }

  lemma {:induction false} StopKeeps(slots: int, w: World, s: Step)
    requires Sound(slots, w) && Can(slots, w, s) && (s.Crash? || s.Finish?)
    ensures Sound(slots, Do(slots, w, s))
  {
    NothingGained(slots, w, Do(slots, w, s));
  }

  lemma {:induction false} ListKeeps(slots: int, w: World, s: Step)
    requires Sound(slots, w) && Can(slots, w, s) && s.List?
    ensures Sound(slots, Do(slots, w, s))
  {
    var w' := Do(slots, w, s);
    forall id ensures LiveIn(w.orders, id) ==> id in w.rows {
      LiveStaysPlaced(w.orders, id);
    }
    NothingGained(slots, w, w');
  }

  lemma {:induction false} AdoptKeeps(slots: int, w: World, s: Step)
    requires Sound(slots, w) && Can(slots, w, s) && s.Adopt?
    ensures Sound(slots, Do(slots, w, s))
  {
    assert LiveIn(w.stage.seen, s.id);
    NothingGained(slots, w, Do(slots, w, s));
  }

  lemma {:induction false} FinishAdoptionKeeps(slots: int, w: World, s: Step)
    requires Sound(slots, w) && Can(slots, w, s) && s.FinishAdoption?
    ensures Sound(slots, Do(slots, w, s))
  {
    NothingGained(slots, w, Do(slots, w, s));
  }

  lemma {:induction false} ReconcileKeeps(slots: int, w: World, s: Step)
    requires Sound(slots, w) && Can(slots, w, s) && s.Reconcile?
    ensures Sound(slots, Do(slots, w, s))
  {
    assert Holds(w, s.row.id);
    NothingGained(slots, w, Do(slots, w, s));
  }

  lemma {:induction false} DropKeeps(slots: int, w: World, s: Step)
    requires Sound(slots, w) && Can(slots, w, s) && s.Drop?
    ensures Sound(slots, Do(slots, w, s))
  {
    NothingGained(slots, w, Do(slots, w, s));
  }

  /** Once no stray order is left, exactly the active rows are held. */
  lemma {:induction false} HeldIsActive(slots: int, w: World)
    requires Sound(slots, w) && w.stage.Ready?
    ensures Held(w) == ActiveIds(w.rows)
  {
  }

  lemma {:induction false} EnterKeeps(slots: int, w: World, s: Step)
    requires Sound(slots, w) && Can(slots, w, s) && s.Enter?
    ensures Sound(slots, Do(slots, w, s))
  {
    var w' := Do(slots, w, s);
    HeldIsActive(slots, w);
    assert Held(w') == Held(w);
    assert ExitsWritten(w') && DistinctSymbols(w');
  }

  lemma {:induction false} SuppressKeeps(slots: int, w: World, s: Step)
    requires Sound(slots, w) && Can(slots, w, s) && s.Suppress?
    ensures Sound(slots, Do(slots, w, s))
  {
    var w', x := Do(slots, w, s), w.stage.left[0];
    TailSelectable(w.rows, w'.rows, w.stage.left);
    assert QueuedAt(w.rows, x);
    forall id | Holds(w', id) ensures Holds(w, id) && w'.rows[id] == w.rows[id] {
      assert id != x;
    }
    NothingGained(slots, w, w');
  }

  lemma {:induction false} ArmKeeps(slots: int, w: World, s: Step)
    requires Sound(slots, w) && Can(slots, w, s) && s.Arm?
    ensures Sound(slots, Do(slots, w, s))
  {
    var w', x := Do(slots, w, s), w.stage.left[0];
    assert QueuedAt(w.rows, x);
    SameStatesSelectable(w.rows, w'.rows, w.stage.left);
    forall id | Holds(w', id) ensures Holds(w, id) && w'.rows[id] == w.rows[id] {
      assert id != x;
    }
    NothingGained(slots, w, w');
  }

  lemma {:induction false} SameStatesSelectable(rows: map<string, Row>, next: map<string, Row>, left: seq<string>)
    requires Selectable(rows, left) && rows.Keys == next.Keys
    requires forall id :: id in rows ==> next[id].state == rows[id].state && next[id].symbol == rows[id].symbol
    ensures Selectable(next, left)
  {
  }

  /** Removing the head keeps the selection sound, if the head changes only its own row. */
  lemma {:induction false} TailSelectable(rows: map<string, Row>, next: map<string, Row>, left: seq<string>)
    requires left != [] && Selectable(rows, left)
    requires forall id :: id in rows <==> id in next
    requires forall id :: id in rows && id != left[0] ==> next[id] == rows[id]
    requires next[left[0]].symbol == rows[left[0]].symbol
    ensures Selectable(next, left[1..])
  {
    forall i | 0 <= i < |left| - 1 ensures left[1..][i] == left[i + 1] && left[i + 1] != left[0] {
      assert rows[left[0]].symbol != rows[left[i + 1]].symbol;
    }
  }

  /** One holding more, on a new symbol and with its exit written, taken from the promised slots. */
  lemma {:induction false} OneGained(slots: int, w: World, w': World, x: string)
    requires DistinctSymbols(w) && WithinSlots(slots, w)
    requires w'.rows == w.rows && x in w.rows && w.rows[x].exit.Some?
    requires forall id :: Holds(w', id) && id != x ==>
      Holds(w, id) && w.rows[id].symbol != w.rows[x].symbol && w.rows[id].exit.Some?
    requires 0 <= Promised(w'.stage) <= Promised(w.stage) - 1
    ensures ExitsWritten(w') && DistinctSymbols(w') && WithinSlots(slots, w')
  {
    assert Held(w') <= Held(w) + {x};
    SubsetSize(Held(w'), Held(w) + {x});
  }

  /** The one step that creates a holding takes a promised slot and a new symbol. */
  lemma {:induction false} SendKeeps(slots: int, w: World, s: Step)
    requires Sound(slots, w) && Can(slots, w, s) && s.Send?
    ensures Sound(slots, Do(slots, w, s))
  {
    var w', x := Do(slots, w, s), w.stage.left[0];
    forall id ensures LiveIn(w'.orders, id) ==> LiveIn(w.orders, id) || id == x
      ensures Placed(w'.orders, id) ==> Placed(w.orders, id) || id == x
    {
      SendingAddsOne(w.orders, w'.orders[|w.orders|], id);
    }
    assert forall id :: Holds(w, id) ==> Active(w.rows[id].state);
    OneGained(slots, w, w', x);
  }

  lemma {:induction false} RecordKeeps(slots: int, w: World, s: Step)
    requires Sound(slots, w) && Can(slots, w, s) && s.Record?
    ensures Sound(slots, Do(slots, w, s))
  {
    var w', x := Do(slots, w, s), w.stage.left[0];
    TailSelectable(w.rows, w'.rows, w.stage.left);
    assert Holds(w, x);
    NothingGained(slots, w, w');
  }

  // ---- whole runs ----------------------------------------------------------------------------------

  lemma {:induction false} StepKeepsSound(slots: int, w: World, s: Step)
    requires Sound(slots, w) && Can(slots, w, s)
    ensures Sound(slots, Do(slots, w, s))
  {
    match s
    case Detect(_) => DetectKeeps(slots, w, s);
    case BrokerMoves(_) => BrokerMovesKeeps(slots, w, s);
    case Crash => StopKeeps(slots, w, s);
    case List(_) => ListKeeps(slots, w, s);
    case Adopt(_, _) => AdoptKeeps(slots, w, s);
    case FinishAdoption => FinishAdoptionKeeps(slots, w, s);
    case Reconcile(_) => ReconcileKeeps(slots, w, s);
    case Drop(_, _) => DropKeeps(slots, w, s);
    case Enter(_) => EnterKeeps(slots, w, s);
    case Suppress(_) => SuppressKeeps(slots, w, s);
    case Arm(_) => ArmKeeps(slots, w, s);
    case Send(_) => SendKeeps(slots, w, s);
    case Record(_, _) => RecordKeeps(slots, w, s);
    case Finish => StopKeeps(slots, w, s);
  }

  /** A run goes through these worlds by these steps. */
  ghost predicate Run(slots: int, worlds: seq<World>, steps: seq<Step>) {
    && |worlds| == |steps| + 1
    && forall i :: 0 <= i < |steps| ==> Moves(slots, worlds[i], steps[i], worlds[i + 1])
  }

  ghost predicate Moves(slots: int, w: World, s: Step, w': World) {
    && Can(slots, w, s)
    && w' == Do(slots, w, s)
  }

  lemma {:induction false} RunKeepsSound(slots: int, worlds: seq<World>, steps: seq<Step>, i: nat)
    requires Run(slots, worlds, steps) && Sound(slots, worlds[0]) && i < |worlds|
    ensures Sound(slots, worlds[i])
  {
    if i > 0 {
      RunKeepsSound(slots, worlds, steps, i - 1);
      NextKeepsSound(slots, worlds, steps, i - 1);
    }
  }

  lemma {:induction false} NextKeepsSound(slots: int, worlds: seq<World>, steps: seq<Step>, i: nat)
    requires Run(slots, worlds, steps) && i < |steps| && Sound(slots, worlds[i])
    ensures Sound(slots, worlds[i + 1])
  {
    assert Moves(slots, worlds[i], steps[i], worlds[i + 1]);
    MoveKeepsSound(slots, worlds[i], steps[i], worlds[i + 1]);
  }

  lemma {:induction false} MoveKeepsSound(slots: int, w: World, s: Step, w': World)
    requires Sound(slots, w) && Moves(slots, w, s, w')
    ensures Sound(slots, w')
  {
    StepKeepsSound(slots, w, s);
  }

  /** Nothing recorded, nothing ordered, nobody running. */
  const FRESH := World(map[], [], Down)

  /**
   Crash-safe entries: in every world that any run with any crashes reaches, the entries held at
   the broker fit the slots, have different symbols, and carry their exit session.
   */
  lemma {:induction false} EntriesAreBounded(slots: nat, worlds: seq<World>, steps: seq<Step>, i: nat)
    requires Run(slots, worlds, steps) && worlds[0] == FRESH && i < |worlds|
    ensures |Held(worlds[i])| <= slots
    ensures DistinctSymbols(worlds[i])
    ensures ExitsWritten(worlds[i])
  {
    FreshRunIsSound(slots, worlds, steps, i);
  }

  function ExitOf(w: World, id: string): Option<int> {
    if id in w.rows then w.rows[id].exit else None
  }

  /** The step arms this packet: it writes the exit session of the head of the selection. */
  predicate Arms(w: World, s: Step, id: string) {
    s.Arm? && w.stage.Entering? && w.stage.left != [] && w.stage.left[0] == id
  }

  /** Submitted, adopted or beyond, under a written exit session. */
  predicate Settled(w: World, id: string) {
    id in w.rows && w.rows[id].state != Queued && w.rows[id].exit.Some?
  }

  /** One step moves a written exit session exactly when it arms the packet with another one. */
  lemma {:induction false} MoveMovesExitExactlyWhen(slots: int, w: World, s: Step, w': World, id: string)
    requires Moves(slots, w, s, w') && ExitOf(w, id).Some?
    requires forall x :: x in w.rows ==> w.rows[x].id == x
    ensures ExitOf(w', id) != ExitOf(w, id) <==> Arms(w, s, id) && Some(s.exit) != ExitOf(w, id)
    ensures ExitOf(w', id).Some?
  {
  }

  /** A packet is armed only while its row is queued and every order ever placed for it is rejected. */
  lemma {:induction false} ArmedOnlyWhenRejected(slots: int, w: World, s: Step, w': World, id: string)
    requires Sound(slots, w) && Moves(slots, w, s, w') && Arms(w, s, id)
    ensures QueuedAt(w.rows, id) && !Holds(w, id)
    ensures forall k :: 0 <= k < |w.orders| && w.orders[k].ref == EntryRef(id) ==> RejectedStatus(w.orders[k].status)
  {
    assert QueuedAt(w.rows, w.stage.left[0]);
    assert !LiveIn(w.orders, id);
    assert forall k :: 0 <= k < |w.orders| && w.orders[k].ref == EntryRef(id) ==> !LiveOrder(w.orders[k], id);
  }

  lemma {:induction false} MoveKeepsSettled(slots: int, w: World, s: Step, w': World, id: string)
    requires Sound(slots, w) && Moves(slots, w, s, w') && Settled(w, id)
    ensures Settled(w', id) && ExitOf(w', id) == ExitOf(w, id)
  {
    MoveMovesExitExactlyWhen(slots, w, s, w', id);
    if Arms(w, s, id) {
      ArmedOnlyWhenRejected(slots, w, s, w', id);
    }
  }

  lemma {:induction false} FreshRunIsSound(slots: nat, worlds: seq<World>, steps: seq<Step>, i: nat)
    requires Run(slots, worlds, steps) && worlds[0] == FRESH && i < |worlds|
    ensures Sound(slots, worlds[i])
    ensures i < |steps| ==> Moves(slots, worlds[i], steps[i], worlds[i + 1])
  {
    assert Held(FRESH) == {};
    RunKeepsSound(slots, worlds, steps, i);
  }

  /** Once submitted or adopted, a row keeps its exit session in every later world, closed or not. */
  lemma {:induction false} SettledExitIsFinal(
    slots: nat, worlds: seq<World>, steps: seq<Step>, i: nat, j: nat, id: string)
    requires Run(slots, worlds, steps) && worlds[0] == FRESH && i <= j < |worlds|
    requires Settled(worlds[i], id)
    ensures Settled(worlds[j], id) && ExitOf(worlds[j], id) == ExitOf(worlds[i], id)
    decreases j - i
  {
    if i < j {
      FreshRunIsSound(slots, worlds, steps, i);
      MoveKeepsSettled(slots, worlds[i], steps[i], worlds[i + 1], id);
      SettledExitIsFinal(slots, worlds, steps, i + 1, j, id);
    }
  }

  /** Step `k` of the run arms this packet with an exit session other than `exit`. */
  predicate ArmsAnew(worlds: seq<World>, steps: seq<Step>, k: nat, id: string, exit: Option<int>)
    requires k < |steps| && |worlds| == |steps| + 1
  {
    Arms(worlds[k], steps[k], id) && Some(steps[k].exit) != exit
  }

  /**
   A written exit session stays as it is over a stretch of a run exactly when the packet is not armed
   with another one.
   */
  lemma {:induction false} ExitStaysExactlyWhen(
    slots: nat, worlds: seq<World>, steps: seq<Step>, i: nat, j: nat, id: string)
    requires Run(slots, worlds, steps) && worlds[0] == FRESH && i <= j < |worlds|
    requires ExitOf(worlds[i], id).Some?
    ensures (forall k :: i <= k <= j ==> ExitOf(worlds[k], id) == ExitOf(worlds[i], id))
      <==> forall k :: i <= k < j ==> !ArmsAnew(worlds, steps, k, id, ExitOf(worlds[i], id))
    decreases j - i
  {
    if i < j {
      var last := j - 1;
      ExitStaysExactlyWhen(slots, worlds, steps, i, last, id);
      if ExitOf(worlds[last], id) == ExitOf(worlds[i], id) {
        FreshRunIsSound(slots, worlds, steps, last);
        MoveMovesExitExactlyWhen(slots, worlds[last], steps[last], worlds[j], id);
        assert ArmsAnew(worlds, steps, last, id, ExitOf(worlds[i], id)) <==>
          ExitOf(worlds[j], id) != ExitOf(worlds[i], id);
      }
    }
  }

  /** That only happens to a queued row after every order placed for it was rejected. */
  lemma {:induction false} ArmsAnewWhenRejected(slots: nat, worlds: seq<World>, steps: seq<Step>, k: nat, id: string)
    requires Run(slots, worlds, steps) && worlds[0] == FRESH && k < |steps| && Arms(worlds[k], steps[k], id)
    ensures QueuedAt(worlds[k].rows, id) && !Holds(worlds[k], id)
    ensures forall n :: 0 <= n < |worlds[k].orders| && worlds[k].orders[n].ref == EntryRef(id) ==>
      RejectedStatus(worlds[k].orders[n].status)
  {
    FreshRunIsSound(slots, worlds, steps, k);
    ArmedOnlyWhenRejected(slots, worlds[k], steps[k], worlds[k + 1], id);
  }

  /**
   The exit session is written before the send and never moves afterwards, through closing and any
   crashes, unless the broker rejects the order while its row is still queued.
   */
  lemma {:induction false} ExitIsFixed(
    slots: nat, worlds: seq<World>, steps: seq<Step>, i: nat, j: nat, id: string)
    requires Run(slots, worlds, steps) && worlds[0] == FRESH && i <= j < |worlds|
    requires Holds(worlds[i], id)
    requires forall k :: i < k < j && QueuedAt(worlds[k].rows, id) ==> Holds(worlds[k], id)
    ensures ExitOf(worlds[j], id) == ExitOf(worlds[i], id) && ExitOf(worlds[i], id).Some?
  {
    FreshRunIsSound(slots, worlds, steps, i);
    forall k | i <= k < j ensures !ArmsAnew(worlds, steps, k, id, ExitOf(worlds[i], id)) {
      if Arms(worlds[k], steps[k], id) {
        ArmsAnewWhenRejected(slots, worlds, steps, k, id);
      }
    }
    ExitStaysExactlyWhen(slots, worlds, steps, i, j, id);
  }

  /** A second entry order for one packet is only ever placed after every earlier one was rejected. */
  lemma {:induction false} OneLiveOrder(slots: nat, worlds: seq<World>, steps: seq<Step>, i: nat)
    requires Run(slots, worlds, steps) && worlds[0] == FRESH && i < |steps| && steps[i].Send?
    ensures worlds[i].stage.Armed? && worlds[i].stage.left != []
    ensures !LiveIn(worlds[i].orders, worlds[i].stage.left[0])
  {
    FreshRunIsSound(slots, worlds, steps, i);
  }

  ghost predicate Reaches(slots: int, w: World, w': World) {
    exists worlds, steps :: Run(slots, worlds, steps) && worlds[0] == w && Last(worlds) == w'
  }

  lemma {:induction false} Stays(slots: int, w: World)
    ensures Reaches(slots, w, w)
  {
    assert Run(slots, [w], []);
  }

  lemma {:induction false} Further(slots: int, w: World, w': World, s: Step)
    requires Reaches(slots, w, w') && Can(slots, w', s)
    ensures Reaches(slots, w, Do(slots, w', s))
  {
    var worlds, steps :| Run(slots, worlds, steps) && worlds[0] == w && Last(worlds) == w';
    var next := worlds + [Do(slots, w', s)];
    forall i | 0 <= i < |steps| + 1 ensures Moves(slots, next[i], (steps + [s])[i], next[i + 1]) {
      if i < |steps| {
        assert Moves(slots, worlds[i], steps[i], worlds[i + 1]);
      }
    }
    assert Run(slots, next, steps + [s]);
  }

  lemma {:induction false} Through(slots: int, a: World, b: World, c: World)
    requires Reaches(slots, a, b) && Reaches(slots, b, c)
    ensures Reaches(slots, a, c)
  {
    var worlds, steps :| Run(slots, worlds, steps) && worlds[0] == b && Last(worlds) == c;
    for i := 0 to |steps|
      invariant Reaches(slots, a, worlds[i])
    {
      assert Moves(slots, worlds[i], steps[i], worlds[i + 1]);
      Further(slots, a, worlds[i], steps[i]);
    }
  }

  lemma {:induction false} ReachingKeepsSound(slots: int, w: World, w': World)
    requires Sound(slots, w) && Reaches(slots, w, w')
    ensures Sound(slots, w')
  {
    var worlds, steps :| Run(slots, worlds, steps) && worlds[0] == w && Last(worlds) == w';
    RunKeepsSound(slots, worlds, steps, |worlds| - 1);
  }

  // ---- when the exit session of a held entry is final -------------------------------------------------

  lemma {:induction false} ReachingKeepsSettled(slots: int, w: World, w': World, id: string)
    requires Sound(slots, w) && Reaches(slots, w, w') && Settled(w, id)
    ensures Settled(w', id) && ExitOf(w', id) == ExitOf(w, id)
  {
    var worlds, steps :| Run(slots, worlds, steps) && worlds[0] == w && Last(worlds) == w';
    for i := 0 to |steps|
      invariant Settled(worlds[i], id) && ExitOf(worlds[i], id) == ExitOf(w, id)
    {
      RunKeepsSound(slots, worlds, steps, i);
      assert Moves(slots, worlds[i], steps[i], worlds[i + 1]);
      MoveKeepsSettled(slots, worlds[i], steps[i], worlds[i + 1], id);
    }
  }

  /** The same orders, every one of them rejected by the broker. */
  function AllRejected(orders: seq<Order>): (rejected: seq<Order>)
    ensures Evolves(orders, rejected) && forall id :: !LiveIn(rejected, id)
  {
    seq(|orders|, i requires 0 <= i < |orders| => orders[i].(status := "inactive"))
  }

  /** A held queued row leaves room for itself among the active rows, and none has its symbol. */
  lemma {:induction false} HeldMayEnter(slots: int, w: World, id: string)
    requires Sound(slots, w) && Holds(w, id) && QueuedAt(w.rows, id)
    ensures |ActiveIds(w.rows)| < slots && Selectable(w.rows, [id])
  {
    assert ActiveIds(w.rows) <= Held(w) - {id};
    SubsetSize(ActiveIds(w.rows), Held(w) - {id});
    forall a | a in w.rows && Active(w.rows[a].state) ensures w.rows[a].symbol != w.rows[id].symbol {
      assert Holds(w, a) && a != id;
    }
  }

  /** A crash, rejected orders and one more pass: the packet is held again, under any exit session. */
  lemma {:induction false} HeldMayBeRearmed(slots: int, w: World, id: string, exit: int) returns (w': World)
    requires Sound(slots, w) && Holds(w, id) && QueuedAt(w.rows, id)
    ensures Reaches(slots, w, w') && Holds(w', id) && ExitOf(w', id) == Some(exit)
  {
    var orders, rows := AllRejected(w.orders), w.rows;
    var sent := Order(0, EntryRef(id), "presubmitted", 0, 0, 0.0);
    HeldMayEnter(slots, w, id);
    Stays(slots, w);
    Further(slots, w, w, Crash);
    Further(slots, w, World(rows, w.orders, Down), BrokerMoves(orders));
    Further(slots, w, World(rows, orders, Down), List([]));
    Further(slots, w, World(rows, orders, Listing([])), FinishAdoption);
    Further(slots, w, World(rows, orders, Ready), Enter([id]));
    var room := slots - |ActiveIds(rows)|;
    Further(slots, w, World(rows, orders, Entering(room, [id])), Arm(exit));
    var armed := World(WithExit(rows, id, exit), orders, Armed(room, [id]));
    Further(slots, w, armed, Send(sent));
    w' := World(armed.rows, orders + [sent], Sent(room, [id]));
  }

  /**
   The exit session of a held entry is the same in every world that can follow if and only if its row
   is no longer queued; while it is queued, the packet may yet be held under another exit session.
   */
  lemma {:induction false} ExitIsFinalExactlyWhen(slots: int, w: World, id: string)
    requires Sound(slots, w) && Holds(w, id)
    ensures (forall w' :: Reaches(slots, w, w') ==> ExitOf(w', id) == ExitOf(w, id)) <==> w.rows[id].state != Queued
    ensures (forall w' :: Reaches(slots, w, w') && Holds(w', id) ==> ExitOf(w', id) == ExitOf(w, id))
      <==> w.rows[id].state != Queued
  {
    if w.rows[id].state == Queued {
      var w' := HeldMayBeRearmed(slots, w, id, ExitOf(w, id).value + 1);
    } else {
      forall w' | Reaches(slots, w, w') ensures ExitOf(w', id) == ExitOf(w, id) {
        ReachingKeepsSettled(slots, w, w', id);
      }
    }
  }

  // ---- an exit session that moves ------------------------------------------------------------------

  function Sample(exit: Option<int>): Row {
    Row("p", "ABC", 5, 1, 10.0, Queued, exit, None, None, None, None, None, None)
  }

  function SampleOrder(status: string): Order {
    Order(1, EntryRef("p"), status, 0, 1, 0.0)
  }

  /** From a listed ledger with one queued row and no live order, an entry is sent under `exit`. */
  lemma {:induction false} SampleIsSent(row: Row, orders: seq<Order>, sent: Order, exit: int)
    requires row.id == "p" && row.state == Queued && sent.ref == EntryRef("p")
    requires forall id :: !LiveIn(orders, id)
    ensures Reaches(1, World(map["p" := row], orders, Down),
                    World(map["p" := row.(exit := Some(exit))], orders + [sent], Sent(1, ["p"])))
  {
    var down, rows := World(map["p" := row], orders, Down), map["p" := row];
    Stays(1, down);
    Further(1, down, down, List([]));
    Further(1, down, World(rows, orders, Listing([])), FinishAdoption);
    var ready := World(rows, orders, Ready);
    assert ActiveIds(rows) == {};
    Further(1, down, ready, Enter(["p"]));
    Further(1, down, World(rows, orders, Entering(1, ["p"])), Arm(exit));
    var armed := World(map["p" := row.(exit := Some(exit))], orders, Armed(1, ["p"]));
    assert rows["p" := rows["p"].(exit := Some(exit))] == armed.rows;
    Further(1, down, armed, Send(sent));
  }

  /**
   Without the condition of `ExitIsFixed` the exit session can move after a send: the runner dies
   before recording, the broker rejects the order, and the next pass arms the packet anew.
   */
  lemma {:induction false} RejectedUnrecordedExitMoves()
    ensures exists held, later ::
      && Reaches(1, FRESH, held) && Reaches(1, held, later)
      && Holds(held, "p") && ExitOf(held, "p") == Some(7)
      && Holds(later, "p") && ExitOf(later, "p") == Some(8)
  {
    var live, dead := SampleOrder("presubmitted"), SampleOrder("inactive");
    var detected := World(map["p" := Sample(None)], [], Down);
    var held := World(map["p" := Sample(Some(7))], [] + [live], Sent(1, ["p"]));
    var later := World(map["p" := Sample(Some(8))], [dead] + [live], Sent(1, ["p"]));
    Stays(1, FRESH);
    Further(1, FRESH, FRESH, Detect(Sample(None)));
    SampleIsSent(Sample(None), [], live, 7);
    Through(1, FRESH, detected, held);
    Stays(1, held);
    Further(1, held, held, Crash);
    var down := World(held.rows, [live], Down);
    Further(1, held, down, BrokerMoves([dead]));
    SampleIsSent(Sample(Some(7)), [dead], live, 8);
    Through(1, held, World(held.rows, [dead], Down), later);
  }
}
