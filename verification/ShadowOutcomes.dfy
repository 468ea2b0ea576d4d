/** What becomes of every shadow candidate of a session that is settled to its end. */
module ShadowOutcomes {
  import opened Prelude
  import opened Shadow
  import CanaryRunner

  // ---- which candidates are chosen ----------------------------------------------------------------

  /** No open row of the session and no earlier candidate has the symbol. */
  predicate FirstOfSymbol(open: seq<Row>, queued: seq<Row>, i: nat)
    requires i < |queued|
  {
    && (forall k :: 0 <= k < |open| ==> open[k].symbol != queued[i].symbol)
    && forall j :: 0 <= j < i ==> queued[j].symbol != queued[i].symbol
  }

  function Firsts(open: seq<Row>, queued: seq<Row>, i: nat): set<nat>
    requires i <= |queued|
  {
    set j: nat | j < i && FirstOfSymbol(open, queued, j)
  }

  /** How many earlier candidates are the first of their symbol. */
  function Rank(open: seq<Row>, queued: seq<Row>, i: nat): nat
    requires i <= |queued|
  {
    |Firsts(open, queued, i)|
  }

  lemma {:induction false} RankNext(open: seq<Row>, queued: seq<Row>, i: nat)
    requires i < |queued|
    ensures Rank(open, queued, i + 1) == Rank(open, queued, i) + if FirstOfSymbol(open, queued, i) then 1 else 0
  {
    var hit, before, after := FirstOfSymbol(open, queued, i), Firsts(open, queued, i), Firsts(open, queued, i + 1);
    forall j: nat ensures j in after <==> j in before || (hit && j == i) {
    }
    assert after == if hit then before + {i} else before;
  }

  predicate PickedAt(selected: seq<Row>, open: seq<Row>, queued: seq<Row>, j: nat)
    requires j < |queued|
  {
    Rank(open, queued, j) < |selected| && selected[Rank(open, queued, j)] == queued[j]
  }

  lemma {:induction false} PickNextOne(open: seq<Row>, queued: seq<Row>, n: nat)
    requires 0 < n <= |queued|
    ensures Candidates(open, queued[..n]) ==
      CanaryRunner.PickNext(Candidates(open, queued[..n - 1]), queued[n - 1])
  {
    assert Init(queued[..n]) == queued[..n - 1] && Last(queued[..n]) == queued[n - 1];
  }

  lemma {:induction false} TakenSymbols(open: seq<Row>, queued: seq<Row>, n: nat, x: string)
    requires n <= |queued|
    ensures x in Candidates(open, queued[..n]).symbols <==>
      || (exists k :: 0 <= k < |open| && open[k].symbol == x)
      || exists j :: 0 <= j < n && queued[j].symbol == x
  {
    if n > 0 {
      TakenSymbols(open, queued, n - 1, x);
      PickNextOne(open, queued, n);
      assert (exists j :: 0 <= j < n && queued[j].symbol == x) <==>
        queued[n - 1].symbol == x || exists j :: 0 <= j < n - 1 && queued[j].symbol == x;
    }
  }

  lemma {:induction false} TakenExactlyWhen(open: seq<Row>, queued: seq<Row>, n: nat)
    requires n < |queued|
    ensures queued[n].symbol in Candidates(open, queued[..n]).symbols <==> !FirstOfSymbol(open, queued, n)
  {
    TakenSymbols(open, queued, n, queued[n].symbol);
  }

  lemma {:induction false} PickedCount(open: seq<Row>, queued: seq<Row>, n: nat)
    requires n <= |queued|
    ensures |Candidates(open, queued[..n]).selected| == Rank(open, queued, n)
  {
    if n > 0 {
      PickedCount(open, queued, n - 1);
      RankNext(open, queued, n - 1);
      PickNextOne(open, queued, n);
      TakenExactlyWhen(open, queued, n - 1);
    }
  }

  /** A candidate that is the first of its symbol is picked at its rank. */
  lemma {:induction false} PickedInOrder(open: seq<Row>, queued: seq<Row>, n: nat, j: nat)
    requires j < n <= |queued| && FirstOfSymbol(open, queued, j)
    ensures PickedAt(Candidates(open, queued[..n]).selected, open, queued, j)
  {
    PickNextOne(open, queued, n);
    if j < n - 1 {
      PickedInOrder(open, queued, n - 1, j);
      PickedStays(Candidates(open, queued[..n - 1]).selected, Candidates(open, queued[..n]).selected, open, queued, j);
    } else {
      PickedCount(open, queued, j);
      TakenExactlyWhen(open, queued, j);
    }
  }

  lemma {:induction false} PickedStays(before: seq<Row>, after: seq<Row>, open: seq<Row>, queued: seq<Row>, j: nat)
    requires j < |queued| && before <= after && PickedAt(before, open, queued, j)
    ensures PickedAt(after, open, queued, j)
  {
  }

  /** The others are passed over. */
  lemma {:induction false} PassedOverAt(open: seq<Row>, queued: seq<Row>, n: nat, j: nat)
    requires j < n <= |queued| && !FirstOfSymbol(open, queued, j)
    ensures queued[j] in Candidates(open, queued[..n]).overlapped
  {
    PickNextOne(open, queued, n);
    if j < n - 1 {
      PassedOverAt(open, queued, n - 1, j);
    } else {
      TakenExactlyWhen(open, queued, j);
    }
  }

  // ---- working through rows ---------------------------------------------------------------------------

  /** The state an evaluated row is left in. */
  function Evaluated(before: State, e: Evaluation): State {
    match e
    case NoEntry => before
    case Holding => Open
    case Finished => Closed
    case Failed => before
  }

  predicate DistinctSymbols(xs: seq<Row>) {
    forall i, j :: 0 <= i < j < |xs| ==> xs[i].symbol != xs[j].symbol
  }

  /** Changing one row does not matter to a row of another symbol. */
  lemma {:induction false} OtherSymbol(rows: Rows, states: States, row: Row, state: State, other: Row)
    requires row.id in rows && rows[row.id] == row && row.symbol != other.symbol
    ensures OtherOpen(rows, states[row.id := state], other) == OtherOpen(rows, states, other)
  {
  }

  /** A pass that ends gives each of its rows the state its evaluation asks for, or passes it over. */
  lemma {:induction false} WorkingDecides(
    rows: Rows, states: States, xs: seq<Row>, queued: bool, evaluate: Row -> Evaluation, i: nat)
    requires Sound(rows, states) && Current(rows, states, xs, Before(queued)) && i < |xs|
    requires queued ==> DistinctSymbols(xs)
    requires !Working(rows, states, xs, queued, evaluate).failed
    ensures Decides(rows, states, xs[i], queued, evaluate, Working(rows, states, xs, queued, evaluate).states)
    decreases |xs|
  {
    var next := Step(rows, states, xs[0], queued, evaluate(xs[0]));
    StepKeepsSound(rows, states, xs[0], queued, evaluate(xs[0]));
    TailCurrent(rows, states, next, xs, Before(queued));
    if i == 0 {
      FirstDecided(rows, states, xs, queued, evaluate);
    } else {
      WorkingDecides(rows, next, xs[1..], queued, evaluate, i - 1);
      StepOther(rows, states, xs[0], queued, evaluate(xs[0]), xs[i]);
    }
  }

  lemma {:induction false} FirstDecided(
    rows: Rows, states: States, xs: seq<Row>, queued: bool, evaluate: Row -> Evaluation)
    requires Sound(rows, states) && Current(rows, states, xs, Before(queued)) && xs != []
    requires !Working(rows, states, xs, queued, evaluate).failed
    ensures Decides(rows, states, xs[0], queued, evaluate, Working(rows, states, xs, queued, evaluate).states)
  {
    var next := Step(rows, states, xs[0], queued, evaluate(xs[0]));
    StepKeepsSound(rows, states, xs[0], queued, evaluate(xs[0]));
    TailCurrent(rows, states, next, xs, Before(queued));
    WorkingKeeps(rows, next, xs[1..], queued, evaluate);
    NotInTail(xs);
  }

  predicate Decides(
    rows: Rows, states: States, row: Row, queued: bool, evaluate: Row -> Evaluation, after: States)
  {
    && row.id in after
    && after[row.id] ==
       if queued && OtherOpen(rows, states, row) then OverlapSuppressed else Evaluated(Before(queued), evaluate(row))
  }

  lemma {:induction false} StepOther(rows: Rows, states: States, row: Row, queued: bool, e: Evaluation, other: Row)
    requires row.id in rows && rows[row.id] == row && (queued ==> row.symbol != other.symbol)
    ensures queued ==> OtherOpen(rows, Step(rows, states, row, queued, e), other) == OtherOpen(rows, states, other)
  {
    if queued {
      match Settled(rows, states, row, queued, e)
      case Some(state) => OtherSymbol(rows, states, row, state, other);
      case None =>
    }
  }

  lemma {:induction false} NotInTail(xs: seq<Row>)
    requires xs != [] && CanaryRunner.DistinctIds(xs)
    ensures !Named(xs[1..], xs[0].id)
  {
    assert forall i :: 0 <= i < |xs| - 1 ==> xs[1..][i] == xs[i + 1];
  }

  /** A pass raises exactly when evaluating one of its rows does, unless that row was passed over. */
  lemma {:induction false} WorkingFailsExactlyWhen(
    rows: Rows, states: States, xs: seq<Row>, queued: bool, evaluate: Row -> Evaluation)
    requires Sound(rows, states) && Current(rows, states, xs, Before(queued)) && (queued ==> DistinctSymbols(xs))
    ensures Working(rows, states, xs, queued, evaluate).failed <==>
      exists i :: 0 <= i < |xs| && Failing(rows, states, xs[i], queued, evaluate(xs[i]))
    decreases |xs|
  {
    if xs != [] && !Failing(rows, states, xs[0], queued, evaluate(xs[0])) {
      var e, next, tail := evaluate(xs[0]), Step(rows, states, xs[0], queued, evaluate(xs[0])), xs[1..];
      StepKeepsSound(rows, states, xs[0], queued, e);
      TailCurrent(rows, states, next, xs, Before(queued));
      WorkingFailsExactlyWhen(rows, next, tail, queued, evaluate);
      forall i | 0 < i < |xs|
        ensures Failing(rows, next, tail[i - 1], queued, evaluate(tail[i - 1]))
          <==> Failing(rows, states, xs[i], queued, evaluate(xs[i]))
      {
        StepOther(rows, states, xs[0], queued, e, xs[i]);
      }
      if exists i :: 0 <= i < |xs| && Failing(rows, states, xs[i], queued, evaluate(xs[i])) {
        var i :| 0 <= i < |xs| && Failing(rows, states, xs[i], queued, evaluate(xs[i]));
        assert Failing(rows, next, tail[i - 1], queued, evaluate(tail[i - 1]));
      }
    }
  }

  lemma {:induction false} PutAt(states: States, xs: seq<Row>, state: State, id: string)
    requires id in states
    ensures id in Put(states, xs, state)
    ensures Put(states, xs, state)[id] == if Named(xs, id) then state else states[id]
    decreases |xs|
  {
    if xs != [] {
      PutAt(states[xs[0].id := state], xs[1..], state, id);
      TailNames(xs, id);
    }
  }

  // ---- one session ----------------------------------------------------------------------------------------

  /** Some open row of the whole book has the symbol. */
  predicate Held(rows: Rows, states: States, symbol: string) {
    exists id :: id in rows && In(states, id, Open) && rows[id].symbol == symbol
  }

  /** A candidate is evaluated if it is the first of its symbol, a slot was free, and no open row has the symbol. */
  predicate Evaluates(slots: int, rows: Rows, states: States, open: seq<Row>, queued: seq<Row>, i: nat)
    requires i < |queued|
  {
    && FirstOfSymbol(open, queued, i)
    && Rank(open, queued, i) + |set id | id in states && states[id] == Open| < slots
    && !Held(rows, states, queued[i].symbol)
  }

  /** What a session makes of its candidate `i`. */
  function Fate(
    slots: int, rows: Rows, states: States, open: seq<Row>, queued: seq<Row>, i: nat, e: Evaluation): State
    requires i < |queued|
  {
    if !FirstOfSymbol(open, queued, i) then OverlapSuppressed
    else if Rank(open, queued, i) + |set id | id in states && states[id] == Open| >= slots then CapacitySuppressed
    else if Held(rows, states, queued[i].symbol) then OverlapSuppressed
    else Evaluated(Queued, e)
  }

  predicate HasSlot(slots: int, states: States, open: seq<Row>, queued: seq<Row>, j: nat)
    requires j < |queued|
  {
    FirstOfSymbol(open, queued, j) && Rank(open, queued, j) + |OpenIds(states)| < slots
  }

  /** The rows that reach the second pass have different symbols; a row with a slot is among them at its rank. */
  lemma {:induction false} FreshAreDistinct(slots: int, states: States, open: seq<Row>, queued: seq<Row>)
    ensures Fresh(slots, states, open, queued) <= Candidates(open, queued).selected
    ensures DistinctSymbols(Fresh(slots, states, open, queued))
  {
    CanaryRunner.PickSeparates(queued, CanaryRunner.Symbols(open));
  }

  lemma {:induction false} FreshAt(slots: int, states: States, open: seq<Row>, queued: seq<Row>, j: nat)
    requires j < |queued| && FirstOfSymbol(open, queued, j)
    ensures PickedAt(Candidates(open, queued).selected, open, queued, j)
    ensures HasSlot(slots, states, open, queued, j) <==>
      PickedAt(Fresh(slots, states, open, queued), open, queued, j)
  {
    assert queued[..|queued|] == queued;
    PickedInOrder(open, queued, |queued|, j);
  }

  /** Every row of the second pass is a candidate with a slot. */
  lemma {:induction false} FreshComesFrom(slots: int, states: States, open: seq<Row>, queued: seq<Row>, k: nat)
    returns (j: nat)
    requires k < |Fresh(slots, states, open, queued)|
    ensures j < |queued| && HasSlot(slots, states, open, queued, j)
    ensures queued[j] == Fresh(slots, states, open, queued)[k]
  {
    assert queued[..|queued|] == queued;
    PickedCount(open, queued, |queued|);
    j := PositionOfRank(open, queued, k, |queued|);
    PickedInOrder(open, queued, |queued|, j);
  }

  lemma {:induction false} PositionOfRank(open: seq<Row>, queued: seq<Row>, k: nat, n: nat) returns (j: nat)
    requires n <= |queued| && k < Rank(open, queued, n)
    ensures j < n && FirstOfSymbol(open, queued, j) && Rank(open, queued, j) == k
  {
    RankNext(open, queued, n - 1);
    if k == Rank(open, queued, n - 1) {
      j := n - 1;
    } else {
      j := PositionOfRank(open, queued, k, n - 1);
    }
  }

  /** Suppressing candidates and evaluating the open rows does not change whether a candidate's symbol is held. */
  lemma {:induction false} HeldAtItsTurn(
    rows: Rows, states: States, middle: States, open: seq<Row>, queued: seq<Row>, i: nat)
    requires Current(rows, states, open, Open) && Current(rows, states, queued, Queued)
    requires i < |queued| && FirstOfSymbol(open, queued, i)
    requires middle.Keys == states.Keys
    requires forall id :: id in states && !Named(open, id) ==> (middle[id] == Open <==> states[id] == Open)
    ensures OtherOpen(rows, middle, queued[i]) <==> Held(rows, states, queued[i].symbol)
  {
    forall id | id in rows && rows[id].symbol == queued[i].symbol ensures !Named(open, id) {
      assert forall k :: 0 <= k < |open| ==> rows[open[k].id] == open[k];
    }
    assert In(states, queued[i].id, Queued);
  }

  /** The session after its first pass: who was suppressed, and what is left for the second. */
  lemma {:induction false} FirstPass(
    slots: int, rows: Rows, states: States, open: seq<Row>, queued: seq<Row>, evaluate: Row -> Evaluation)
    requires Sound(rows, states) && Current(rows, states, open, Open) && Current(rows, states, queued, Queued)
    requires !Working(rows, Cleared(slots, states, open, queued), open, false, evaluate).failed
    ensures var middle := Working(rows, Cleared(slots, states, open, queued), open, false, evaluate).states;
      && Sound(rows, middle) && middle.Keys == states.Keys
      && Current(rows, middle, Fresh(slots, states, open, queued), Queued)
      && (forall id :: id in states && !Named(open, id) ==> (middle[id] == Open <==> states[id] == Open))
      && (forall id :: id in states && Named(queued, id) ==>
            id in Cleared(slots, states, open, queued) && middle[id] == Cleared(slots, states, open, queued)[id])
  {
    var next, chosen := Cleared(slots, states, open, queued), Fresh(slots, states, open, queued);
    ClearingKeeps(slots, rows, states, open, queued);
    WorkingKeeps(rows, next, open, false, evaluate);
    StatesSeparate(rows, states, open, queued);
    StillCurrent(rows, next, Working(rows, next, open, false, evaluate).states, open, chosen, Queued);
    forall id | id in states ensures next[id] == Open <==> states[id] == Open {
      assert id in OpenIds(next) <==> id in OpenIds(states);
    }
  }

  /** Who was suppressed before the passes. */
  lemma {:induction false} ClearedExactly(
    slots: int, rows: Rows, states: States, open: seq<Row>, queued: seq<Row>, i: nat)
    requires Current(rows, states, queued, Queued) && i < |queued|
    ensures var next, chosen := Cleared(slots, states, open, queued), Fresh(slots, states, open, queued);
      && queued[i].id in next
      && (!FirstOfSymbol(open, queued, i) ==> next[queued[i].id] == OverlapSuppressed && !Named(chosen, queued[i].id))
      && (FirstOfSymbol(open, queued, i) && Rank(open, queued, i) + |OpenIds(states)| >= slots ==>
            next[queued[i].id] == CapacitySuppressed && !Named(chosen, queued[i].id))
  {
    var p, n := Candidates(open, queued), FreeSlots(slots, states);
    var beyond, once := Beyond(p.selected, n), Put(states, p.overlapped, OverlapSuppressed);
    assert queued[..|queued|] == queued;
    if FirstOfSymbol(open, queued, i) {
      PickedInOrder(open, queued, |queued|, i);
    } else {
      PassedOverAt(open, queued, |queued|, i);
    }
    PickedAreCurrent(rows, states, open, queued);
    CutApart(rows, states, p.selected, n);
    PutAt(states, p.overlapped, OverlapSuppressed, queued[i].id);
    PutAt(once, beyond, CapacitySuppressed, queued[i].id);
    if !FirstOfSymbol(open, queued, i) {
      var k :| 0 <= k < |p.overlapped| && p.overlapped[k] == queued[i];
      assert Named(p.overlapped, queued[i].id);
      assert !Named(p.selected, queued[i].id);
    } else if Rank(open, queued, i) + |OpenIds(states)| >= slots {
      var k := Rank(open, queued, i);
      assert PickedAt(p.selected, open, queued, i);
      assert beyond[k - n] == queued[i];
      assert Named(beyond, queued[i].id);
    }
  }

  /** Every candidate of a session that is settled to its end meets its fate. */
  lemma {:induction false} SessionDecides(
    slots: int, rows: Rows, states: States, open: seq<Row>, queued: seq<Row>, evaluate: Row -> Evaluation, i: nat)
    requires Sound(rows, states) && Current(rows, states, open, Open) && Current(rows, states, queued, Queued)
    requires !Session(slots, rows, states, open, queued, evaluate).failed && i < |queued|
    ensures var after := Session(slots, rows, states, open, queued, evaluate).states;
      && queued[i].id in after
      && after[queued[i].id] == Fate(slots, rows, states, open, queued, i, evaluate(queued[i]))
  {
    var next, chosen := Cleared(slots, states, open, queued), Fresh(slots, states, open, queued);
    var middle := Working(rows, next, open, false, evaluate).states;
    FirstPass(slots, rows, states, open, queued, evaluate);
    ClearedExactly(slots, rows, states, open, queued, i);
    WorkingKeeps(rows, middle, chosen, true, evaluate);
    assert Named(queued, queued[i].id);
    if FirstOfSymbol(open, queued, i) && Rank(open, queued, i) + |OpenIds(states)| < slots {
      var k := Rank(open, queued, i);
      FreshAreDistinct(slots, states, open, queued);
      FreshAt(slots, states, open, queued, i);
      WorkingDecides(rows, middle, chosen, true, evaluate, k);
      HeldAtItsTurn(rows, states, middle, open, queued, i);
    }
  }

  /** Every open row of a session that is settled to its end follows its evaluation. */
  lemma {:induction false} OpenRowsDecided(
    slots: int, rows: Rows, states: States, open: seq<Row>, queued: seq<Row>, evaluate: Row -> Evaluation, i: nat)
    requires Sound(rows, states) && Current(rows, states, open, Open) && Current(rows, states, queued, Queued)
    requires !Session(slots, rows, states, open, queued, evaluate).failed && i < |open|
    ensures var after := Session(slots, rows, states, open, queued, evaluate).states;
      open[i].id in after && after[open[i].id] == Evaluated(Open, evaluate(open[i]))
  {
    var next, chosen := Cleared(slots, states, open, queued), Fresh(slots, states, open, queued);
    var middle := Working(rows, next, open, false, evaluate).states;
    ClearingKeeps(slots, rows, states, open, queued);
    FirstPass(slots, rows, states, open, queued, evaluate);
    WorkingDecides(rows, next, open, false, evaluate, i);
    WorkingKeeps(rows, middle, chosen, true, evaluate);
    StatesSeparate(rows, states, open, queued);
    assert Named(open, open[i].id);
    assert forall k :: 0 <= k < |chosen| ==> Named(queued, chosen[k].id);
  }

  /** Settling a session raises exactly when evaluating one of its open rows or evaluated candidates does. */
  lemma {:induction false} SessionFailsExactlyWhen(
    slots: int, rows: Rows, states: States, open: seq<Row>, queued: seq<Row>, evaluate: Row -> Evaluation)
    requires Sound(rows, states) && Current(rows, states, open, Open) && Current(rows, states, queued, Queued)
    ensures Session(slots, rows, states, open, queued, evaluate).failed <==>
      || (exists i :: 0 <= i < |open| && evaluate(open[i]).Failed?)
      || exists i :: 0 <= i < |queued| && Evaluates(slots, rows, states, open, queued, i) && evaluate(queued[i]).Failed?
  {
    var next, chosen := Cleared(slots, states, open, queued), Fresh(slots, states, open, queued);
    ClearingKeeps(slots, rows, states, open, queued);
    WorkingFailsExactlyWhen(rows, next, open, false, evaluate);
    assert forall i :: 0 <= i < |open| ==>
      (Failing(rows, next, open[i], false, evaluate(open[i])) <==> evaluate(open[i]).Failed?);
    var first := Working(rows, next, open, false, evaluate);
    if !first.failed {
      FirstPass(slots, rows, states, open, queued, evaluate);
      FreshAreDistinct(slots, states, open, queued);
      WorkingFailsExactlyWhen(rows, first.states, chosen, true, evaluate);
      SecondPassFails(slots, rows, states, first.states, open, queued, evaluate);
    }
  }

  lemma {:induction false} SecondPassFails(
    slots: int, rows: Rows, states: States, middle: States, open: seq<Row>, queued: seq<Row>,
    evaluate: Row -> Evaluation)
    requires Current(rows, states, open, Open) && Current(rows, states, queued, Queued)
    requires middle.Keys == states.Keys
    requires forall id :: id in states && !Named(open, id) ==> (middle[id] == Open <==> states[id] == Open)
    ensures var chosen := Fresh(slots, states, open, queued);
      (exists k :: 0 <= k < |chosen| && Failing(rows, middle, chosen[k], true, evaluate(chosen[k]))) <==>
      exists i :: 0 <= i < |queued| && Evaluates(slots, rows, states, open, queued, i) && evaluate(queued[i]).Failed?
  {
    var chosen := Fresh(slots, states, open, queued);
    if k: nat :| k < |chosen| && Failing(rows, middle, chosen[k], true, evaluate(chosen[k])) {
      var i := FreshComesFrom(slots, states, open, queued, k);
      HeldAtItsTurn(rows, states, middle, open, queued, i);
      assert Evaluates(slots, rows, states, open, queued, i);
    }
    if i :| 0 <= i < |queued| && Evaluates(slots, rows, states, open, queued, i) && evaluate(queued[i]).Failed? {
      HeldAtItsTurn(rows, states, middle, open, queued, i);
      FreshAt(slots, states, open, queued, i);
      assert Failing(rows, middle, chosen[Rank(open, queued, i)], true, evaluate(queued[i]));
    }
  }

  // ---- all sessions -----------------------------------------------------------------------------------------

  /** Filtering keeps the order: each row stands or falls in its place. */
  lemma {:induction false} FilterInPlace(a: seq<Row>, x: Row, b: seq<Row>, p: Row -> bool)
    ensures Filter(a + [x] + b, p) == Filter(a, p) + (if p(x) then [x] else []) + Filter(b, p)
  {
    var xs := a + [x];
    if b == [] {
      assert xs + b == xs && Init(xs) == a && Last(xs) == x;
    } else {
      assert Init(xs + b) == xs + Init(b) && Last(xs + b) == Last(b);
      FilterInPlace(a, x, Init(b), p);
    }
  }

  /** The sessions settled are those of the rows read. */
  lemma {:induction false} SessionsCover(xs: seq<Row>, session: int)
    ensures session in Sessions(xs) <==> exists i :: 0 <= i < |xs| && xs[i].session == session
  {
    if xs != [] {
      SessionsCover(Init(xs), session);
      assert xs[|xs| - 1] == Last(xs);
      assert forall i :: 0 <= i < |xs| - 1 ==> Init(xs)[i] == xs[i];
    }
  }

  /** Every row of the session has met its fate, the session being settled from the states `before`. */
  ghost predicate SettledFrom(
    slots: int, rows: Rows, before: States, after: States, open: seq<Row>, queued: seq<Row>,
    evaluate: Row -> Evaluation)
  {
    && (forall i :: 0 <= i < |open| ==> In(after, open[i].id, Evaluated(Open, evaluate(open[i]))))
    && (forall i :: 0 <= i < |queued| ==>
          In(after, queued[i].id, Fate(slots, rows, before, open, queued, i, evaluate(queued[i]))))
  }

  lemma {:induction false} SessionSettles(
    slots: int, rows: Rows, states: States, open: seq<Row>, queued: seq<Row>, evaluate: Row -> Evaluation)
    requires Sound(rows, states) && Current(rows, states, open, Open) && Current(rows, states, queued, Queued)
    requires !Session(slots, rows, states, open, queued, evaluate).failed
    ensures SettledFrom(
      slots, rows, states, Session(slots, rows, states, open, queued, evaluate).states, open, queued, evaluate)
  {
    var after := Session(slots, rows, states, open, queued, evaluate).states;
    forall i | 0 <= i < |open| ensures In(after, open[i].id, Evaluated(Open, evaluate(open[i]))) {
      OpenRowsDecided(slots, rows, states, open, queued, evaluate, i);
    }
    forall i | 0 <= i < |queued|
      ensures In(after, queued[i].id, Fate(slots, rows, states, open, queued, i, evaluate(queued[i])))
    {
      SessionDecides(slots, rows, states, open, queued, evaluate, i);
    }
  }

  /** Settling the sessions to come leaves the rows of a session not among them. */
  lemma {:induction false} LaterSessionsKeep(
    slots: int, rows: Rows, read: States, states: States, xs: seq<Row>, keys: seq<int>, today: int,
    evaluate: Row -> Evaluation, id: string)
    requires Sound(rows, states) && Ahead(rows, read, states, keys) && DistinctSessions(keys)
    requires CanaryRunner.DistinctIds(xs) && forall i :: 0 <= i < |xs| ==> xs[i].id in rows && rows[xs[i].id] == xs[i]
    requires id in rows && rows[id].session !in keys
    ensures var after := Settlement(slots, rows, read, states, xs, keys, today, evaluate).states;
      id in after && after[id] == states[id]
    decreases |keys|
  {
    if keys != [] {
      assert forall k :: k in keys[1..] ==> k in keys && k != keys[0];
      assert rows[id].session !in keys[1..] && rows[id].session != keys[0];
      if keys[0] >= today {
        LaterSessionsKeep(slots, rows, read, states, xs, keys[1..], today, evaluate, id);
      } else {
        var open, queued := Filter(xs, OfSession(keys[0], read, Open)), Filter(xs, OfSession(keys[0], read, Queued));
        var o := Session(slots, rows, states, open, queued, evaluate);
        OneSettles(slots, rows, read, states, xs, keys, evaluate);
        if !o.failed {
          LaterSessionsKeep(slots, rows, read, o.states, xs, keys[1..], today, evaluate, id);
        }
      }
    }
  }

  /** The rows read of one session that were in that state. */
  function Group(xs: seq<Row>, session: int, read: States, state: State): seq<Row> {
    Filter(xs, OfSession(session, read, state))
  }

  /**
   A settlement that ends without an exception has settled every past session once: for each there
   are sound states, in which its rows are as they were read, from which all its rows met their fate.
   */
  lemma {:induction false} SettlementDecides(
    slots: int, rows: Rows, read: States, states: States, xs: seq<Row>, keys: seq<int>, today: int,
    evaluate: Row -> Evaluation, m: nat)
    requires Sound(rows, states) && Ahead(rows, read, states, keys) && DistinctSessions(keys)
    requires CanaryRunner.DistinctIds(xs) && forall i :: 0 <= i < |xs| ==> xs[i].id in rows && rows[xs[i].id] == xs[i]
    requires !Settlement(slots, rows, read, states, xs, keys, today, evaluate).failed
    requires m < |keys| && keys[m] < today
    ensures var open, queued := Group(xs, keys[m], read, Open), Group(xs, keys[m], read, Queued);
      var after := Settlement(slots, rows, read, states, xs, keys, today, evaluate).states;
      exists before ::
        && Sound(rows, before)
        && Ahead(rows, read, before, [keys[m]])
        && SettledFrom(slots, rows, before, after, open, queued, evaluate)
    decreases |keys|
  {
    assert forall k :: k in keys[1..] ==> k in keys && k != keys[0];
    assert keys[m] in keys;
    if keys[0] >= today {
      SettlementDecides(slots, rows, read, states, xs, keys[1..], today, evaluate, m - 1);
    } else {
      var open, queued := Group(xs, keys[0], read, Open), Group(xs, keys[0], read, Queued);
      var o := Session(slots, rows, states, open, queued, evaluate);
      OneSettles(slots, rows, read, states, xs, keys, evaluate);
      if m > 0 {
        SettlementDecides(slots, rows, read, o.states, xs, keys[1..], today, evaluate, m - 1);
      } else {
        GroupIsCurrent(rows, read, states, xs, keys, Open);
        GroupIsCurrent(rows, read, states, xs, keys, Queued);
        SessionSettles(slots, rows, states, open, queued, evaluate);
        FateStays(slots, rows, read, states, o.states, xs, keys, today, evaluate);
      }
    }
  }

  /** What the first session left of its rows is what the whole settlement leaves. */
  lemma {:induction false} FateStays(
    slots: int, rows: Rows, read: States, before: States, states: States, xs: seq<Row>, keys: seq<int>, today: int,
    evaluate: Row -> Evaluation)
    requires keys != [] && Sound(rows, states) && Ahead(rows, read, states, keys[1..]) && DistinctSessions(keys)
    requires CanaryRunner.DistinctIds(xs) && forall i :: 0 <= i < |xs| ==> xs[i].id in rows && rows[xs[i].id] == xs[i]
    requires var open, queued := Group(xs, keys[0], read, Open), Group(xs, keys[0], read, Queued);
      SettledFrom(slots, rows, before, states, open, queued, evaluate)
    ensures var open, queued := Group(xs, keys[0], read, Open), Group(xs, keys[0], read, Queued);
      SettledFrom(slots, rows, before, Settlement(slots, rows, read, states, xs, keys[1..], today, evaluate).states,
                  open, queued, evaluate)
  {
    var open, queued := Group(xs, keys[0], read, Open), Group(xs, keys[0], read, Queued);
    var after := Settlement(slots, rows, read, states, xs, keys[1..], today, evaluate).states;
    FilterKeeps(xs, OfSession(keys[0], read, Open));
    FilterKeeps(xs, OfSession(keys[0], read, Queued));
    forall row | row in open || row in queued
      ensures row.id in states && row.id in after && after[row.id] == states[row.id]
    {
      assert row in xs;
      LaterSessionsKeep(slots, rows, read, states, xs, keys[1..], today, evaluate, row.id);
    }
    assert forall i :: 0 <= i < |open| ==> open[i] in open;
    assert forall i :: 0 <= i < |queued| ==> queued[i] in queued;
  }
}
