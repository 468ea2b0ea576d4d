/** The three dictionaries of the custody records, and the counts of memberships, told on rows. */
module CaseRecords {
  import opened Prelude
  import opened Evidence
  import opened Cases
  import opened Window
  import Journal

  predicate IsRecordOf(row: Row, entity: string) {
    row.kind == Journal.Custody && row.entity == entity
  }

  /** Position `i` holds the oldest custody record of the entity. */
  predicate Oldest(rows: seq<Row>, i: nat, entity: string) {
    i < |rows| && IsRecordOf(rows[i], entity) && forall j :: 0 <= j < i ==> !IsRecordOf(rows[j], entity)
  }

  /** A case is what its oldest record says; an entity without records is no case. */
  lemma {:induction false} FirstCaseIsOldest(rows: seq<Row>, entity: string)
    requires Typed(rows)
    ensures forall i: nat :: Oldest(rows, i, entity) ==>
      rows[i].raw.Canonical? && rows[i].raw.envelope.payload.CaseOf?
      && FirstCase(rows, entity) == Some(rows[i].raw.envelope.payload.record)
    ensures FirstCase(rows, entity) == None <==> forall i :: 0 <= i < |rows| ==> !IsRecordOf(rows[i], entity)
  {
    if rows != [] {
      var rest := Init(rows);
      assert forall i :: 0 <= i < |rest| ==> rest[i] == rows[i];
      FirstCaseIsOldest(rest, entity);
      assert rows[|rows| - 1] == Last(rows);
      forall i: nat | Oldest(rows, i, entity)
        ensures rows[i].raw.Canonical? && rows[i].raw.envelope.payload.CaseOf?
        ensures FirstCase(rows, entity) == Some(rows[i].raw.envelope.payload.record)
      {
        if i < |rest| {
          assert Oldest(rest, i, entity);
        }
      }
    }
  }

  function RecordsAt(rows: seq<Row>, entity: string): set<nat> {
    set i: nat | i < |rows| && IsRecordOf(rows[i], entity)
  }

  /** The revisions of a case are all its custody records. */
  lemma {:induction false} RevisionsAreRecords(rows: seq<Row>, entity: string)
    ensures Revisions(rows, entity) == |RecordsAt(rows, entity)|
  {
    if rows != [] {
      var rest, n := Init(rows), |rows| - 1;
      RevisionsAreRecords(rest, entity);
      var hit, before, after := IsRecordOf(Last(rows), entity), RecordsAt(rest, entity), RecordsAt(rows, entity);
      forall i: nat ensures i in after <==> i in before || (hit && i == n) {
      }
      assert after == if hit then before + {n} else before;
    }
  }

  /** Cases are listed by their oldest records. */
  lemma {:induction false} CasesByOldest(rows: seq<Row>, k: nat, l: nat, i: nat, j: nat)
    requires k < l < |CaseOrder(rows)|
    requires Oldest(rows, i, CaseOrder(rows)[k]) && Oldest(rows, j, CaseOrder(rows)[l])
    ensures i < j
  {
    var rest, earlier := Init(rows), CaseOrder(Init(rows));
    assert forall n :: 0 <= n < |rest| ==> rest[n] == rows[n];
    OldestStays(rows, i, CaseOrder(rows)[k]);
    if l < |earlier| {
      OldestStays(rows, j, CaseOrder(rows)[l]);
      CasesByOldest(rest, k, l, i, j);
    } else {
      NotYetACase(rest, Last(rows).entity);
    }
  }

  /** The oldest record of a case listed before the last row is not the last row. */
  lemma {:induction false} OldestStays(rows: seq<Row>, i: nat, entity: string)
    requires rows != [] && Oldest(rows, i, entity)
    ensures entity in CaseOrder(Init(rows)) ==> i < |rows| - 1 && Oldest(Init(rows), i, entity)
  {
    NotYetACase(Init(rows), entity);
    assert forall n :: 0 <= n < |rows| - 1 ==> Init(rows)[n] == rows[n];
  }

  lemma {:induction false} NotYetACase(rows: seq<Row>, entity: string)
    ensures entity !in CaseOrder(rows) <==> forall n :: 0 <= n < |rows| ==> !IsRecordOf(rows[n], entity)
  {
    if rows != [] {
      NotYetACase(Init(rows), entity);
      assert forall n :: 0 <= n < |rows| - 1 ==> Init(rows)[n] == rows[n];
      assert rows[|rows| - 1] == Last(rows);
    }
  }

  function WithMembership(rows: seq<Row>, order: seq<string>, membership: Membership): set<nat>
    requires Typed(rows)
  {
    set k: nat | k < |order| && IsMember(FirstCase(rows, order[k]), membership)
  }

  predicate IsMember(record: Option<CaseRecord>, membership: Membership) {
    record.Some? && record.value.admission.membership == membership
  }

  /** A membership is counted once for every listed case that has it. */
  lemma {:induction false} CountsAreCases(rows: seq<Row>, order: seq<string>, membership: Membership)
    requires Typed(rows)
    ensures CountOf(rows, order, membership) == |WithMembership(rows, order, membership)|
  {
    if order != [] {
      var rest, n := Init(order), |order| - 1;
      CountsAreCases(rows, rest, membership);
      var hit := IsMember(FirstCase(rows, Last(order)), membership);
      MembersNext(rows, order, membership);
      assert CountOf(rows, order, membership) == CountOf(rows, rest, membership) + if hit then 1 else 0;
    }
  }

  lemma {:induction false} MembersNext(rows: seq<Row>, order: seq<string>, membership: Membership)
    requires Typed(rows) && order != []
    ensures |WithMembership(rows, order, membership)| == |WithMembership(rows, Init(order), membership)|
      + if IsMember(FirstCase(rows, Last(order)), membership) then 1 else 0
  {
    var n, hit := |order| - 1, IsMember(FirstCase(rows, Last(order)), membership);
    var before, after := WithMembership(rows, Init(order), membership), WithMembership(rows, order, membership);
    forall k: nat ensures k in after <==> k in before || (hit && k == n) {
      assert k < n ==> Init(order)[k] == order[k];
    }
    assert after == if hit then before + {n} else before;
  }
}
