/** The "Interviews" table as the scripts see it: records in table order,
    each with an id and the cells the scripts read or write, and a log of the
    calls made to the table (create, delete and update batches). */
module Airtable {
  import opened Optional
  import opened Batches

  /** The cells of one record. Dates are integer milliseconds; "TAT (Hours)"
      is in hundredths of an hour. */
  datatype Row = Row(
    candidateName: Option<string>,
    email: Option<string>,
    role: Option<string>,
    interviewRounds: Option<string>,
    addedOn: Option<int>,
    roundName: Option<string>,
    calendlyLink: Option<string>,
    calendlyHr: Option<string>,
    calendlyTech: Option<string>,
    calendlyHiringManager: Option<string>,
    mailSentTime: Option<int>,
    tatHours: Option<nat>)

  datatype Record = Record(id: nat, fields: Row)

  /** One call to the table: `createRecordsAsync`, `deleteRecordsAsync` or
      `updateRecordAsync` with "Mail Sent Time" and "TAT (Hours)". */
  datatype Call =
    | CreateCall(rows: seq<Row>)
    | DeleteCall(ids: seq<nat>)
    | UpdateCall(id: nat, mailSentTime: int, tatHours: nat)

  /** Record ids strictly increase along the table (so they are distinct). */
  predicate IdsIncreasing(rs: seq<Record>) {
    forall i, j :: 0 <= i < j < |rs| ==> rs[i].id < rs[j].id
  }

  predicate IdsBelow(rs: seq<Record>, bound: nat) {
    forall k :: 0 <= k < |rs| ==> rs[k].id < bound
  }

  /** New records as the table stores them: consecutive fresh ids from `start`. */
  function Numbered(start: nat, rows: seq<Row>): seq<Record> {
    seq(|rows|, k requires 0 <= k < |rows| => Record(start + k, rows[k]))
  }

  /** Every new record holds one of the given rows under an id from `start` on. */
  lemma NumberedMembers(start: nat, rows: seq<Row>)
    ensures forall x :: x in Numbered(start, rows) ==> x.fields in rows && x.id >= start
  {
    forall x | x in Numbered(start, rows) ensures x.fields in rows && x.id >= start {
      var k :| 0 <= k < |rows| && Numbered(start, rows)[k] == x;
    }
  }

  /** With distinct ids, a record is determined by its id. */
  lemma SameId(rs: seq<Record>, a: Record, b: Record)
    requires IdsIncreasing(rs) && a in rs && b in rs && a.id == b.id
    ensures a == b
  {
    var i :| 0 <= i < |rs| && rs[i] == a;
    var j :| 0 <= j < |rs| && rs[j] == b;
    assert i == j;
  }

  lemma NumberedAppend(start: nat, a: seq<Row>, b: seq<Row>)
    ensures Numbered(start, a + b) == Numbered(start, a) + Numbered(start + |a|, b)
  {
  }

  /** The table after removing the records whose ids are listed; the rest
      keep their order. */
  function Without(rs: seq<Record>, ids: seq<nat>): seq<Record> {
    if rs == [] then []
    else (if rs[0].id in ids then [] else [rs[0]]) + Without(rs[1..], ids)
  }

  /** What survives the deletion is exactly the records whose ids are not
      listed. */
  lemma {:induction false} WithoutMembers(rs: seq<Record>, ids: seq<nat>)
    ensures forall x :: x in Without(rs, ids) <==> x in rs && x.id !in ids
  {
    if rs != [] {
      WithoutMembers(rs[1..], ids);
      assert rs == [rs[0]] + rs[1..];
    }
  }

  lemma {:induction false} WithoutKeepsOrder(rs: seq<Record>, ids: seq<nat>)
    requires IdsIncreasing(rs)
    ensures IdsIncreasing(Without(rs, ids))
  {
    if rs != [] {
      var tail := rs[1..];
      assert IdsIncreasing(tail) by {
        assert forall i :: 0 <= i < |tail| ==> tail[i] == rs[i + 1];
      }
      WithoutKeepsOrder(tail, ids);
      WithoutMembers(tail, ids);
      var w := Without(tail, ids);
      forall j | 0 <= j < |w| ensures rs[0].id < w[j].id {
        assert w[j] in tail;
        var k :| 0 <= k < |tail| && tail[k] == w[j];
        assert tail[k] == rs[k + 1];
      }
    }
  }

  lemma {:induction false} WithoutConcat(x: seq<Record>, y: seq<Record>, ids: seq<nat>)
    ensures Without(x + y, ids) == Without(x, ids) + Without(y, ids)
  {
    if x == [] {
      assert x + y == y;
    } else {
      assert (x + y)[0] == x[0] && (x + y)[1..] == x[1..] + y;
      WithoutConcat(x[1..], y, ids);
    }
  }

  /** Deleting in two rounds is deleting everything at once. */
  lemma {:induction false} WithoutTwice(rs: seq<Record>, a: seq<nat>, b: seq<nat>)
    ensures Without(Without(rs, a), b) == Without(rs, a + b)
  {
    if rs != [] {
      WithoutTwice(rs[1..], a, b);
      var head := if rs[0].id in a then [] else [rs[0]];
      WithoutConcat(head, Without(rs[1..], a), b);
      assert rs[0].id in a + b <==> rs[0].id in a || rs[0].id in b;
      if rs[0].id !in a {
        assert Without(head, b) == (if rs[0].id in b then [] else [rs[0]]) + Without([], b);
      }
    }
  }

  /** Ids that are not in the table delete nothing. */
  lemma {:induction false} WithoutAbsent(rs: seq<Record>, ids: seq<nat>)
    requires forall k :: 0 <= k < |rs| ==> rs[k].id !in ids
    ensures Without(rs, ids) == rs
  {
    if rs != [] {
      WithoutAbsent(rs[1..], ids);
      assert rs == [rs[0]] + rs[1..];
    }
  }

  /** Position of the record with id `id`, or `|rs|` when there is none. */
  function Find(rs: seq<Record>, id: nat): (i: nat)
    ensures i <= |rs|
    ensures i < |rs| ==> rs[i].id == id
    ensures forall k :: 0 <= k < i ==> rs[k].id != id
  {
    if rs == [] then 0
    else if rs[0].id == id then 0
    else 1 + Find(rs[1..], id)
  }

  predicate HasId(rs: seq<Record>, id: nat) {
    exists k :: 0 <= k < |rs| && rs[k].id == id
  }

  /** The table after `updateRecordAsync(id, ...)` stores the send time and
      the turnaround in the record with that id; unchanged when there is none. */
  function Stamp(rs: seq<Record>, id: nat, mailSentTime: int, tatHours: nat): seq<Record> {
    var i := Find(rs, id);
    if i < |rs| then
      rs[i := Record(id, rs[i].fields.(mailSentTime := Some(mailSentTime), tatHours := Some(tatHours)))]
    else rs
  }

  /** The update finds the record exactly when the id is in the table. */
  lemma FindFinds(rs: seq<Record>, id: nat)
    ensures Find(rs, id) < |rs| <==> HasId(rs, id)
  {
    if HasId(rs, id) {
      var k :| 0 <= k < |rs| && rs[k].id == id;
      assert Find(rs, id) <= k;
    }
  }

  /** The update keeps every id in its place. */
  lemma StampKeepsIds(rs: seq<Record>, id: nat, mailSentTime: int, tatHours: nat)
    ensures |Stamp(rs, id, mailSentTime, tatHours)| == |rs|
    ensures forall k :: 0 <= k < |rs| ==> Stamp(rs, id, mailSentTime, tatHours)[k].id == rs[k].id
    ensures Stamp(rs, id, mailSentTime, tatHours) != rs ==> HasId(rs, id)
  {
    FindFinds(rs, id);
  }

  /** Only the record with that id changes, and in it only "Mail Sent Time"
      and "TAT (Hours)"; every other record and cell stays as it was. */
  lemma StampTouchesOnlyThatRecord(rs: seq<Record>, id: nat, mailSentTime: int, tatHours: nat)
    requires IdsIncreasing(rs)
    ensures var after := Stamp(rs, id, mailSentTime, tatHours);
            |after| == |rs|
            && (forall k :: 0 <= k < |rs| && rs[k].id != id ==> after[k] == rs[k])
            && (forall k :: 0 <= k < |rs| && rs[k].id == id ==>
                  after[k] == Record(id, rs[k].fields.(mailSentTime := Some(mailSentTime),
                                                       tatHours := Some(tatHours))))
  {
    var i := Find(rs, id);
    forall k | 0 <= k < |rs| && rs[k].id == id ensures k == i {
      assert i <= k;
    }
  }

  class Table {
    var rows: seq<Record>
    var nextId: nat
    var log: seq<Call>

    /** Ids are distinct, in creation order, and below the next fresh id. */
    ghost predicate Valid()
      reads this
    {
      IdsIncreasing(rows) && IdsBelow(rows, nextId)
    }

    constructor (initial: seq<Row>)
      ensures Valid()
      ensures rows == Numbered(0, initial) && nextId == |initial| && log == []
    {
      rows := Numbered(0, initial);
      nextId := |initial|;
      log := [];
    }

    /** `createRecordsAsync(batch)`: appends the batch under fresh ids. */
    method CreateRecords(batch: seq<Row>)
      requires Valid()
      requires |batch| <= BATCH_SIZE
      modifies this
      ensures Valid()
      ensures rows == old(rows) + Numbered(old(nextId), batch)
      ensures nextId == old(nextId) + |batch|
      ensures log == old(log) + [CreateCall(batch)]
    {
      rows := rows + Numbered(nextId, batch);
      nextId := nextId + |batch|;
      log := log + [CreateCall(batch)];
    }

    /** `deleteRecordsAsync(ids)`: removes the records with those ids. */
    method DeleteRecords(ids: seq<nat>)
      requires Valid()
      requires |ids| <= BATCH_SIZE
      modifies this
      ensures Valid()
      ensures rows == Without(old(rows), ids)
      ensures nextId == old(nextId)
      ensures log == old(log) + [DeleteCall(ids)]
    {
      WithoutKeepsOrder(rows, ids);
      WithoutMembers(rows, ids);
      assert forall k :: 0 <= k < |Without(rows, ids)| ==> Without(rows, ids)[k] in rows;
      rows := Without(rows, ids);
      log := log + [DeleteCall(ids)];
    }

    /** `updateRecordAsync(id, {"Mail Sent Time", "TAT (Hours)"})`: writes both
        cells of that record and nothing else. The call is made, and logged,
        whatever the id; an unknown id is refused (`found` is false) and
        leaves the rows as they were. */
    method UpdateRecord(id: nat, mailSentTime: int, tatHours: nat) returns (found: bool)
      requires Valid()
      modifies this
      ensures Valid()
      ensures found <==> HasId(old(rows), id)
      ensures rows == Stamp(old(rows), id, mailSentTime, tatHours)
      ensures log == old(log) + [UpdateCall(id, mailSentTime, tatHours)]
      ensures nextId == old(nextId)
    {
      StampKeepsIds(rows, id, mailSentTime, tatHours);
      found := Find(rows, id) < |rows|;
      rows := Stamp(rows, id, mailSentTime, tatHours);
      log := log + [UpdateCall(id, mailSentTime, tatHours)];
    }
  }
}
