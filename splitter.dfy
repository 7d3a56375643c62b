/** The data splitter: every master record (one whose "Round Name" is empty)
    with a non-empty "Interview Rounds" cell is replaced by one record per
    round, created in batches of fifty, after which the masters are deleted
    in batches of fifty. */
module Splitter {
  import opened Optional
  import opened Text
  import opened Links
  import opened Batches
  import opened Airtable

  // ---------------------------------------------------------------------
  // What the script computes

  /** `!r.getCellValue("Round Name")`: the cell is empty or holds "". */
  predicate IsUnsplit(r: Row) {
    r.roundName.None? || r.roundName.value == ""
  }

  /** `query.records.filter(r => !r.getCellValue("Round Name"))`. */
  function Pending(rs: seq<Record>): (r: seq<Record>)
    ensures forall x :: x in r <==> x in rs && IsUnsplit(x.fields)
  {
    if rs == [] then []
    else (if IsUnsplit(rs[0].fields) then [rs[0]] else []) + Pending(rs[1..])
  }

  /** `roundsRaw` is truthy: the cell is present and not "". */
  predicate HasRounds(r: Row) {
    r.interviewRounds.Some? && r.interviewRounds.value != ""
  }

  /** The round names of a master; none when its rounds cell is empty. */
  function Rounds(master: Row): seq<string> {
    if HasRounds(master) then Tokenize(master.interviewRounds.value) else []
  }

  /** The record pushed for one round: the master's cells, the round name,
      and the Calendly link the round resolves to. */
  function RoundRecord(master: Row, roundName: string): Row {
    Row(candidateName := master.candidateName,
        email := master.email,
        role := master.role,
        interviewRounds := master.interviewRounds,
        addedOn := master.addedOn,
        roundName := Some(roundName),
        calendlyLink := Some(ResolveLink(roundName, master.calendlyHr, master.calendlyTech,
                                         master.calendlyHiringManager)),
        calendlyHr := master.calendlyHr,
        calendlyTech := master.calendlyTech,
        calendlyHiringManager := master.calendlyHiringManager,
        mailSentTime := None,
        tatHours := None)
  }

  /** The records the inner loop pushes for the given rounds, in order. */
  function RoundRecords(master: Row, rounds: seq<string>): seq<Row> {
    if rounds == [] then []
    else RoundRecords(master, rounds[..|rounds| - 1]) + [RoundRecord(master, rounds[|rounds| - 1])]
  }

  function Explode(master: Row): seq<Row> {
    RoundRecords(master, Rounds(master))
  }

  /** `newRecords` after the outer loop has seen the given masters. */
  function AllExploded(ms: seq<Record>): seq<Row> {
    if ms == [] then []
    else AllExploded(ms[..|ms| - 1]) + Explode(ms[|ms| - 1].fields)
  }

  /** `recordsToDelete` after the outer loop has seen the given masters. */
  function DeletionQueue(ms: seq<Record>): seq<nat> {
    if ms == [] then []
    else DeletionQueue(ms[..|ms| - 1])
         + (if HasRounds(ms[|ms| - 1].fields) then [ms[|ms| - 1].id] else [])
  }

  /** The records a run creates, and the ids it deletes. */
  function Created(rows: seq<Record>): seq<Row> {
    AllExploded(Pending(rows))
  }

  function Deleted(rows: seq<Record>): seq<nat> {
    DeletionQueue(Pending(rows))
  }

  /** The table after a run from `rows` with next fresh id `nextId`. */
  function AfterSplit(rows: seq<Record>, nextId: nat): seq<Record> {
    Without(rows + Numbered(nextId, Created(rows)), Deleted(rows))
  }

  function CreateCalls(batches: seq<seq<Row>>): seq<Call> {
    if batches == [] then [] else [CreateCall(batches[0])] + CreateCalls(batches[1..])
  }

  function DeleteCalls(batches: seq<seq<nat>>): seq<Call> {
    if batches == [] then [] else [DeleteCall(batches[0])] + DeleteCalls(batches[1..])
  }

  lemma {:induction false} CreateCallsShape(batches: seq<seq<Row>>)
    ensures |CreateCalls(batches)| == |batches|
    ensures forall k :: 0 <= k < |batches| ==> CreateCalls(batches)[k] == CreateCall(batches[k])
  {
    if batches != [] {
      CreateCallsShape(batches[1..]);
    }
  }

  lemma {:induction false} DeleteCallsShape(batches: seq<seq<nat>>)
    ensures |DeleteCalls(batches)| == |batches|
    ensures forall k :: 0 <= k < |batches| ==> DeleteCalls(batches)[k] == DeleteCall(batches[k])
  {
    if batches != [] {
      DeleteCallsShape(batches[1..]);
    }
  }

  /** The calls a run makes: every create call comes before every delete
      call, each carries between one and fifty items, there is one call per
      started fifty, and nothing else is called. */
  lemma RunCalls(created: seq<Row>, deleted: seq<nat>)
    ensures var calls := CreateCalls(Chunks(created)) + DeleteCalls(Chunks(deleted));
            && |calls| == (|created| + BATCH_SIZE - 1) / BATCH_SIZE + (|deleted| + BATCH_SIZE - 1) / BATCH_SIZE
            && (forall i, j :: 0 <= i < j < |calls| && calls[i].DeleteCall? ==> calls[j].DeleteCall?)
            && (forall k :: 0 <= k < |calls| ==> !calls[k].UpdateCall?)
            && (forall k :: 0 <= k < |calls| && calls[k].CreateCall? ==> 1 <= |calls[k].rows| <= BATCH_SIZE)
            && (forall k :: 0 <= k < |calls| && calls[k].DeleteCall? ==> 1 <= |calls[k].ids| <= BATCH_SIZE)
  {
    CreateCallsShape(Chunks(created));
    DeleteCallsShape(Chunks(deleted));
    ChunksBounded(created);
    ChunksBounded(deleted);
    ChunksCount(created);
    ChunksCount(deleted);
  }

  /** One turn of the create loop issues the first of the remaining calls. */
  lemma CreateCallsStep(rest: seq<Row>)
    requires rest != []
    ensures CreateCalls(Chunks(rest))
            == [CreateCall(Take(rest, BATCH_SIZE))] + CreateCalls(Chunks(Drop(rest, BATCH_SIZE)))
  {
  }

  /** One turn of the delete loop issues the first of the remaining calls. */
  lemma DeleteCallsStep(rest: seq<nat>)
    requires rest != []
    ensures DeleteCalls(Chunks(rest))
            == [DeleteCall(Take(rest, BATCH_SIZE))] + DeleteCalls(Chunks(Drop(rest, BATCH_SIZE)))
  {
  }

  // ---------------------------------------------------------------------
  // The script

  /** Which of the two console messages the run ends with. */
  datatype Report = NothingToSplit | Complete

  /** The whole script: collect the work lists, create, then delete. */
  method Split(table: Table) returns (report: Report)
    requires table.Valid()
    modifies table
    ensures table.Valid()
    ensures report == NothingToSplit <==> Pending(old(table.rows)) == []
    ensures table.rows == AfterSplit(old(table.rows), old(table.nextId))
    ensures table.nextId == old(table.nextId) + |Created(old(table.rows))|
    ensures table.log == old(table.log) + CreateCalls(Chunks(Created(old(table.rows))))
                         + DeleteCalls(Chunks(Deleted(old(table.rows))))
    ensures report == NothingToSplit ==> table.rows == old(table.rows) && table.log == old(table.log)
  {
    var recordsToProcess := Pending(table.rows);
    if |recordsToProcess| == 0 {
      assert table.rows + Numbered(table.nextId, []) == table.rows;
      WithoutAbsent(table.rows, []);
      report := NothingToSplit;
      return;
    }
    var newRecords, recordsToDelete := Collect(recordsToProcess);
    CreateInBatches(table, newRecords);
    if |recordsToDelete| > 0 {
      DeleteInBatches(table, recordsToDelete);
    } else {
      WithoutAbsent(table.rows, recordsToDelete);
    }
    report := Complete;
  }

  /** The outer loop: one record per round of every master with rounds, and
      the id of every such master, in table order. */
  method Collect(recordsToProcess: seq<Record>) returns (newRecords: seq<Row>, recordsToDelete: seq<nat>)
    ensures newRecords == AllExploded(recordsToProcess)
    ensures recordsToDelete == DeletionQueue(recordsToProcess)
  {
    newRecords, recordsToDelete := [], [];
    for i := 0 to |recordsToProcess|
      invariant newRecords == AllExploded(recordsToProcess[..i])
      invariant recordsToDelete == DeletionQueue(recordsToProcess[..i])
    {
      var record := recordsToProcess[i];
      assert recordsToProcess[..i + 1][..i] == recordsToProcess[..i];
      var roundsRaw := record.fields.interviewRounds;
      if roundsRaw.None? || roundsRaw.value == "" {
        continue;
      }
      var rounds := Tokenize(roundsRaw.value);
      newRecords := PushRounds(newRecords, record.fields, rounds);
      recordsToDelete := recordsToDelete + [record.id];
    }
    assert recordsToProcess[..|recordsToProcess|] == recordsToProcess;
  }

  /** The inner loop: pushes one record per round onto `newRecords`. */
  method PushRounds(newRecords: seq<Row>, master: Row, rounds: seq<string>) returns (pushed: seq<Row>)
    ensures pushed == newRecords + RoundRecords(master, rounds)
  {
    pushed := newRecords;
    for j := 0 to |rounds|
      invariant pushed == newRecords + RoundRecords(master, rounds[..j])
    {
      assert rounds[..j + 1][..j] == rounds[..j];
      pushed := pushed + [RoundRecord(master, rounds[j])];
    }
    assert rounds[..|rounds|] == rounds;
  }

  /** `while (newRecords.length > 0)`: sends the list fifty at a time. */
  method CreateInBatches(table: Table, records: seq<Row>)
    requires table.Valid()
    modifies table
    ensures table.Valid()
    ensures table.rows == old(table.rows) + Numbered(old(table.nextId), records)
    ensures table.nextId == old(table.nextId) + |records|
    ensures table.log == old(table.log) + CreateCalls(Chunks(records))
  {
    var rest := records;
    ghost var sent: seq<Row> := [];
    while |rest| > 0
      invariant table.Valid()
      invariant sent + rest == records
      invariant table.rows == old(table.rows) + Numbered(old(table.nextId), sent)
      invariant table.nextId == old(table.nextId) + |sent|
      invariant table.log + CreateCalls(Chunks(rest)) == old(table.log) + CreateCalls(Chunks(records))
      decreases |rest|
    {
      var batch := Take(rest, BATCH_SIZE);
      CreateCallsStep(rest);
      table.CreateRecords(batch);
      NumberedAppend(old(table.nextId), sent, batch);
      TakeDrop(rest, BATCH_SIZE);
      sent := sent + batch;
      rest := Drop(rest, BATCH_SIZE);
    }
    assert sent == records;
  }

  /** `while (recordsToDelete.length > 0)`: deletes fifty ids at a time. */
  method DeleteInBatches(table: Table, ids: seq<nat>)
    requires table.Valid()
    modifies table
    ensures table.Valid()
    ensures table.rows == Without(old(table.rows), ids)
    ensures table.nextId == old(table.nextId)
    ensures table.log == old(table.log) + DeleteCalls(Chunks(ids))
  {
    var rest := ids;
    ghost var sent: seq<nat> := [];
    WithoutAbsent(table.rows, []);
    while |rest| > 0
      invariant table.Valid()
      invariant sent + rest == ids
      invariant table.rows == Without(old(table.rows), sent)
      invariant table.nextId == old(table.nextId)
      invariant table.log + DeleteCalls(Chunks(rest)) == old(table.log) + DeleteCalls(Chunks(ids))
      decreases |rest|
    {
      var batch := Take(rest, BATCH_SIZE);
      DeleteCallsStep(rest);
      table.DeleteRecords(batch);
      WithoutTwice(old(table.rows), sent, batch);
      TakeDrop(rest, BATCH_SIZE);
      sent := sent + batch;
      rest := Drop(rest, BATCH_SIZE);
    }
    assert sent == ids;
  }

  // ---------------------------------------------------------------------
  // What a run promises

  lemma {:induction false} RoundRecordsShape(master: Row, rounds: seq<string>)
    ensures |RoundRecords(master, rounds)| == |rounds|
    ensures forall k :: 0 <= k < |rounds| ==>
              RoundRecords(master, rounds)[k] == RoundRecord(master, rounds[k])
  {
    if rounds != [] {
      var init := rounds[..|rounds| - 1];
      RoundRecordsShape(master, init);
      assert forall k :: 0 <= k < |init| ==> init[k] == rounds[k];
    }
  }

  /** A master with K round names gives K records, in order: the k-th has
      the k-th round name, the link that name resolves to and the master's
      other cells unchanged, and no mail has been sent for it. */
  lemma ExplodeShape(master: Row)
    ensures |Explode(master)| == |Rounds(master)|
    ensures forall k :: 0 <= k < |Explode(master)| ==>
              var r, name := Explode(master)[k], Rounds(master)[k];
              && r.roundName == Some(name)
              && r.calendlyLink == Some(ResolveLink(name, master.calendlyHr, master.calendlyTech,
                                                    master.calendlyHiringManager))
              && r.candidateName == master.candidateName && r.email == master.email
              && r.role == master.role && r.interviewRounds == master.interviewRounds
              && r.addedOn == master.addedOn && r.calendlyHr == master.calendlyHr
              && r.calendlyTech == master.calendlyTech
              && r.calendlyHiringManager == master.calendlyHiringManager
              && r.mailSentTime.None? && r.tatHours.None?
  {
    RoundRecordsShape(master, Rounds(master));
  }

  /** "R, R" gives two records, both for round R: nothing removes duplicates. */
  lemma DuplicateRoundsKept(master: Row, round: string)
    requires Trimmed(round) && DelimiterFree(round)
    requires master.interviewRounds == Some(round + ", " + round)
    ensures |Explode(master)| == 2
    ensures Explode(master)[0].roundName == Explode(master)[1].roundName == Some(round)
  {
    TokenizeKeepsDuplicates(round);
    ExplodeShape(master);
  }

  /** A rounds cell of separators and spaces gives no record, yet the
      master counts as having rounds, so it is deleted. */
  lemma BlankRoundsExplodeToNothing(master: Row, w: string)
    requires AllWhitespace(w) && DelimiterFree(w)
    requires master.interviewRounds == Some(w + "|" + w + "," + w)
    ensures HasRounds(master) && Explode(master) == []
  {
    assert (w + "|" + w + "," + w)[|w|] == '|';
    TokenizeBlank(w);
  }

  // Two sequence facts, stated over any element type. Proved here on their
  // own, they are cheap; asserted inside AllExplodedAppendStep, where the
  // record sequences unfold, they exhaust the solver.

  lemma ConcatAssoc<T>(x: seq<T>, y: seq<T>, z: seq<T>)
    ensures (x + y) + z == x + (y + z)
  {
  }

  lemma SnocSplit<T>(a: seq<T>, b: seq<T>)
    requires b != []
    ensures b == b[..|b| - 1] + [b[|b| - 1]]
    ensures a + b == (a + b[..|b| - 1]) + [b[|b| - 1]]
  {
    assert b == b[..|b| - 1] + [b[|b| - 1]];
  }

  lemma AllExplodedSnoc(ms: seq<Record>, m: Record)
    ensures AllExploded(ms + [m]) == AllExploded(ms) + Explode(m.fields)
  {
    assert (ms + [m])[..|ms|] == ms;
  }

  /** The records of earlier masters come before those of later ones. */
  lemma {:induction false} AllExplodedAppend(a: seq<Record>, b: seq<Record>)
    ensures AllExploded(a + b) == AllExploded(a) + AllExploded(b)
    decreases |b|
  {
    if b == [] {
      assert a + b == a;
    } else {
      AllExplodedAppend(a, b[..|b| - 1]);
      AllExplodedAppendStep(a, b);
    }
  }

  lemma AllExplodedAppendStep(a: seq<Record>, b: seq<Record>)
    requires b != []
    requires AllExploded(a + b[..|b| - 1]) == AllExploded(a) + AllExploded(b[..|b| - 1])
    ensures AllExploded(a + b) == AllExploded(a) + AllExploded(b)
  {
    var init, last := b[..|b| - 1], b[|b| - 1];
    SnocSplit(a, b);
    AllExplodedSnoc(a + init, last);
    AllExplodedSnoc(init, last);
    ConcatAssoc(AllExploded(a), AllExploded(init), Explode(last.fields));
  }

  /** Every created record names a round: a trimmed, non-empty name. */
  lemma {:induction false} CreatedAreSplit(ms: seq<Record>)
    ensures forall r :: r in AllExploded(ms) ==> r.roundName.Some? && Trimmed(r.roundName.value)
  {
    if ms != [] {
      var init, last := ms[..|ms| - 1], ms[|ms| - 1].fields;
      CreatedAreSplit(init);
      ExplodeShape(last);
      if HasRounds(last) {
        TokensAreClean(last.interviewRounds.value);
      }
    }
  }

  /** The queue holds exactly the ids of the masters that have rounds. */
  lemma {:induction false} DeletionQueueMembers(ms: seq<Record>)
    ensures forall m :: m in ms && HasRounds(m.fields) ==> m.id in DeletionQueue(ms)
    ensures forall id :: id in DeletionQueue(ms) ==>
              exists m :: m in ms && HasRounds(m.fields) && m.id == id
  {
    if ms != [] {
      var init := ms[..|ms| - 1];
      DeletionQueueMembers(init);
      assert ms == init + [ms[|ms| - 1]];
    }
  }

  /** Masters without rounds give no work at all. */
  lemma {:induction false} NoRoundsNoWork(ms: seq<Record>)
    requires forall m :: m in ms ==> !HasRounds(m.fields)
    ensures AllExploded(ms) == [] && DeletionQueue(ms) == []
  {
    if ms != [] {
      var init := ms[..|ms| - 1];
      assert forall m :: m in init ==> m in ms;
      assert ms[|ms| - 1] in ms;
      NoRoundsNoWork(init);
    }
  }

  /** Of the records already in the table, a run removes exactly the masters
      whose rounds cell is non-empty, whether or not it held a round name. */
  lemma Kept(rows: seq<Record>, nextId: nat, x: Record)
    requires IdsIncreasing(rows) && x in rows
    ensures x in AfterSplit(rows, nextId) <==> !(IsUnsplit(x.fields) && HasRounds(x.fields))
  {
    WithoutMembers(rows + Numbered(nextId, Created(rows)), Deleted(rows));
    DeletionQueueMembers(Pending(rows));
    if x.id in Deleted(rows) {
      var m :| m in Pending(rows) && HasRounds(m.fields) && m.id == x.id;
      SameId(rows, m, x);
    }
  }

  /** The table after a run: what was there minus the deleted masters, in
      the same order, followed by all created records under fresh ids. */
  lemma AfterSplitShape(rows: seq<Record>, nextId: nat)
    requires IdsBelow(rows, nextId)
    ensures AfterSplit(rows, nextId)
            == Without(rows, Deleted(rows)) + Numbered(nextId, Created(rows))
  {
    var created := Numbered(nextId, Created(rows));
    WithoutConcat(rows, created, Deleted(rows));
    DeletionQueueMembers(Pending(rows));
    assert forall m :: m in Pending(rows) ==> m.id < nextId;
    forall k | 0 <= k < |created| ensures created[k].id !in Deleted(rows) {
      assert created[k].id >= nextId;
    }
    WithoutAbsent(created, Deleted(rows));
  }

  /** Running the splitter again right after a run creates and deletes
      nothing: the new records are not masters, and the masters left over
      are those without rounds. */
  lemma SecondRunNothingToDo(rows: seq<Record>, nextId: nat)
    requires IdsIncreasing(rows) && IdsBelow(rows, nextId)
    ensures var after := AfterSplit(rows, nextId);
            Created(after) == [] && Deleted(after) == []
  {
    var after := AfterSplit(rows, nextId);
    var created := Numbered(nextId, Created(rows));
    WithoutMembers(rows + created, Deleted(rows));
    DeletionQueueMembers(Pending(rows));
    NumberedMembers(nextId, Created(rows));
    CreatedAreSplit(Pending(rows));
    forall x | x in Pending(after) ensures !HasRounds(x.fields) {
      assert x in rows + created;
    }
    NoRoundsNoWork(Pending(after));
  }
}
