/** Event insertion of `src/db.rs`: single inserts, batched inserts in one transaction, and
    the write-coalescing loop that answers every sender. */
module Events {
  import opened Common

  datatype Event = Event(id: string, body: string)

  type Table = map<string, Event>

  const BATCH_MAX: nat := 64

  // ---------------------------------------------------------------- one event at a time

  /** `INSERT OR IGNORE`: the first event with an id wins. */
  function Inserted(t: Table, e: Event): Table {
    if e.id in t then t else t[e.id := e]
  }

  datatype Inserts = Inserts(table: Table, added: seq<bool>)

  /** The reference behaviour: insert the events one after the other. */
  function InsertAll(t: Table, events: seq<Event>): (r: Inserts)
    ensures |r.added| == |events|
    decreases |events|
  {
    if events == [] then Inserts(t, [])
    else
      var rest := InsertAll(Inserted(t, events[0]), events[1..]);
      Inserts(rest.table, [events[0].id !in t] + rest.added)
  }

  /** Inserting a concatenation is inserting the parts in turn. */
  lemma {:induction false} InsertAllAppends(t: Table, a: seq<Event>, b: seq<Event>)
    ensures InsertAll(t, a + b) == Then(InsertAll(t, a), InsertAll(InsertAll(t, a).table, b))
    decreases |a|
  {
    if a == [] {
      assert a + b == b;
    } else {
      InsertAllAppends(Inserted(t, a[0]), a[1..], b);
      assert a == [a[0]] + a[1..];
      AppendStep(t, a[0], a[1..], b);
    }
  }

  lemma {:induction false} AppendStep(t: Table, e: Event, a: seq<Event>, b: seq<Event>)
    requires var t1 := Inserted(t, e);
      var first := InsertAll(t1, a);
      InsertAll(t1, a + b) == Then(first, InsertAll(first.table, b))
    ensures var first := InsertAll(t, [e] + a);
      InsertAll(t, [e] + a + b) == Then(first, InsertAll(first.table, b))
  {
    var t1, told := Inserted(t, e), [e.id !in t];
    var first := InsertAll(t1, a);
    var second := InsertAll(first.table, b);
    InsertAllCons(t, e, a);
    InsertAllCons(t, e, a + b);
    assert [e] + a + b == [e] + (a + b);
    assert told + (first.added + second.added) == (told + first.added) + second.added;
  }

  /** Two insertions in turn. */
  function Then(first: Inserts, second: Inserts): Inserts {
    Inserts(second.table, first.added + second.added)
  }

  lemma {:induction false} InsertAllCons(t: Table, e: Event, events: seq<Event>)
    ensures var rest := InsertAll(Inserted(t, e), events);
      InsertAll(t, [e] + events) == Inserts(rest.table, [e.id !in t] + rest.added)
  {
    assert ([e] + events)[1..] == events;
  }

  /** A sender is told `true` exactly when its id was neither stored nor sent before. */
  lemma {:induction false} AddedExactly(t: Table, events: seq<Event>, i: nat)
    requires i < |events|
    ensures InsertAll(t, events).added[i] <==>
      events[i].id !in t && forall j | 0 <= j < i :: events[j].id != events[i].id
    decreases i
  {
    if i > 0 {
      AddedExactly(Inserted(t, events[0]), events[1..], i - 1);
      assert forall j | 0 <= j < i - 1 :: events[1..][j] == events[j + 1];
      if forall j | 0 <= j < i - 1 :: events[1..][j].id != events[i].id {
        assert forall j | 1 <= j < i :: events[j] == events[1..][j - 1];
      }
    }
  }

  /** The stored ids are the old ones and the inserted ones; old rows keep their content. */
  lemma {:induction false} InsertAllKeys(t: Table, events: seq<Event>)
    ensures forall x :: x in InsertAll(t, events).table <==>
      x in t || exists i | 0 <= i < |events| :: events[i].id == x
    ensures forall x | x in t :: x in InsertAll(t, events).table && InsertAll(t, events).table[x] == t[x]
    decreases |events|
  {
    if events != [] {
      InsertAllKeys(Inserted(t, events[0]), events[1..]);
      forall x | x in InsertAll(t, events).table && x !in t
        ensures exists i | 0 <= i < |events| :: events[i].id == x
      {
        if x != events[0].id {
          var i :| 0 <= i < |events[1..]| && events[1..][i].id == x;
          assert events[i + 1].id == x;
        }
      }
      forall i | 0 <= i < |events| ensures events[i].id in InsertAll(t, events).table {
        assert i > 0 ==> events[i] == events[1..][i - 1];
      }
    }
  }

  // ---------------------------------------------------------------- batches

  /** A batch and the database fault it meets, if any: a fault at position `i` makes the
      i-th insert fail, or the commit when `i` is the batch size. */
  datatype Batch = Batch(events: seq<Event>, fault: Option<nat>)

  predicate Faulty(b: Batch) {
    b.events != [] && b.fault.Some? && b.fault.value <= |b.events|
  }

  type Replies = seq<Option<bool>>

  /** `None` stands for the error every sender of a failed batch is given. */
  function Errors(n: nat): Replies { seq(n, _ => None) }

  function Answers(added: seq<bool>): Replies {
    seq(|added|, i requires 0 <= i < |added| => Some(added[i]))
  }

  datatype Flush = Flush(table: Table, replies: Replies)

  function FlushBatch(t: Table, b: Batch): (r: Flush)
    ensures |r.replies| == |b.events|
  {
    if Faulty(b) then Flush(t, Errors(|b.events|))
    else Flush(InsertAll(t, b.events).table, Answers(InsertAll(t, b.events).added))
  }

  /** Flushing batches one after the other. */
  function FlushAll(t: Table, batches: seq<Batch>): (r: Flush)
    ensures |r.replies| == |Queue(batches)|
    decreases |batches|
  {
    if batches == [] then Flush(t, [])
    else
      var first := FlushBatch(t, batches[0]);
      var rest := FlushAll(first.table, batches[1..]);
      Flush(rest.table, first.replies + rest.replies)
  }

  /** The events of the batches, in the order they were queued. */
  function Queue(batches: seq<Batch>): seq<Event> {
    if batches == [] then [] else batches[0].events + Queue(batches[1..])
  }

  lemma {:induction false} QueueSnoc(batches: seq<Batch>, last: Batch)
    ensures Queue(batches + [last]) == Queue(batches) + last.events
    decreases |batches|
  {
    if batches == [] {
      assert (batches + [last])[1..] == [];
    } else {
      assert (batches + [last])[1..] == batches[1..] + [last];
      QueueSnoc(batches[1..], last);
    }
  }

  lemma {:induction false} FlushAllSnoc(t: Table, batches: seq<Batch>, last: Batch)
    ensures var done := FlushAll(t, batches);
      var flush := FlushBatch(done.table, last);
      FlushAll(t, batches + [last]) == Flush(flush.table, done.replies + flush.replies)
    decreases |batches|
  {
    var all := batches + [last];
    if batches == [] {
      assert all[1..] == [];
      var flush := FlushBatch(t, last);
      assert flush.replies + [] == flush.replies == [] + flush.replies;
    } else {
      var first := FlushBatch(t, batches[0]);
      assert all[0] == batches[0] && all[1..] == batches[1..] + [last];
      FlushAllSnoc(first.table, batches[1..], last);
      var rest := FlushAll(first.table, batches[1..]);
      var flush := FlushBatch(rest.table, last);
      assert first.replies + (rest.replies + flush.replies) == (first.replies + rest.replies) + flush.replies;
    }
  }

  // ---------------------------------------------------------------- in place

  class EventStore {
    var rows: Table

    constructor ()
      ensures rows == map[]
    {
      rows := map[];
    }

    method InsertEvent(e: Event, fails: bool) returns (r: Option<bool>)
      modifies this
      ensures fails ==> r.None? && rows == old(rows)
      ensures !fails ==> r == Some(e.id !in old(rows)) && rows == Inserted(old(rows), e)
    {
      if fails {
        return None;
      }
      r := Some(e.id !in rows);
      if e.id !in rows {
        rows := rows[e.id := e];
      }
    }

    /** One transaction for the whole batch; a fault part-way rolls everything back. */
    method BatchInsert(events: seq<Event>, fault: Option<nat>) returns (r: Option<seq<bool>>)
      modifies this
      ensures r.None? <==> Faulty(Batch(events, fault))
      ensures r.None? ==> rows == old(rows)
      ensures r.Some? ==> Inserts(rows, r.value) == InsertAll(old(rows), events)
    {
      if events == [] {
        return Some([]);
      }
      if |events| == 1 {
        var single := InsertEvent(events[0], fault.Some? && fault.value <= 1);
        if single.None? {
          return None;
        }
        assert events[1..] == [];
        return Some([single.value]);
      }
      var saved := rows;
      var added: seq<bool> := [];
      for i := 0 to |events|
        invariant Inserts(rows, added) == InsertAll(saved, events[..i])
        invariant fault.Some? ==> fault.value >= i
      {
        if fault == Some(i) {
          rows := saved;
          return None;
        }
        assert events[..i + 1] == events[..i] + [events[i]];
        InsertAllAppends(saved, events[..i], [events[i]]);
        added := added + [events[i].id !in rows];
        rows := Inserted(rows, events[i]);
      }
      assert events[..|events|] == events;
      if fault == Some(|events|) {
        rows := saved;
        return None;
      }
      r := Some(added);
    }

    /** The flush loop, run until the channel is closed and drained. `arrives(b, n)` says
        whether another queued item turns up before the linger of batch `b` ends once it
        holds `n` items; `fault(b)` is the database fault that batch meets. */
    method FlushLoop(queue: seq<Event>, arrives: (nat, nat) -> bool, fault: nat -> Option<nat>)
      returns (replies: Replies, batches: seq<Batch>)
      modifies this
      ensures Queue(batches) == queue
      ensures forall b | b in batches :: 1 <= |b.events| <= BATCH_MAX
      ensures Flush(rows, replies) == FlushAll(old(rows), batches)
    {
      replies, batches := [], [];
      var next := 0;
      while next < |queue|
        invariant next <= |queue|
        invariant Queue(batches) == queue[..next]
        invariant forall b | b in batches :: 1 <= |b.events| <= BATCH_MAX
        invariant Flush(rows, replies) == FlushAll(old(rows), batches)
      {
        var start := next;
        var batch := [queue[next]];
        next := next + 1;
        while |batch| < BATCH_MAX && next < |queue| && arrives(|batches|, |batch|)
          invariant start < next <= |queue| && batch == queue[start..next] && |batch| <= BATCH_MAX
        {
          batch := batch + [queue[next]];
          next := next + 1;
        }
        var b := Batch(batch, fault(|batches|));
        FlushAllSnoc(old(rows), batches, b);
        QueueSnoc(batches, b);
        assert queue[..next] == queue[..start] + batch;
        var result := BatchInsert(batch, b.fault);
        replies := replies + (if result.Some? then Answers(result.value) else Errors(|batch|));
        batches := batches + [b];
      }
      assert queue[..|queue|] == queue;
    }
  }

  // ---------------------------------------------------------------- refinement

  ghost predicate NoFaults(batches: seq<Batch>) {
    forall b | b in batches :: !Faulty(b)
  }

  /** Without faults, any split of the queue into batches gives the replies and the table of
      one-at-a-time insertion. */
  lemma {:induction false} BatchingRefinesSingleInserts(t: Table, batches: seq<Batch>)
    requires NoFaults(batches)
    ensures FlushAll(t, batches) ==
      Flush(InsertAll(t, Queue(batches)).table, Answers(InsertAll(t, Queue(batches)).added))
    decreases |batches|
  {
    if batches != [] {
      assert batches[0] in batches;
      var first := FlushBatch(t, batches[0]);
      BatchingRefinesSingleInserts(first.table, batches[1..]);
      InsertAllAppends(t, batches[0].events, Queue(batches[1..]));
      AnswersAppend(InsertAll(t, batches[0].events).added, InsertAll(first.table, Queue(batches[1..])).added);
    }
  }

  lemma AnswersAppend(a: seq<bool>, b: seq<bool>)
    ensures Answers(a + b) == Answers(a) + Answers(b)
  {
  }

  /** With faults, the table is that of inserting only the batches that did not fail. */
  lemma {:induction false} FailedBatchesStoreNothing(t: Table, batches: seq<Batch>)
    ensures FlushAll(t, batches).table == InsertAll(t, Queue(Sound(batches))).table
    decreases |batches|
  {
    if batches != [] {
      FailedBatchesStoreNothing(FlushBatch(t, batches[0]).table, batches[1..]);
      if !Faulty(batches[0]) {
        assert Sound(batches)[0] == batches[0] && Sound(batches)[1..] == Sound(batches[1..]);
        InsertAllAppends(t, batches[0].events, Queue(Sound(batches[1..])));
      }
    }
  }

  ghost function Sound(batches: seq<Batch>): seq<Batch> {
    if batches == [] then []
    else if Faulty(batches[0]) then Sound(batches[1..])
    else [batches[0]] + Sound(batches[1..])
  }

  /** Every sender of a failed batch gets an error, every sender of another one an answer. */
  lemma {:induction false} ErrorsExactlyInFailedBatches(t: Table, batches: seq<Batch>, b: nat, i: nat)
    requires b < |batches| && i < |batches[b].events|
    ensures Offset(batches, b) + i < |Queue(batches)|
    ensures Queue(batches)[Offset(batches, b) + i] == batches[b].events[i]
    ensures FlushAll(t, batches).replies[Offset(batches, b) + i].None? <==> Faulty(batches[b])
    decreases b
  {
    var first := FlushBatch(t, batches[0]);
    if b > 0 {
      ErrorsExactlyInFailedBatches(first.table, batches[1..], b - 1, i);
      assert batches[1..][b - 1] == batches[b];
    }
  }

  /** Where the events of batch `b` start in the queue. */
  ghost function Offset(batches: seq<Batch>, b: nat): nat
    requires b <= |batches|
  {
    if b == 0 then 0 else |batches[0].events| + Offset(batches[1..], b - 1)
  }

  // ---------------------------------------------------------------- at most one `true` per id

  /** The i-th sender sent `id` and was told `true`. */
  ghost predicate Told(t: Table, batches: seq<Batch>, i: nat, id: string) {
    i < |Queue(batches)| && Queue(batches)[i].id == id && FlushAll(t, batches).replies[i] == Some(true)
  }

  ghost predicate ToldInBatch(t: Table, b: Batch, i: nat, id: string) {
    i < |b.events| && b.events[i].id == id && !Faulty(b) && InsertAll(t, b.events).added[i]
  }

  lemma ToldSplits(t: Table, batches: seq<Batch>, i: nat, id: string)
    requires batches != []
    ensures var size := |batches[0].events|;
      Told(t, batches, i, id) <==>
        if i < size then ToldInBatch(t, batches[0], i, id)
        else Told(FlushBatch(t, batches[0]).table, batches[1..], i - size, id)
  {
  }

  lemma FirstInBatchIsTold(t: Table, b: Batch, i: nat, id: string)
    requires i < |b.events| && b.events[i].id == id && !Faulty(b) && id !in t
    requires forall j | 0 <= j < i :: b.events[j].id != id
    ensures ToldInBatch(t, b, i, id)
  {
    AddedExactly(t, b.events, i);
  }

  /** Within a batch: at most one sender per id, only for a new id, and then the id is stored. */
  lemma ToldInBatchOnce(t: Table, b: Batch, i: nat, j: nat, id: string)
    requires ToldInBatch(t, b, i, id)
    ensures id !in t && id in FlushBatch(t, b).table
    ensures i < j ==> !ToldInBatch(t, b, j, id)
  {
    AddedExactly(t, b.events, i);
    InsertAllKeys(t, b.events);
    if i < j < |b.events| {
      AddedExactly(t, b.events, j);
    }
  }

  lemma BatchKeepsStored(t: Table, b: Batch, id: string)
    requires id in t
    ensures id in FlushBatch(t, b).table
  {
    InsertAllKeys(t, b.events);
  }

  lemma {:induction false} ToldMeansNew(t: Table, batches: seq<Batch>, i: nat, id: string)
    requires Told(t, batches, i, id)
    ensures id !in t
    decreases |batches|
  {
    var size := |batches[0].events|;
    ToldSplits(t, batches, i, id);
    if i < size {
      ToldInBatchOnce(t, batches[0], i, i, id);
    } else {
      ToldMeansNew(FlushBatch(t, batches[0]).table, batches[1..], i - size, id);
      if id in t {
        BatchKeepsStored(t, batches[0], id);
      }
    }
  }

  /** Per event id at most one sender is ever told `true`, whatever the split and the faults. */
  lemma {:induction false} AtMostOneTrue(t: Table, batches: seq<Batch>, i: nat, j: nat, id: string)
    requires i <= j && Told(t, batches, i, id) && Told(t, batches, j, id)
    ensures i == j
    decreases |batches|
  {
    var size := |batches[0].events|;
    var after := FlushBatch(t, batches[0]).table;
    ToldSplits(t, batches, i, id);
    ToldSplits(t, batches, j, id);
    if i < size {
      ToldInBatchOnce(t, batches[0], i, j, id);
      if j >= size {
        ToldMeansNew(after, batches[1..], j - size, id);
      }
    } else {
      AtMostOneTrue(after, batches[1..], i - size, j - size, id);
    }
  }

  /** An id newly stored by a batch was sent by someone in it who is told so. */
  lemma SomeoneIsTold(t: Table, b: Batch, id: string) returns (i: nat)
    requires id in FlushBatch(t, b).table && id !in t
    ensures ToldInBatch(t, b, i, id)
  {
    InsertAllKeys(t, b.events);
    i := 0;
    while b.events[i].id != id
      invariant i < |b.events|
      invariant forall j | 0 <= j < i :: b.events[j].id != id
      decreases |b.events| - i
    {
      i := i + 1;
    }
    FirstInBatchIsTold(t, b, i, id);
  }

  lemma {:induction false} StoredMeansTold(t: Table, batches: seq<Batch>, id: string) returns (i: nat)
    requires id in FlushAll(t, batches).table && id !in t
    ensures Told(t, batches, i, id)
    decreases |batches|
  {
    var after := FlushBatch(t, batches[0]).table;
    if id in after {
      i := SomeoneIsTold(t, batches[0], id);
    } else {
      i := StoredMeansTold(after, batches[1..], id);
      i := i + |batches[0].events|;
    }
    ToldSplits(t, batches, i, id);
  }

  lemma {:induction false} ToldMeansStored(t: Table, batches: seq<Batch>, i: nat, id: string)
    requires id in t || Told(t, batches, i, id)
    ensures id in FlushAll(t, batches).table
    decreases |batches|
  {
    if batches != [] {
      var size := |batches[0].events|;
      if id in t {
        BatchKeepsStored(t, batches[0], id);
      } else {
        ToldSplits(t, batches, i, id);
        if i < size {
          ToldInBatchOnce(t, batches[0], i, i, id);
        }
      }
      ToldMeansStored(FlushBatch(t, batches[0]).table, batches[1..], if i < size then 0 else i - size, id);
    }
  }

  /** An id ends up stored exactly when it was stored before or some sender was told `true`. */
  lemma StoredExactlyWhenTold(t: Table, batches: seq<Batch>, id: string)
    ensures id in FlushAll(t, batches).table <==> id in t || exists i: nat :: Told(t, batches, i, id)
  {
    if id in FlushAll(t, batches).table && id !in t {
      var i := StoredMeansTold(t, batches, id);
    }
    if id in t {
      ToldMeansStored(t, batches, 0, id);
    }
    forall i: nat | Told(t, batches, i, id) ensures id in FlushAll(t, batches).table {
      ToldMeansStored(t, batches, i, id);
    }
  }

  // ---------------------------------------------------------------- stored contents

  lemma {:induction false} InsertAllStores(t: Table, events: seq<Event>, i: nat)
    requires i < |events| && InsertAll(t, events).added[i]
    ensures events[i].id in InsertAll(t, events).table && InsertAll(t, events).table[events[i].id] == events[i]
    decreases |events|
  {
    var t1 := Inserted(t, events[0]);
    if i == 0 {
      InsertAllKeys(t1, events[1..]);
    } else {
      InsertAllStores(t1, events[1..], i - 1);
    }
  }

  lemma {:induction false} FlushKeepsStored(t: Table, batches: seq<Batch>, id: string)
    requires id in t
    ensures id in FlushAll(t, batches).table && FlushAll(t, batches).table[id] == t[id]
    decreases |batches|
  {
    if batches != [] {
      InsertAllKeys(t, batches[0].events);
      FlushKeepsStored(FlushBatch(t, batches[0]).table, batches[1..], id);
    }
  }

  /** The event stored under a new id is, body and all, the one of the sender told `true`; one
      stored before stays as it was. */
  lemma {:induction false} StoredIsWhatWasSent(t: Table, batches: seq<Batch>, i: nat, id: string)
    requires Told(t, batches, i, id)
    ensures id in FlushAll(t, batches).table && FlushAll(t, batches).table[id] == Queue(batches)[i]
    decreases |batches|
  {
    var size := |batches[0].events|;
    var after := FlushBatch(t, batches[0]).table;
    ToldSplits(t, batches, i, id);
    if i < size {
      InsertAllStores(t, batches[0].events, i);
      FlushKeepsStored(after, batches[1..], id);
    } else {
      StoredIsWhatWasSent(after, batches[1..], i - size, id);
    }
  }
}
