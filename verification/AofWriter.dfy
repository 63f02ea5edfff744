/**
  The log object itself: the loops that pack, gather, consume and cut, each
  proved to be a run of the steps of `AofLog`.
 */
module AofWriter {
  import opened Bytes
  import opened AofLog

  lemma {:induction false} RunThen(s: State, trace: seq<Action>, a: Action)
    requires Run(s, trace).Some?
    ensures Run(s, trace + [a]) == Next(Run(s, trace).value, a)
    decreases |trace|
  {
    if trace == [] {
      assert [a][1..] == [];
    } else {
      assert (trace + [a])[1..] == trace[1..] + [a];
      RunThen(Next(s, trace[0]).value, trace[1..], a);
    }
  }

  lemma RunOnce(s: State, a: Action)
    ensures Run(s, [a]) == Next(s, a)
  {
    assert [a][1..] == [];
  }

  /** A commit: its start, one step per turn of the loop, its end. */
  lemma RunCommit(s: State, s1: State, pieces: seq<Action>) returns (trace: seq<Action>)
    requires Next(s, CommitStart) == Some(s1) && Run(s1, pieces).Some?
    ensures Run(s, trace) == Next(Run(s1, pieces).value, CommitEnd)
  {
    var t := [CommitStart] + pieces;
    assert t[1..] == pieces;
    RunThen(s, t, CommitEnd);
    trace := t + [CommitEnd];
  }

  /** The producer's chunk has room, and some bytes. */
  predicate ChunkOpen(c: Option<Chunk>) {
    c.Some? ==> c.value.offset == 0 && 0 < |c.value.data| < CHUNK_CAPACITY
  }

  class Log {
    const policy: Policy
    var file: Bytes
    var queue: seq<Chunk>
    var queueBytes: nat
    var backpressured: bool
    var chunk: Option<Chunk>
    var active: bool
    var transaction: Bytes
    var pending: Bytes
    var next: nat
    var written: nat
    var synced: nat
    var failed: bool
    ghost var transactions: seq<Bytes>
    ghost var covered: nat

    ghost function During(producer: Producer, writer: Writer): State
      reads this
    {
      State(policy, transactions, file, covered, queue, queueBytes, backpressured, chunk, producer, pending,
            next, written, synced, writer, NoSync, failed)
    }

    /** The state between two calls: nothing is half done. */
    ghost function View(): State
      reads this
    {
      During(if active then InTransaction(transaction) else Idle, if failed then Stopped else Waiting)
    }

    ghost predicate Valid()
      reads this
    {
      Inv(View())
    }

    /** The file may hold something already; `file` is what is appended to it. */
    constructor (policy: Policy)
      ensures Valid() && View() == Open(policy, [])
    {
      this.policy := policy;
      file, queue, queueBytes, backpressured, chunk := [], [], 0, false, None;
      active, transaction, pending := false, [], [];
      next, written, synced, failed := 0, 0, 0, false;
      transactions, covered := [], 0;
      new;
      OpenIsInv(policy);
    }

    method Begin() returns (ok: bool)
      requires Valid()
      modifies this`active, this`transaction
      ensures Valid() && ok == (!old(active) && !backpressured && !failed)
      ensures if ok then Next(old(View()), AofLog.Begin) == Some(View()) else View() == old(View())
    {
      ok := !active && !backpressured && !failed;
      if ok {
        active, transaction := true, [];
        NextKeepsInv(old(View()), AofLog.Begin);
      }
    }

    method Append(record: Bytes) returns (ok: bool)
      requires Valid()
      modifies this`transaction, this`pending
      ensures Valid() && ok == !failed
      ensures if ok then Next(old(View()), AofLog.Append(record)) == Some(View()) else View() == old(View())
    {
      ok := !failed;
      if ok {
        if active { transaction := transaction + record; } else { pending := pending + record; }
        NextKeepsInv(old(View()), AofLog.Append(record));
      }
    }

    method Rollback()
      requires Valid()
      modifies this`active, this`transaction
      ensures Valid() && !active
      ensures View() == if old(active) then Next(old(View()), AofLog.Rollback).value else old(View())
    {
      ghost var s := View();
      if active { NextKeepsInv(s, AofLog.Rollback); }
      active, transaction := false, [];
    }

    /** A chunk joins the queue. */
    method QueueChunk(c: Chunk)
      requires c.offset == 0
      modifies this`queue, this`queueBytes, this`backpressured
      ensures queue == old(queue) + [c] && queueBytes == old(queueBytes) + |c.data|
      ensures backpressured == (old(backpressured) || queueBytes >= QUEUE_HIGH_WATER)
      ensures forall p, w :: During(p, w) == Enqueue(old(During(p, w)), [c])
    {
      OneChunk(c);
      assert Left(c) == c.data;
      queue := queue + [c];
      queueBytes := queueBytes + |c.data|;
      if queueBytes >= QUEUE_HIGH_WATER { backpressured := true; }
    }

    /** One turn of the commit loop. */
    method CopyPiece(number: nat, position: nat) returns (position': nat)
      requires ChunkOpen(chunk) && position < |transaction|
      modifies this`queue, this`queueBytes, this`backpressured, this`chunk
      ensures ChunkOpen(chunk) && position < position' <= |transaction|
      ensures forall w :: During(Committing(transaction, position', number), w) ==
                          PieceStep(old(During(Committing(transaction, position, number), w)))
    {
      var was := if chunk.Some? then chunk.value.data else [];
      var available: nat := CHUNK_CAPACITY - |was|;
      var amount: nat := |transaction| - position;
      if amount > available { amount := available; }
      position' := position + amount;
      var c := Chunk(was + transaction[position..position'], 0, number, position' == |transaction|);
      assert c == Filled(chunk, Committing(transaction, position, number));
      if |c.data| == CHUNK_CAPACITY {
        chunk := None;
        QueueChunk(c);
      } else {
        chunk := Some(c);
      }
    }

    /** The commit loop. */
    method CopyAll(ghost w: Writer, number: nat) returns (ghost pieces: seq<Action>)
      requires ChunkOpen(chunk)
      modifies this`queue, this`queueBytes, this`backpressured, this`chunk
      ensures forall i :: 0 <= i < |pieces| ==> pieces[i] == CommitPiece
      ensures Run(old(During(Committing(transaction, 0, number), w)), pieces)
              == Some(During(Committing(transaction, |transaction|, number), w))
    {
      ghost var s := During(Committing(transaction, 0, number), w);
      pieces := [];
      var position: nat := 0;
      while position < |transaction|
        invariant position <= |transaction| && ChunkOpen(chunk)
        invariant forall i :: 0 <= i < |pieces| ==> pieces[i] == CommitPiece
        invariant Run(s, pieces) == Some(During(Committing(transaction, position, number), w))
        decreases |transaction| - position
      {
        RunThen(s, pieces, CommitPiece);
        position := CopyPiece(number, position);
        pieces := pieces + [CommitPiece];
      }
    }

    /** The transaction gets its number. */
    method Assign() returns (sequence: nat)
      requires active && transaction != []
      modifies this`next, this`transactions
      ensures sequence == next == old(next) + 1 && transactions == old(transactions) + [transaction]
      ensures Next(old(View()), CommitStart) ==
              Some(During(Committing(transaction, 0, sequence), if failed then Stopped else Waiting))
    {
      next := next + 1;
      sequence := next;
      transactions := transactions + [transaction];
    }

    method CommitSome() returns (sequence: nat, ghost trace: seq<Action>)
      requires ChunkOpen(chunk) && active && transaction != []
      modifies this
      ensures !active && Run(old(View()), trace) == Some(View())
      ensures sequence == next == old(next) + 1 && transactions == old(transactions) + [old(transaction)]
    {
      ghost var s, w := View(), if failed then Stopped else Waiting;
      sequence := Assign();
      ghost var s1 := During(Committing(transaction, 0, sequence), w);
      ghost var pieces := CopyAll(w, sequence);
      trace := RunCommit(s, s1, pieces);
      Finish(w, sequence);
    }

    method Finish(ghost w: Writer, ghost number: nat)
      requires w == (if failed then Stopped else Waiting)
      modifies this`active, this`transaction
      ensures !active && Next(old(During(Committing(transaction, |transaction|, number), w)), CommitEnd) == Some(View())
    {
      active, transaction := false, [];
    }

    /** Ends the transaction: its bytes join the log under the next sequence. */
    method Commit() returns (ok: bool, sequence: nat, ghost trace: seq<Action>)
      requires Valid()
      modifies this
      ensures Valid() && ok == old(active) && !active
      ensures !ok ==> View() == old(View()) && sequence == 0
      ensures ok ==> Run(old(View()), trace) == Some(View())
      ensures ok && old(transaction) == [] ==> sequence == 0 && transactions == old(transactions)
      ensures ok && old(transaction) != [] ==>
        sequence == next == old(next) + 1 && transactions == old(transactions) + [old(transaction)]
    {
      ghost var s := View();
      sequence, trace := 0, [];
      if !active { return false, 0, []; }
      if transaction == [] {
        trace := [CommitStart];
        RunOnce(s, CommitStart);
        active := false;
      } else {
        sequence, trace := CommitSome();
      }
      ok := true;
      RunKeepsInv(s, trace);
    }

    /** The bytes of at most sixteen chunks, from the head of the queue. */
    method Collect() returns (vector: Bytes)
      ensures vector == Data(queue[..if |queue| < WRITEV_MAX then |queue| else WRITEV_MAX])
    {
      var count: nat := 0;
      vector := [];
      while count < |queue| && count < WRITEV_MAX
        invariant count <= |queue| && count <= WRITEV_MAX && vector == Data(queue[..count])
      {
        assert queue[..count + 1] == queue[..count] + [queue[count]];
        DataAppend(queue[..count], [queue[count]]);
        OneChunk(queue[count]);
        vector := vector + Left(queue[count]);
        count := count + 1;
      }
    }

    /** Takes written bytes off the first chunk, and the chunk off the queue when it is used up. */
    method ConsumeHead(rest: nat, completed: nat) returns (rest': nat, completed': nat)
      requires NonEmpty(queue) && 0 < rest <= |Data(queue)| && rest <= queueBytes
      modifies this`queue, this`queueBytes
      ensures rest' < rest && rest' <= |Data(queue)| && NonEmpty(queue) &&
          queueBytes == old(queueBytes) - (rest - rest')
      ensures Drop(queue, rest') == Drop(old(queue), rest)
      ensures Completed(queue, rest', completed') == Completed(old(queue), rest, completed)
    {
      var c := queue[0];
      var available: nat := |Left(c)|;
      var consumed := if rest < available then rest else available;
      var next := if consumed == available then queue[1..] else [c.(offset := c.offset + consumed)] + queue[1..];
      completed' := if consumed == available && c.end then c.sequence else completed;
      EatHead(queue, rest, completed, consumed, next, completed');
      queue, queueBytes, rest' := next, queueBytes - consumed, rest - consumed;
    }

    /** Takes written bytes off the queue; reports the last sequence that they complete. */
    method ConsumeWritten(amount: nat) returns (completed: nat)
      requires NonEmpty(queue) && amount <= |Data(queue)| == queueBytes
      modifies this`queue, this`queueBytes, this`backpressured
      ensures queue == Drop(old(queue), amount) && completed == Completed(old(queue), amount, 0)
      ensures queueBytes == old(queueBytes) - amount
      ensures backpressured == (old(backpressured) && queueBytes > QUEUE_LOW_WATER)
    {
      completed := 0;
      var rest: nat := amount;
      while rest > 0
        invariant rest <= amount && rest <= |Data(queue)| && NonEmpty(queue)
        invariant Drop(queue, rest) == Drop(old(queue), amount)
        invariant Completed(queue, rest, completed) == Completed(old(queue), amount, 0)
        invariant queueBytes == old(queueBytes) - (amount - rest) && backpressured == old(backpressured) &&
            rest <= queueBytes
      {
        rest, completed := ConsumeHead(rest, completed);
      }
      if queueBytes <= QUEUE_LOW_WATER { backpressured := false; }
    }

    ghost function Producing(): Producer
      reads this
    {
      if active then InTransaction(transaction) else Idle
    }

    /** Gathers vectors and writes `result` of their bytes. */
    method WriteOut(result: nat)
      requires !failed && queue != []
      requires 0 < result <= |Data(queue[..if |queue| < WRITEV_MAX then |queue| else WRITEV_MAX])|
      modifies this`file
      ensures Run(old(View()), [Gather, WriteSome(result)]) == Some(During(Producing(), Wrote(result)))
      ensures |file| == |old(file)| + result
    {
      ghost var s := View();
      var vector := Collect();
      file := file + vector[..result];
      assert Next(s, Gather) == Some(s.(writer := Vectored(vector)));
      RunTwo(s, Gather, WriteSome(result));
    }

    /** Consumes what was written; without a sync to wait for, publishes it too. */
    method Absorb(result: nat) returns (completed: nat)
      requires !failed && NonEmpty(queue) && result <= |Data(queue)| == queueBytes
      modifies this`queue, this`queueBytes, this`backpressured, this`written
      ensures Next(old(During(Producing(), Wrote(result))), Consume) ==
              Some(During(Producing(), if completed != 0 && policy.Always? then MustSync(completed) else Waiting))
    {
      completed := ConsumeWritten(result);
      if completed != 0 && !policy.Always? && completed > written {
        written := completed;
      }
    }

    /** The sync that policy `Always` waits for, then the publication. */
    method SyncAndPublish(completed: nat, syncOk: bool) returns (ok: bool, ghost trace: seq<Action>)
      requires !failed && policy.Always?
      modifies this`synced, this`covered, this`written, this`failed
      ensures ok == (old(synced) >= completed || syncOk) == !failed
      ensures Run(old(During(Producing(), MustSync(completed))), trace) == Some(View())
    {
      ghost var s := During(Producing(), MustSync(completed));
      trace, ok := [], true;
      if completed > synced {
        RunTwo(s, SyncBegin(completed), SyncEnd(syncOk));
        trace := [SyncBegin(completed), SyncEnd(syncOk)];
        if syncOk {
          synced := completed;
          covered := Max(covered, |file|);
        } else {
          RunThen(s, trace, Fail);
          trace, ok, failed := trace + [Fail], false, true;
          return;
        }
      }
      RunThen(s, trace, Publish);
      trace := trace + [Publish];
      if completed > written { written := completed; }
    }

    /** The part of a turn after a vector write that wrote something. */
    method TurnWritten(result: nat, syncOk: bool) returns (ok: bool, ghost trace: seq<Action>)
      requires !failed && queue != [] && NonEmpty(queue) && result <= |Data(queue)| == queueBytes
      requires 0 < result <= |Data(queue[..if |queue| < WRITEV_MAX then |queue| else WRITEV_MAX])|
      modifies this`file, this`queue, this`queueBytes, this`backpressured, this`written, this`synced, this`covered,
          this`failed
      ensures Run(old(View()), trace) == Some(View()) && ok == !failed
      ensures |file| == |old(file)| + result
    {
      ghost var s := View();
      WriteOut(result);
      var completed := Absorb(result);
      ok := true;
      trace := RunWritten(s, result);
      if completed != 0 && policy.Always? {
        ghost var more;
        ok, more := SyncAndPublish(completed, syncOk);
        RunMore(s, trace, more);
        trace := trace + more;
      }
    }

    method WriteFailed() returns (ghost trace: seq<Action>)
      requires !failed && queue != []
      modifies this`failed
      ensures failed && Run(old(View()), trace) == Some(View())
    {
      ghost var s := View();
      RunTwo(s, Gather, Fail);
      trace, failed := [Gather, Fail], true;
    }

    /**
      One turn of the writer thread on a queue that is not empty.  `result` is
      what the vector write returned, 0 for a failure; `syncOk` is the outcome
      of the sync, if there is one.
     */
    method WriterTurn(result: nat, syncOk: bool) returns (ok: bool, ghost trace: seq<Action>)
      requires Valid() && !failed && queue != []
      requires result <= |Data(queue[..if |queue| < WRITEV_MAX then |queue| else WRITEV_MAX])|
      modifies this`file, this`queue, this`queueBytes, this`backpressured, this`written, this`synced, this`covered,
          this`failed
      ensures Valid() && Run(old(View()), trace) == Some(View()) && ok == !failed
      ensures |file| == |old(file)| + result
    {
      ghost var s := View();
      if result == 0 {
        ok := false;
        trace := WriteFailed();
      } else {
        GatherTakes(queue, if |queue| < WRITEV_MAX then |queue| else WRITEV_MAX);
        ok, trace := TurnWritten(result, syncOk);
      }
      RunKeepsInv(s, trace);
    }

    /** Queues the producer's chunk, then the bytes appended outside transactions. */
    method Flush() returns (ok: bool, sequence: nat, ghost trace: seq<Action>)
      requires Valid()
      modifies this
      ensures Valid() && ok == !old(active) && (!ok ==> View() == old(View()))
      ensures ok ==> Run(old(View()), trace) == Some(View()) && chunk.None? && pending == []
      ensures ok ==> sequence == if old(pending) == [] then 0 else next
    {
      ghost var s := View();
      ok, sequence, trace := !active, 0, [];
      if active { return; }
      if chunk.Some? {
        RunThen(s, trace, FlushChunk);
        trace := [FlushChunk];
        var c := chunk.value;
        chunk := None;
        QueueChunk(c);
      }
      if pending != [] {
        RunThen(s, trace, FlushPending);
        trace := trace + [FlushPending];
        sequence := EnqueuePending();
      }
      RunKeepsInv(s, trace);
    }

    method EnqueueAll(chunks: seq<Chunk>)
      requires chunks != [] && forall i :: 0 <= i < |chunks| ==> chunks[i].offset == 0
      modifies this`queue, this`queueBytes, this`backpressured
      ensures queue == old(queue) + chunks && queueBytes == old(queueBytes) + |Data(chunks)|
      ensures backpressured == (old(backpressured) || queueBytes >= QUEUE_HIGH_WATER)
    {
      var i := 0;
      while i < |chunks|
        invariant 0 <= i <= |chunks|
        invariant queue == old(queue) + chunks[..i] && queueBytes == old(queueBytes) + |Data(chunks[..i])|
        invariant backpressured == (old(backpressured) || (i > 0 && queueBytes >= QUEUE_HIGH_WATER))
      {
        TakeOne(old(queue), chunks, i);
        QueueChunk(chunks[i]);
        i := i + 1;
      }
      assert chunks[..|chunks|] == chunks;
    }

    /** Bytes appended outside a transaction get a sequence of their own. */
    method EnqueuePending() returns (sequence: nat)
      requires !active && chunk.None? && pending != []
      modifies this`next, this`transactions, this`pending, this`queue, this`queueBytes, this`backpressured
      ensures Next(old(View()), FlushPending) == Some(View()) && sequence == next && pending == []
    {
      ghost var s := View();
      next, transactions := next + 1, transactions + [pending];
      sequence := next;
      var chunks := CutPending(pending, sequence);
      pending := [];
      EnqueueAll(chunks);
      FlushedPending(s, chunks);
    }
  }

  lemma FlushedPending(s: State, chunks: seq<Chunk>)
    requires s.producer.Idle? && s.chunk.None? && s.pending != [] && chunks == Cut(s.pending, s.next + 1)
    ensures var bytes := s.queueBytes + |Data(chunks)|;
      Next(s, FlushPending) == Some(s.(next := s.next + 1, transactions := s.transactions + [s.pending], pending := [],
        queue := s.queue + chunks, queueBytes := bytes, backpressured := s.backpressured || bytes >= QUEUE_HIGH_WATER))
  {
  }

  lemma TakeOne(q: seq<Chunk>, chunks: seq<Chunk>, i: nat)
    requires i < |chunks| && chunks[i].offset == 0
    ensures q + chunks[..i + 1] == q + chunks[..i] + [chunks[i]]
    ensures |Data(chunks[..i + 1])| == |Data(chunks[..i])| + |chunks[i].data|
  {
    assert chunks[..i + 1] == chunks[..i] + [chunks[i]];
    DataAppend(chunks[..i], [chunks[i]]);
    OneChunk(chunks[i]);
  }

  /** Cuts bytes into chunks; the last one ends the sequence. */
  method CutPending(data: Bytes, number: nat) returns (chunks: seq<Chunk>)
    requires data != []
    ensures chunks == Cut(data, number) != [] && forall i :: 0 <= i < |chunks| ==> chunks[i].offset == 0
  {
    chunks := [];
    var position: nat := 0;
    while position < |data|
      invariant position <= |data|
      invariant position < |data| ==> chunks + Cut(data[position..], number) == Cut(data, number)
      invariant position == |data| ==>
        chunks != [] && chunks[..|chunks| - 1] + [chunks[|chunks| - 1].(sequence := number, end := true)] ==
            Cut(data, number)
      invariant forall i :: 0 <= i < |chunks| ==> chunks[i].offset == 0
    {
      var amount: nat := |data| - position;
      if amount > CHUNK_CAPACITY { amount := CHUNK_CAPACITY; }
      CutStep(data, position, number);
      chunks := chunks + [Chunk(data[position..position + amount], 0, 0, false)];
      position := position + amount;
    }
    chunks := chunks[..|chunks| - 1] + [chunks[|chunks| - 1].(sequence := number, end := true)];
  }

  lemma CutStep(data: Bytes, position: nat, number: nat)
    requires position < |data|
    ensures if |data| - position <= CHUNK_CAPACITY
      then Cut(data[position..], number) == [Chunk(data[position..|data|], 0, number, true)]
      else Cut(data[position..], number) ==
           [Chunk(data[position..position + CHUNK_CAPACITY], 0, 0, false)] + Cut(data[position + CHUNK_CAPACITY..],
               number)
  {
    if |data| - position <= CHUNK_CAPACITY {
      assert data[position..] == data[position..|data|];
    } else {
      assert data[position..][..CHUNK_CAPACITY] == data[position..position + CHUNK_CAPACITY];
      assert data[position..][CHUNK_CAPACITY..] == data[position + CHUNK_CAPACITY..];
    }
  }

  lemma RunTwo(s: State, a: Action, b: Action)
    requires Next(s, a).Some?
    ensures Run(s, [a, b]) == Next(Next(s, a).value, b)
  {
    RunOnce(s, a);
    RunThen(s, [a], b);
    assert [a] + [b] == [a, b];
  }

  lemma RunWritten(s: State, result: nat) returns (trace: seq<Action>)
    requires Run(s, [Gather, WriteSome(result)]).Some?
    ensures Run(s, trace) == Next(Run(s, [Gather, WriteSome(result)]).value, Consume)
  {
    RunThen(s, [Gather, WriteSome(result)], Consume);
    trace := [Gather, WriteSome(result)] + [Consume];
  }

  lemma {:induction false} RunMore(s: State, a: seq<Action>, b: seq<Action>)
    requires Run(s, a).Some?
    ensures Run(s, a + b) == Run(Run(s, a).value, b)
    decreases |a|
  {
    if a == [] {
      assert a + b == b;
    } else {
      assert (a + b)[1..] == a[1..] + b;
      RunMore(Next(s, a[0]).value, a[1..], b);
    }
  }

  /** One turn of the loop that takes written bytes off the queue. */
  lemma EatHead(q: seq<Chunk>, rest: nat, completed: nat, consumed: nat, q': seq<Chunk>, completed': nat)
    requires NonEmpty(q) && 0 < rest <= |Data(q)| && q != []
    requires var c, available := q[0], |Left(q[0])|;
      && consumed == (if rest < available then rest else available)
      && q' == (if consumed == available then q[1..] else [c.(offset := c.offset + consumed)] + q[1..])
      && completed' == (if consumed == available && c.end then c.sequence else completed)
    ensures Drop(q, rest) == Drop(q', rest - consumed)
    ensures Completed(q, rest, completed) == Completed(q', rest - consumed, completed')
    ensures NonEmpty(q') && rest - consumed <= |Data(q')|
  {
    DropData(q, consumed);
    assert Drop(q[1..], 0) == q[1..];
  }
}
