/**
  The append-only log between the reactor thread, which packs committed
  transactions into chunks, and the writer thread, which writes the queue with
  vector writes that may be partial, syncs, and publishes sequence numbers.

  The two threads are interleaved in a step system; every step is what one of
  them does between two points where the other can get in.
 */
module AofLog {
  import opened Bytes

  const CHUNK_CAPACITY: nat := 256 * 1024
  const QUEUE_HIGH_WATER: nat := 4 * 1024 * 1024
  const QUEUE_LOW_WATER: nat := 2 * 1024 * 1024
  const WRITEV_MAX: nat := 16

  /** `end` says that the chunk finishes with the last byte of transaction `sequence`. */
  datatype Chunk = Chunk(data: Bytes, offset: nat, sequence: nat, end: bool)

  datatype Policy = Always | EverySecond | Never

  datatype Producer =
    | Idle
    | InTransaction(buffer: Bytes)
    | Committing(buffer: Bytes, position: nat, number: nat)

  datatype Writer =
    | Waiting
    | Vectored(vector: Bytes)     // the iovec filled under the lock, lock released
    | Wrote(amount: nat)          // writev returned, lock not yet taken again
    | MustSync(completed: nat)    // policy Always: consumed, not yet published
    | Stopped

  /** A running fdatasync, the sequence it is for, and the bytes that it covers. */
  datatype Sync = NoSync | Syncing(target: nat, bytes: nat)

  /**
    `transactions` is the specification's record of what was committed: the
    transaction with sequence i + 1 is transactions[i].  `covered` counts the
    file bytes known to be on disk.
   */
  datatype State = State(
    policy: Policy,
    transactions: seq<Bytes>,
    file: Bytes,
    covered: nat,
    queue: seq<Chunk>,
    queueBytes: nat,
    backpressured: bool,
    chunk: Option<Chunk>,
    producer: Producer,
    pending: Bytes,
    next: nat,
    written: nat,
    synced: nat,
    writer: Writer,
    sync: Sync,
    failed: bool)

  datatype Action =
    | Begin | Append(record: Bytes) | Rollback | CommitStart | CommitPiece | CommitEnd
    | FlushChunk | FlushPending
    | Gather | WriteSome(amount: nat) | Consume | Publish | Fail
    | SyncBegin(target: nat) | SyncEnd(ok: bool)

  // ------------------------------------------------------------------- bytes

  /** The bytes of a chunk that the writer has not consumed. */
  function Left(c: Chunk): Bytes { if c.offset <= |c.data| then c.data[c.offset..] else [] }

  function Data(queue: seq<Chunk>): Bytes {
    if queue == [] then [] else Left(queue[0]) + Data(queue[1..])
  }

  /** All transactions, one after the other. */
  function Concat(ts: seq<Bytes>): Bytes
    decreases |ts|
  {
    if ts == [] then [] else Concat(ts[..|ts| - 1]) + ts[|ts| - 1]
  }

  /** The position in the log just after the transaction with this sequence. */
  function End(ts: seq<Bytes>, sequence: nat): nat
    requires sequence <= |ts|
  {
    |Concat(ts[..sequence])|
  }

  function Max(a: nat, b: nat): nat { if a >= b then a else b }

  function Opt(c: Option<Chunk>): seq<Chunk> { if c.Some? then [c.value] else [] }

  // ---------------------------------------------------------- producer steps

  /** Chunks join the tail of the queue; a full queue refuses further transactions. */
  function Enqueue(s: State, chunks: seq<Chunk>): State {
    var bytes := s.queueBytes + |Data(chunks)|;
    s.(queue := s.queue + chunks, queueBytes := bytes,
       backpressured := s.backpressured || bytes >= QUEUE_HIGH_WATER)
  }

  /** The chunk after one piece of the transaction was copied into it. */
  function Filled(chunk: Option<Chunk>, p: Producer): Chunk
    requires p.Committing? && p.position <= |p.buffer|
  {
    var was := if chunk.Some? then chunk.value.data else [];
    var room := if |was| <= CHUNK_CAPACITY then CHUNK_CAPACITY - |was| else 0;
    var amount := if |p.buffer| - p.position > room then room else |p.buffer| - p.position;
    Chunk(was + p.buffer[p.position..p.position + amount], 0, p.number, p.position + amount == |p.buffer|)
  }

  /** One turn of the loop in the commit: copy what fits, hand over a full chunk. */
  function PieceStep(s: State): State
    requires s.producer.Committing? && s.producer.position <= |s.producer.buffer|
  {
    var p := s.producer;
    var c := Filled(s.chunk, p);
    var copied := |c.data| - (if s.chunk.Some? then |s.chunk.value.data| else 0);
    var s1 := s.(producer := p.(position := p.position + copied), chunk := Some(c));
    if |c.data| == CHUNK_CAPACITY then Enqueue(s1.(chunk := None), [c]) else s1
  }

  /** Bytes outside a transaction, cut into chunks; only the last one ends a sequence. */
  function Cut(data: Bytes, number: nat): seq<Chunk>
    decreases |data|
  {
    if |data| <= CHUNK_CAPACITY then [Chunk(data, 0, number, true)]
    else [Chunk(data[..CHUNK_CAPACITY], 0, 0, false)] + Cut(data[CHUNK_CAPACITY..], number)
  }

  /** A transaction gets the next number. */
  function Numbered(s: State, producer: Producer, x: Bytes): State {
    s.(producer := producer, next := s.next + 1, transactions := s.transactions + [x])
  }

  /** Bytes outside a transaction become one of their own. */
  function FlushStep(s: State): State {
    Enqueue(Numbered(s, Idle, s.pending).(pending := []), Cut(s.pending, s.next + 1))
  }

  // ------------------------------------------------------------ writer steps

  /** The queue after `amount` bytes of it were written. */
  function Drop(queue: seq<Chunk>, amount: nat): seq<Chunk>
    decreases |queue|
  {
    if amount == 0 || queue == [] then queue
    else
      var c := queue[0];
      if amount >= |Left(c)| then Drop(queue[1..], amount - |Left(c)|)
      else [c.(offset := c.offset + amount)] + queue[1..]
  }

  /** The sequence of the last finished chunk that ends one, or `last`. */
  function Completed(queue: seq<Chunk>, amount: nat, last: nat): nat
    decreases |queue|
  {
    if amount == 0 || queue == [] then last
    else
      var c := queue[0];
      if amount >= |Left(c)| then Completed(queue[1..], amount - |Left(c)|, if c.end then c.sequence else last)
      else last
  }

  function ConsumeStep(s: State): State
    requires s.writer.Wrote?
  {
    var amount := s.writer.amount;
    var done := Completed(s.queue, amount, 0);
    var bytes := if amount <= s.queueBytes then s.queueBytes - amount else 0;
    var s1 := s.(queue := Drop(s.queue, amount), queueBytes := bytes,
                 backpressured := s.backpressured && bytes > QUEUE_LOW_WATER);
    if done == 0 then s1.(writer := Waiting)
    else if s.policy.Always? then s1.(writer := MustSync(done))
    else s1.(writer := Waiting, written := Max(s.written, done))
  }

  /** What an action does, or None where it cannot happen. */
  function Next(s: State, a: Action): Option<State> {
    match a
    case Begin =>
      if s.producer.Idle? && !s.backpressured && !s.failed then Some(s.(producer := InTransaction([]))) else None
    case Append(r) =>
      if s.failed then None
      else if s.producer.InTransaction? then Some(s.(producer := InTransaction(s.producer.buffer + r)))
      else if s.producer.Idle? then Some(s.(pending := s.pending + r)) else None
    case Rollback =>
      if s.producer.InTransaction? then Some(s.(producer := Idle)) else None
    case CommitStart =>
      if !s.producer.InTransaction? then None
      else if s.producer.buffer == [] then Some(s.(producer := Idle))
      else Some(Numbered(s, Committing(s.producer.buffer, 0, s.next + 1), s.producer.buffer))
    case CommitPiece =>
      if s.producer.Committing? && s.producer.position < |s.producer.buffer| then Some(PieceStep(s)) else None
    case CommitEnd =>
      if s.producer.Committing? && s.producer.position >= |s.producer.buffer|
      then Some(s.(producer := Idle)) else None
    case FlushChunk =>
      if s.producer.Idle? && s.chunk.Some? then Some(FlushChunkStep(s)) else None
    case FlushPending =>
      if s.producer.Idle? && s.chunk.None? && s.pending != []
      then Some(FlushStep(s)) else None
    case Gather =>
      if s.writer.Waiting? && s.queue != []
      then Some(s.(writer := Vectored(Data(s.queue[..if |s.queue| < WRITEV_MAX then |s.queue| else WRITEV_MAX]))))
          else None
    case WriteSome(amount) =>
      if s.writer.Vectored? && 0 < amount <= |s.writer.vector|
      then Some(s.(file := s.file + s.writer.vector[..amount], writer := Wrote(amount))) else None
    case Consume =>
      if s.writer.Wrote? then Some(ConsumeStep(s)) else None
    case Publish =>
      if s.writer.MustSync? && s.writer.completed <= s.synced
      then Some(s.(writer := Waiting, written := Max(s.written, s.writer.completed))) else None
    case Fail =>
      if s.writer.Waiting? || s.writer.Vectored? || s.writer.MustSync?
      then Some(s.(writer := Stopped, failed := true)) else None
    case SyncBegin(target) =>
      if s.sync.NoSync? && s.synced < target &&
         (target <= s.written || (s.writer.MustSync? && target == s.writer.completed))
      then Some(s.(sync := Syncing(target, |s.file|))) else None
    case SyncEnd(ok) =>
      if !s.sync.Syncing? then None
      else if !ok then Some(s.(sync := NoSync))
      else Some(s.(sync := NoSync, synced := Max(s.synced, s.sync.target), covered := Max(s.covered, s.sync.bytes)))
  }

  function Run(s: State, actions: seq<Action>): Option<State>
    decreases |actions|
  {
    if actions == [] then Some(s)
    else match Next(s, actions[0])
         case None => None
         case Some(s') => Run(s', actions[1..])
  }

  /** A log just opened on a file, new or with what it held before. */
  function Open(policy: Policy, existing: Bytes): State {
    State(policy, [], existing, 0, [], 0, false, None, Idle, [], 0, 0, 0, Waiting, NoSync, false)
  }

  // --------------------------------------------------------------- invariant

  /** Bytes of the queue that are already in the file. */
  function Ahead(s: State): nat { if s.writer.Wrote? then s.writer.amount else 0 }

  /** Bytes of the file that the queue no longer holds. */
  function Consumed(s: State): int { |s.file| - Ahead(s) }

  /** What the reactor still has to copy of the transaction it is committing. */
  function Uncopied(p: Producer): Bytes {
    if p.Committing? && p.position <= |p.buffer| then p.buffer[p.position..] else []
  }

  /** All chunks, from the head of the queue to the producer's own. */
  function Chunks(s: State): seq<Chunk> { s.queue + Opt(s.chunk) }

  /** A chunk that ends a sequence ends exactly where that transaction ends. */
  ghost predicate Marks(cs: seq<Chunk>, base: int, ts: seq<Bytes>) {
    cs == [] ||
    (&& (cs[0].end ==> 0 < cs[0].sequence <= |ts| && base + |Left(cs[0])| == End(ts, cs[0].sequence))
     && Marks(cs[1..], base + |Left(cs[0])|, ts))
  }

  /** Everything on its way: queue, producer chunk and uncopied rest. */
  function Stream(s: State): Bytes { Data(Chunks(s)) + Uncopied(s.producer) }

  /** The file, followed by what is on its way and not yet in it, is what was committed. */
  ghost predicate Conserved(s: State) {
    Ahead(s) <= |Data(s.queue)| <= |Stream(s)| && s.file + Stream(s)[Ahead(s)..] == Concat(s.transactions)
  }

  ghost predicate WellFormed(s: State) {
    && s.next == |s.transactions|
    && (forall i :: 0 <= i < |s.queue| ==> Left(s.queue[i]) != [])
    && (s.chunk.Some? ==> s.chunk.value.offset == 0 && 0 < |s.chunk.value.data| < CHUNK_CAPACITY)
    && (s.producer.Committing? ==> s.producer.number == s.next > 0 && s.producer.position <= |s.producer.buffer|)
    && s.queueBytes == |Data(s.queue)|
    && (s.backpressured ==> s.queueBytes > QUEUE_LOW_WATER)
    && (!s.backpressured ==> s.queueBytes < QUEUE_HIGH_WATER)
    && (s.writer.Vectored? ==> s.writer.vector <= Data(s.queue))
  }

  /** The last chunk ends the last transaction, unless one is being copied. */
  ghost predicate Closed(s: State) {
    var cs := Chunks(s);
    if s.producer.Committing? && s.producer.position < |s.producer.buffer| then true
    else if cs != [] then cs[|cs| - 1].end && cs[|cs| - 1].sequence == s.next
    else s.written == s.next || (s.writer.MustSync? && s.writer.completed == s.next) || s.failed
  }

  /** What is published is in the file, and what is synced is on disk. */
  ghost predicate Published(s: State) {
    && s.next == |s.transactions|
    && s.written <= s.next && End(s.transactions, s.written) <= Consumed(s)
    && (s.writer.MustSync? ==>
        0 < s.writer.completed <= s.next && End(s.transactions, s.writer.completed) <= Consumed(s))
    && s.synced <= s.next && End(s.transactions, s.synced) <= s.covered <= |s.file|
    && (s.sync.Syncing? ==> s.sync.target <= s.next && End(s.transactions, s.sync.target) <= s.sync.bytes <= |s.file|)
    && (s.policy.Always? ==> s.written <= s.synced)
  }

  ghost predicate Inv(s: State) {
    && WellFormed(s) && Conserved(s) && Marks(Chunks(s), Consumed(s), s.transactions) && Closed(s) && Published(s)
  }

  // ------------------------------------------------------------------ proofs

  lemma {:induction false} DataAppend(a: seq<Chunk>, b: seq<Chunk>)
    ensures Data(a + b) == Data(a) + Data(b)
    decreases |a|
  {
    if a == [] {
      assert a + b == b;
    } else {
      assert (a + b)[1..] == a[1..] + b;
      DataAppend(a[1..], b);
    }
  }

  lemma {:induction false} MarksAppend(a: seq<Chunk>, b: seq<Chunk>, base: int, ts: seq<Bytes>)
    ensures Marks(a + b, base, ts) <==> Marks(a, base, ts) && Marks(b, base + |Data(a)|, ts)
    decreases |a|
  {
    if a == [] {
      assert a + b == b;
    } else {
      assert (a + b)[1..] == a[1..] + b;
      MarksAppend(a[1..], b, base + |Left(a[0])|, ts);
    }
  }

  lemma EndGrows(ts: seq<Bytes>, x: Bytes, q: nat)
    requires q <= |ts|
    ensures End(ts + [x], q) == End(ts, q)
    ensures End(ts + [x], |ts| + 1) == |Concat(ts)| + |x| && Concat(ts + [x]) == Concat(ts) + x
  {
    assert (ts + [x])[..q] == ts[..q];
    assert (ts + [x])[..|ts| + 1] == ts + [x];
    assert (ts + [x])[..|ts|] == ts;
  }

  lemma {:induction false} EndMonotone(ts: seq<Bytes>, a: nat, b: nat)
    requires a <= b <= |ts|
    ensures Concat(ts[..a]) <= Concat(ts[..b])
    decreases b
  {
    if a < b {
      EndMonotone(ts, a, b - 1);
      assert ts[..b][..b - 1] == ts[..b - 1];
    }
  }

  lemma {:induction false} MarksGrow(cs: seq<Chunk>, base: int, ts: seq<Bytes>, x: Bytes)
    requires Marks(cs, base, ts)
    ensures Marks(cs, base, ts + [x])
    decreases |cs|
  {
    if cs != [] {
      if cs[0].end { EndGrows(ts, x, cs[0].sequence); }
      MarksGrow(cs[1..], base + |Left(cs[0])|, ts, x);
    }
  }

  ghost predicate NonEmpty(cs: seq<Chunk>) { forall i :: 0 <= i < |cs| ==> Left(cs[i]) != [] }

  /** Consuming bytes drops exactly those bytes. */
  lemma DropData(q: seq<Chunk>, amount: nat)
    requires amount <= |Data(q)| && NonEmpty(q)
    ensures Data(Drop(q, amount)) == Data(q)[amount..] && NonEmpty(Drop(q, amount))
  {
    DropBytes(q, amount);
    DropNonEmpty(q, amount);
  }

  lemma {:induction false} DropNonEmpty(q: seq<Chunk>, amount: nat)
    requires NonEmpty(q)
    ensures NonEmpty(Drop(q, amount))
    decreases |q|
  {
    if amount != 0 && q != [] && amount >= |Left(q[0])| { DropNonEmpty(q[1..], amount - |Left(q[0])|); }
  }

  lemma DropFront(a: Bytes, b: Bytes, n: nat)
    requires |a| <= n <= |a| + |b|
    ensures (a + b)[n..] == b[n - |a|..]
  {
  }

  lemma DropInside(c: Chunk, rest: seq<Chunk>, amount: nat)
    requires amount < |Left(c)|
    ensures Data([c.(offset := c.offset + amount)] + rest) == (Left(c) + Data(rest))[amount..]
  {
    var c' := c.(offset := c.offset + amount);
    LeftLater(c, amount);
    assert ([c'] + rest)[1..] == rest;
    DropWhole(Left(c), Data(rest), amount);
  }

  lemma LeftLater(c: Chunk, amount: nat)
    requires amount < |Left(c)|
    ensures Left(c.(offset := c.offset + amount)) == Left(c)[amount..]
  {
  }

  lemma DropWhole(a: Bytes, b: Bytes, n: nat)
    requires n <= |a|
    ensures a[n..] + b == (a + b)[n..]
  {
  }

  lemma {:induction false} DropBytes(q: seq<Chunk>, amount: nat)
    requires amount <= |Data(q)|
    ensures Data(Drop(q, amount)) == Data(q)[amount..]
    decreases |q|
  {
    if amount != 0 && q != [] {
      var c := q[0];
      if amount >= |Left(c)| {
        DropBytes(q[1..], amount - |Left(c)|);
        DropFront(Left(c), Data(q[1..]), amount);
      } else {
        DropInside(c, q[1..], amount);
      }
    }
  }

  /** Consuming bytes keeps every mark. */
  lemma {:induction false} DropMarks(q: seq<Chunk>, amount: nat, base: int, ts: seq<Bytes>)
    requires amount <= |Data(q)| && Marks(q, base, ts)
    ensures Marks(Drop(q, amount), base + amount, ts)
    decreases |q|
  {
    if amount != 0 && q != [] {
      var c := q[0];
      if amount >= |Left(c)| {
        DropMarks(q[1..], amount - |Left(c)|, base + |Left(c)|, ts);
      } else {
        var c' := c.(offset := c.offset + amount);
        assert |Left(c')| == |Left(c)| - amount;
        assert ([c'] + q[1..])[1..] == q[1..];
      }
    }
  }

  /** A completed sequence lies wholly inside the consumed bytes. */
  lemma {:induction false} CompletedIsInside(q: seq<Chunk>, amount: nat, last: nat, base: int, ts: seq<Bytes>)
    requires Marks(q, base, ts)
    ensures var done := Completed(q, amount, last);
      done == last || (0 < done <= |ts| && End(ts, done) <= base + amount)
    decreases |q|
  {
    if amount != 0 && q != [] && amount >= |Left(q[0])| {
      var c := q[0];
      CompletedIsInside(q[1..], amount - |Left(c)|, if c.end then c.sequence else last, base + |Left(c)|, ts);
    }
  }

  /** Consuming everything completes what the last chunk ends; otherwise that chunk stays last. */
  ghost predicate LastKept(q: seq<Chunk>, q': seq<Chunk>, completed: nat)
    requires q != []
  {
    var c := q[|q| - 1];
    if q' == [] then completed == c.sequence else q'[|q'| - 1].end && q'[|q'| - 1].sequence == c.sequence
  }

  lemma LastOfTail(q: seq<Chunk>, q': seq<Chunk>, completed: nat)
    requires |q| > 1 && LastKept(q[1..], q', completed)
    ensures LastKept(q, q', completed)
  {
    assert q[1..][|q| - 2] == q[|q| - 1];
  }

  lemma {:induction false} DropLast(q: seq<Chunk>, amount: nat, last: nat)
    requires q != [] && NonEmpty(q) && q[|q| - 1].end && amount <= |Data(q)|
    ensures LastKept(q, Drop(q, amount), Completed(q, amount, last))
    decreases |q|
  {
    if amount == 0 {
    } else if amount < |Left(q[0])| {
      DropWithin(q, amount);
    } else {
      var rest, left, mark := q[1..], amount - |Left(q[0])|, if q[0].end then q[0].sequence else last;
      assert Drop(q, amount) == Drop(rest, left) && Completed(q, amount, last) == Completed(rest, left, mark);
      if |q| > 1 {
        DropLast(rest, left, mark);
        LastOfTail(q, Drop(rest, left), Completed(rest, left, mark));
      }
    }
  }

  lemma DropWithin(q: seq<Chunk>, amount: nat)
    requires q != [] && 0 < amount < |Left(q[0])|
    ensures var q' := Drop(q, amount);
      |q'| == |q| && q'[|q| - 1].end == q[|q| - 1].end && q'[|q| - 1].sequence == q[|q| - 1].sequence
  {
    var q' := Drop(q, amount);
    assert q' == [q[0].(offset := q[0].offset + amount)] + q[1..];
    assert |q| > 1 ==> q'[|q| - 1] == q[1..][|q| - 2];
  }

  lemma CutIs(data: Bytes, number: nat)
    requires data != []
    ensures var cs := Cut(data, number);
      && Data(cs) == data && NonEmpty(cs) && cs != [] && cs[|cs| - 1].end && cs[|cs| - 1].sequence == number
  {
    CutData(data, number);
    CutNonEmpty(data, number);
    CutLast(data, number);
  }

  lemma {:induction false} CutData(data: Bytes, number: nat)
    ensures Data(Cut(data, number)) == data
    decreases |data|
  {
    var cs := Cut(data, number);
    if |data| <= CHUNK_CAPACITY {
      assert cs[1..] == [];
    } else {
      CutData(data[CHUNK_CAPACITY..], number);
      assert cs[1..] == Cut(data[CHUNK_CAPACITY..], number);
      assert Left(cs[0]) == data[..CHUNK_CAPACITY];
    }
  }

  lemma {:induction false} CutNonEmpty(data: Bytes, number: nat)
    requires data != []
    ensures NonEmpty(Cut(data, number))
    decreases |data|
  {
    if |data| > CHUNK_CAPACITY { CutNonEmpty(data[CHUNK_CAPACITY..], number); }
  }

  lemma {:induction false} CutLast(data: Bytes, number: nat)
    ensures var cs := Cut(data, number); cs != [] && cs[|cs| - 1].end && cs[|cs| - 1].sequence == number
    decreases |data|
  {
    if |data| > CHUNK_CAPACITY {
      var rest := Cut(data[CHUNK_CAPACITY..], number);
      CutLast(data[CHUNK_CAPACITY..], number);
      assert Cut(data, number)[|rest|] == rest[|rest| - 1];
    }
  }

  /** Only the last cut piece is marked, and it ends where the bytes end. */
  lemma {:induction false} CutMarks(data: Bytes, base: int, ts: seq<Bytes>)
    requires ts != [] && data != [] && base + |data| == End(ts, |ts|)
    ensures Marks(Cut(data, |ts|), base, ts)
    decreases |data|
  {
    var cs := Cut(data, |ts|);
    if |data| <= CHUNK_CAPACITY {
      assert cs[1..] == [];
    } else {
      assert cs[1..] == Cut(data[CHUNK_CAPACITY..], |ts|);
      CutMarks(data[CHUNK_CAPACITY..], base + CHUNK_CAPACITY, ts);
    }
  }

  lemma StreamParts(s: State)
    ensures Data(Chunks(s)) == Data(s.queue) + Data(Opt(s.chunk))
    ensures Data(Opt(s.chunk)) == if s.chunk.Some? then Left(s.chunk.value) else []
    ensures |Stream(s)| >= |Data(s.queue)|
  {
    DataAppend(s.queue, Opt(s.chunk));
    if s.chunk.Some? {
      assert [s.chunk.value][1..] == [];
    }
  }

  /** The bytes on their way begin where the consumed part of the file ends. */
  lemma StreamLength(s: State)
    requires Conserved(s)
    ensures Consumed(s) + |Stream(s)| == |Concat(s.transactions)|
  {
  }

  /** New bytes at the far end of the stream. */
  lemma StreamGrows(s: State, s': State, x: Bytes)
    requires Conserved(s) && s'.file == s.file && Ahead(s') == Ahead(s) && |Data(s.queue)| <= |Data(s'.queue)|
    requires Stream(s') == Stream(s) + x && Concat(s'.transactions) == Concat(s.transactions) + x
    ensures Conserved(s')
  {
    StreamParts(s');
    GrowAtEnd(s.file, Stream(s), Ahead(s), x);
  }

  lemma GrowAtEnd(file: Bytes, stream: Bytes, ahead: nat, x: Bytes)
    requires ahead <= |stream|
    ensures file + (stream + x)[ahead..] == (file + stream[ahead..]) + x
  {
  }

  /** Growing the record of transactions disturbs nothing that was published. */
  lemma PublishedGrows(s: State, s': State, x: Bytes)
    requires Published(s) && s'.transactions == s.transactions + [x] && s'.next == s.next + 1
    requires s'.file == s.file && s'.covered == s.covered && s'.written == s.written && s'.synced == s.synced
    requires s'.writer == s.writer && s'.sync == s.sync && s'.policy == s.policy
    ensures Published(s')
  {
    EndGrows(s.transactions, x, s.written);
    EndGrows(s.transactions, x, s.synced);
    if s.writer.MustSync? { EndGrows(s.transactions, x, s.writer.completed); }
    if s.sync.Syncing? { EndGrows(s.transactions, x, s.sync.target); }
  }

  lemma AppendAll(d: Bytes, x: Bytes)
    ensures d + x[0..] == (d + []) + x
  {
  }

  lemma CommitStartKeepsInv(s: State)
    requires Inv(s) && s.producer.InTransaction? && s.producer.buffer != []
    ensures Inv(Numbered(s, Committing(s.producer.buffer, 0, s.next + 1), s.producer.buffer))
  {
    var x := s.producer.buffer;
    var s' := Numbered(s, Committing(x, 0, s.next + 1), x);
    EndGrows(s.transactions, x, 0);
    AppendAll(Data(Chunks(s)), x);
    StreamGrows(s, s', x);
    PublishedGrows(s, s', x);
    assert Chunks(s') == Chunks(s) && Consumed(s') == Consumed(s);
    MarksGrow(Chunks(s'), Consumed(s'), s.transactions, x);
  }

  /** The piece just copied: what the chunk held before, and how much was added. */
  lemma FilledIs(s: State) returns (c: Chunk, was: Bytes, copied: nat)
    requires WellFormed(s) && s.producer.Committing? && s.producer.position < |s.producer.buffer|
    ensures was == (if s.chunk.Some? then s.chunk.value.data else []) &&
        0 < copied <= |s.producer.buffer| - s.producer.position
    ensures var p := s.producer;
      && c == Chunk(was + p.buffer[p.position..p.position + copied], 0, s.next, p.position + copied == |p.buffer|)
      && c == Filled(s.chunk, p) && |c.data| <= CHUNK_CAPACITY
      && PieceStep(s).producer == p.(position := p.position + copied) && Chunks(PieceStep(s)) == s.queue + [c]
  {
    c := Filled(s.chunk, s.producer);
    was, copied := FilledParts(s.chunk, s.producer);
    PieceChunks(s);
  }

  lemma FilledParts(chunk: Option<Chunk>, p: Producer) returns (was: Bytes, copied: nat)
    requires p.Committing? && p.position < |p.buffer| && (chunk.Some? ==> |chunk.value.data| < CHUNK_CAPACITY)
    ensures was == (if chunk.Some? then chunk.value.data else []) && 0 < copied <= |p.buffer| - p.position
    ensures var c := Filled(chunk, p);
      && c == Chunk(was + p.buffer[p.position..p.position + copied], 0, p.number, p.position + copied == |p.buffer|)
      && |c.data| <= CHUNK_CAPACITY && copied == |c.data| - |was|
  {
    was := if chunk.Some? then chunk.value.data else [];
    copied := |Filled(chunk, p).data| - |was|;
  }

  lemma MovePiece(q: Bytes, was: Bytes, buffer: Bytes, position: nat, copied: nat)
    requires position + copied <= |buffer|
    ensures q + was + buffer[position..] ==
        q + (was + buffer[position..position + copied]) + buffer[position + copied..]
  {
  }

  lemma OneChunk(c: Chunk)
    ensures Data([c]) == Left(c)
  {
    assert [c][1..] == [];
  }

  lemma PieceChunks(s: State)
    requires s.producer.Committing? && s.producer.position <= |s.producer.buffer|
    ensures Chunks(PieceStep(s)) == s.queue + [Filled(s.chunk, s.producer)]
    ensures var was := if s.chunk.Some? then |s.chunk.value.data| else 0;
      PieceStep(s).producer == s.producer.(position := s.producer.position + (|Filled(s.chunk, s.producer).data| - was))
  {
  }

  /** What the chunk held before, and how much was copied. */
  lemma PieceParts(s: State) returns (was: Bytes, copied: nat)
    requires WellFormed(s) && s.producer.Committing? && s.producer.position < |s.producer.buffer|
    ensures var p, s' := s.producer, PieceStep(s);
      && 0 < copied <= |p.buffer| - p.position
      && Uncopied(s'.producer) == p.buffer[p.position + copied..]
      && Data(Chunks(s')) == Data(s.queue) + (was + p.buffer[p.position..p.position + copied])
      && Data(Chunks(s)) == Data(s.queue) + was
  {
    var c;
    c, was, copied := FilledIs(s);
    ChunkAdded(s.queue, c);
    ChunkHeld(s, was);
  }

  lemma ChunkHeld(s: State, was: Bytes)
    requires WellFormed(s) && was == if s.chunk.Some? then s.chunk.value.data else []
    ensures Data(Chunks(s)) == Data(s.queue) + was
  {
    if s.chunk.Some? {
      ChunkAdded(s.queue, s.chunk.value);
    } else {
      assert s.queue + [] == s.queue && Data(s.queue) + [] == Data(s.queue);
    }
  }

  lemma ChunkAdded(q: seq<Chunk>, c: Chunk)
    requires c.offset == 0
    ensures Data(q + [c]) == Data(q) + c.data
  {
    DataAppend(q, [c]);
    OneChunk(c);
    assert c.data[0..] == c.data;
  }

  lemma PieceKeepsStream(s: State)
    requires WellFormed(s) && s.producer.Committing? && s.producer.position < |s.producer.buffer|
    ensures Stream(PieceStep(s)) == Stream(s)
  {
    var was, copied := PieceParts(s);
    SameStream(s, PieceStep(s), Data(s.queue), was, s.producer.buffer, s.producer.position, copied);
  }

  lemma SameStream(s: State, s': State, q: Bytes, was: Bytes, buffer: Bytes, position: nat, copied: nat)
    requires position + copied <= |buffer|
    requires Data(Chunks(s)) == q + was && Uncopied(s.producer) == buffer[position..]
    requires Data(Chunks(s')) == q + (was + buffer[position..position + copied])
    requires Uncopied(s'.producer) == buffer[position + copied..]
    ensures Stream(s') == Stream(s)
  {
    MovePiece(q, was, buffer, position, copied);
  }

  lemma PieceQueueGrows(s: State)
    requires s.producer.Committing? && s.producer.position <= |s.producer.buffer|
    ensures |Data(s.queue)| <= |Data(PieceStep(s).queue)|
  {
    DataAppend(s.queue, [Filled(s.chunk, s.producer)]);
  }

  lemma EnqueueKeepsForm(s: State, cs: seq<Chunk>)
    requires WellFormed(s) && NonEmpty(cs)
    ensures WellFormed(Enqueue(s, cs)) && Data(Enqueue(s, cs).queue) == Data(s.queue) + Data(cs)
  {
    DataAppend(s.queue, cs);
    PrefixGrows(s.writer, Data(s.queue), Data(cs));
  }

  lemma PrefixGrows(w: Writer, d: Bytes, x: Bytes)
    ensures w.Vectored? && w.vector <= d ==> w.vector <= d + x
  {
  }

  lemma PieceKeepsForm(s: State)
    requires WellFormed(s) && s.producer.Committing? && s.producer.position < |s.producer.buffer|
    ensures WellFormed(PieceStep(s))
  {
    var c, was, copied := FilledIs(s);
    var s1 := s.(producer := s.producer.(position := s.producer.position + copied), chunk := None);
    EnqueueKeepsForm(s1, [c]);
  }

  lemma PieceKeepsMarks(s: State)
    requires WellFormed(s) && Conserved(s) && Marks(Chunks(s), Consumed(s), s.transactions)
    requires s.producer.Committing? && s.producer.position < |s.producer.buffer|
    ensures var s' := PieceStep(s); Marks(Chunks(s'), Consumed(s'), s'.transactions) && Closed(s')
  {
    var s' := PieceStep(s);
    var c, was, copied := FilledIs(s);
    PieceKeepsStream(s);
    ChunkAdded(s.queue, c);
    StreamLength(s);
    OneChunk(c);
    MarksAppend(s.queue, Opt(s.chunk), Consumed(s), s.transactions);
    MarksAppend(s.queue, [c], Consumed(s), s.transactions);
    assert s.transactions[..s.next] == s.transactions;
    assert [c][1..] == [];
  }

  lemma PieceKeepsInv(s: State)
    requires Inv(s) && s.producer.Committing? && s.producer.position < |s.producer.buffer|
    ensures Inv(PieceStep(s))
  {
    PieceKeepsForm(s);
    PieceKeepsMarks(s);
    PieceMoves(s);
  }

  lemma PieceMoves(s: State)
    requires WellFormed(s) && Conserved(s) && Published(s)
    requires s.producer.Committing? && s.producer.position < |s.producer.buffer|
    ensures Conserved(PieceStep(s)) && Published(PieceStep(s))
  {
    PieceKeepsStream(s);
    PieceQueueGrows(s);
    StreamParts(PieceStep(s));
    StreamMoves(s, PieceStep(s));
  }

  /** Only the producer moved bytes towards the queue. */
  ghost predicate Moved(s: State, s': State) {
    && s'.file == s.file && s'.transactions == s.transactions && s'.next == s.next && s'.writer == s.writer
    && s'.written == s.written && s'.synced == s.synced && s'.covered == s.covered && s'.sync == s.sync
    && s'.policy == s.policy && s'.failed == s.failed
  }

  lemma StreamMoves(s: State, s': State)
    requires Conserved(s) && Published(s) && Moved(s, s') && Stream(s') == Stream(s)
    requires |Data(s.queue)| <= |Data(s'.queue)| <= |Stream(s')|
    ensures Conserved(s') && Published(s')
  {
  }

  function FlushChunkStep(s: State): State
    requires s.chunk.Some?
  {
    Enqueue(s.(chunk := None), [s.chunk.value])
  }

  lemma FlushChunkMoves(s: State)
    requires WellFormed(s) && s.producer.Idle? && s.chunk.Some?
    ensures var s' := FlushChunkStep(s);
      && WellFormed(s') && Moved(s, s') && Chunks(s') == Chunks(s) && Stream(s') == Stream(s)
      && |Data(s.queue)| <= |Data(s'.queue)| <= |Stream(s')|
  {
    var s' := FlushChunkStep(s);
    EnqueueKeepsForm(s.(chunk := None), [s.chunk.value]);
    OneChunk(s.chunk.value);
    assert Chunks(s') == Chunks(s);
    StreamParts(s');
  }

  lemma FlushChunkKeepsInv(s: State)
    requires Inv(s) && s.producer.Idle? && s.chunk.Some?
    ensures Inv(FlushChunkStep(s))
  {
    FlushChunkMoves(s);
    StreamMoves(s, FlushChunkStep(s));
  }

  lemma FlushPendingKeepsStream(s: State)
    requires WellFormed(s) && s.producer.Idle? && s.chunk.None? && s.pending != []
    ensures var s', cs := FlushStep(s), Cut(s.pending, s.next + 1);
      WellFormed(s') && Chunks(s) == s.queue && Chunks(s') == s.queue + cs && Stream(s') == Stream(s) + s.pending &&
      |Data(s.queue)| <= |Data(s'.queue)| && NonEmpty(cs)
  {
    var s', x, cs := FlushStep(s), s.pending, Cut(s.pending, s.next + 1);
    CutIs(x, s.next + 1);
    EnqueueKeepsForm(Numbered(s, Idle, x).(pending := []), cs);
    assert Chunks(s) == s.queue && Chunks(s') == s.queue + cs;
    EmptyLater(Data(s.queue), x);
  }

  lemma EmptyLater(d: Bytes, x: Bytes)
    ensures (d + x) + [] == (d + []) + x
  {
  }

  lemma FlushPendingKeepsMarks(s: State)
    requires Inv(s) && s.producer.Idle? && s.chunk.None? && s.pending != []
    ensures var s' := FlushStep(s); Marks(Chunks(s'), Consumed(s'), s'.transactions)
  {
    var s' := FlushStep(s);
    FlushPendingKeepsStream(s);
    StreamLength(s);
    assert Stream(s) == Data(s.queue) by { EmptyLater(Data(s.queue), []); }
    CutGrows(s.queue, Consumed(s), s.transactions, s.pending);
    assert Consumed(s') == Consumed(s);
  }

  /** Bytes cut at the end of all transactions make one more. */
  lemma CutGrows(q: seq<Chunk>, base: int, ts: seq<Bytes>, x: Bytes)
    requires x != [] && Marks(q, base, ts) && base + |Data(q)| == |Concat(ts)|
    ensures Marks(q + Cut(x, |ts| + 1), base, ts + [x])
  {
    EndGrows(ts, x, 0);
    MarksGrow(q, base, ts, x);
    CutMarks(x, base + |Data(q)|, ts + [x]);
    MarksAppend(q, Cut(x, |ts| + 1), base, ts + [x]);
  }

  lemma FlushPendingIsClosed(s: State)
    requires WellFormed(s) && s.producer.Idle? && s.chunk.None? && s.pending != []
    ensures Closed(FlushStep(s))
  {
    CutIs(s.pending, s.next + 1);
  }

  lemma FlushPendingKeepsInv(s: State)
    requires Inv(s) && s.producer.Idle? && s.chunk.None? && s.pending != []
    ensures Inv(FlushStep(s))
  {
    var s', x := FlushStep(s), s.pending;
    FlushPendingKeepsStream(s);
    FlushPendingKeepsMarks(s);
    FlushPendingIsClosed(s);
    EndGrows(s.transactions, x, 0);
    StreamGrows(s, s', x);
    PublishedGrows(s, s', x);
  }

  // -------------------------------------------------------- the writer's side

  /** A vector write, whole or partial, moves bytes of the stream into the file. */
  lemma WriteKeepsConserved(file: Bytes, stream: Bytes, vector: Bytes, amount: nat)
    requires vector <= stream && amount <= |vector|
    ensures (file + vector[..amount]) + stream[amount..] == file + stream
  {
    assert stream == vector[..amount] + stream[amount..];
  }

  lemma WriteKeepsInv(s: State, amount: nat)
    requires Inv(s) && s.writer.Vectored? && 0 < amount <= |s.writer.vector|
    ensures Inv(Next(s, WriteSome(amount)).value)
  {
    var s' := Next(s, WriteSome(amount)).value;
    WrittenConserves(s, s', amount);
    WrittenPublished(s, s');
  }

  lemma WrittenConserves(s: State, s': State, amount: nat)
    requires WellFormed(s) && Conserved(s) && s.writer.Vectored? && 0 < amount <= |s.writer.vector|
    requires s' == s.(file := s.file + s.writer.vector[..amount], writer := Wrote(amount))
    ensures WellFormed(s') && Conserved(s') && Consumed(s') == Consumed(s) && |s.file| <= |s'.file|
  {
    StreamParts(s);
    assert s.writer.vector <= Stream(s);
    WriteKeepsConserved(s.file, Stream(s), s.writer.vector, amount);
    assert Stream(s') == Stream(s);
    FromStart(Stream(s));
  }

  lemma WrittenPublished(s: State, s': State)
    requires Published(s) && Consumed(s') == Consumed(s) && |s.file| <= |s'.file|
    requires s' == s.(file := s'.file, writer := s'.writer) && s'.writer.Wrote?
    ensures Published(s')
  {
  }

  /** The parts of the state that consuming touches, apart from what it publishes. */
  ghost predicate Ate(s: State, s': State, amount: nat) {
    && s'.queue == Drop(s.queue, amount) && s'.chunk == s.chunk && s'.producer == s.producer && s'.file == s.file
    && s'.transactions == s.transactions
  }

  lemma ConsumeAte(s: State)
    requires s.writer.Wrote?
    ensures Ate(s, ConsumeStep(s), s.writer.amount) && Ahead(ConsumeStep(s)) == 0
  {
  }

  lemma ConsumeStream(s: State, s': State, amount: nat)
    requires Ate(s, s', amount) && NonEmpty(s.queue) && amount <= |Data(s.queue)|
    ensures amount <= |Stream(s)| && Stream(s') == Stream(s)[amount..]
    ensures Data(s'.queue) == Data(s.queue)[amount..] && NonEmpty(s'.queue)
  {
    DropData(s.queue, amount);
    StreamParts(s);
    StreamParts(s');
    CutStream(s, s', Data(s.queue), Data(Opt(s.chunk)), amount);
  }

  lemma CutStream(s: State, s': State, q: Bytes, c: Bytes, amount: nat)
    requires amount <= |q| && Data(Chunks(s)) == q + c && Data(Chunks(s')) == q[amount..] + c &&
        s.producer == s'.producer
    ensures Stream(s') == Stream(s)[amount..]
  {
    DropPrefix(q, c, Uncopied(s.producer), amount);
  }

  lemma DropPrefix(q: Bytes, c: Bytes, u: Bytes, amount: nat)
    requires amount <= |q|
    ensures (q[amount..] + c) + u == ((q + c) + u)[amount..]
  {
  }

  lemma ConsumeConserves(s: State, s': State)
    requires Conserved(s) && NonEmpty(s.queue) && Ate(s, s', Ahead(s)) && Ahead(s') == 0
    ensures Conserved(s') && Consumed(s') == Consumed(s) + Ahead(s)
  {
    ConsumeStream(s, s', Ahead(s));
    StreamParts(s');
    FromStart(Stream(s'));
  }

  lemma FromStart(b: Bytes)
    ensures b[0..] == b
  {
  }

  lemma ConsumeKeepsForm(s: State)
    requires WellFormed(s) && s.writer.Wrote? && s.writer.amount <= |Data(s.queue)|
    ensures WellFormed(ConsumeStep(s))
  {
    DropData(s.queue, s.writer.amount);
    ConsumeAte(s);
  }

  lemma ConsumeKeepsMarks(s: State, s': State, amount: nat, base: int)
    requires Ate(s, s', amount) && NonEmpty(s.queue) && amount <= |Data(s.queue)| &&
        Marks(Chunks(s), base, s.transactions)
    ensures Marks(Chunks(s'), base + amount, s'.transactions)
  {
    MarksAppend(s.queue, Opt(s.chunk), base, s.transactions);
    DropData(s.queue, amount);
    DropMarks(s.queue, amount, base, s.transactions);
    MarksAppend(s'.queue, Opt(s'.chunk), base + amount, s.transactions);
  }

  /** When the last chunk is used up, its sequence is what the step completes. */
  lemma ConsumeIsClosed(s: State)
    requires NonEmpty(s.queue) && s.writer.Wrote? && s.writer.amount <= |Data(s.queue)|
    requires Closed(s) && s.written <= s.next == |s.transactions|
    requires Completed(s.queue, s.writer.amount, 0) <= s.next
    ensures Closed(ConsumeStep(s))
  {
    var q, amount := s.queue, s.writer.amount;
    if s.producer.Committing? && s.producer.position < |s.producer.buffer| {
    } else if s.chunk.Some? {
      LastOfChunks(s);
      LastOfChunks(ConsumeStep(s));
    } else if q == [] {
      assert Chunks(s) == [] && Chunks(ConsumeStep(s)) == [];
    } else {
      LastOfChunks(s);
      DropLast(q, amount, 0);
      LastOfChunks(ConsumeStep(s));
    }
  }

  lemma LastOfChunks(s: State)
    ensures var cs := Chunks(s);
      if s.chunk.Some? then cs != [] && cs[|cs| - 1] == s.chunk.value else cs == s.queue
  {
  }

  lemma ConsumeIsPublished(s: State)
    requires Published(s) && s.writer.Wrote? && Marks(s.queue, Consumed(s), s.transactions)
    ensures Published(ConsumeStep(s))
  {
    CompletedIsInside(s.queue, s.writer.amount, 0, Consumed(s), s.transactions);
  }

  lemma ConsumeKeepsInv(s: State)
    requires Inv(s) && s.writer.Wrote?
    ensures Inv(ConsumeStep(s))
  {
    MarksAppend(s.queue, Opt(s.chunk), Consumed(s), s.transactions);
    CompletedIsInside(s.queue, s.writer.amount, 0, Consumed(s), s.transactions);
    ConsumeAte(s);
    ConsumeKeepsForm(s);
    ConsumeConserves(s, ConsumeStep(s));
    ConsumeKeepsMarks(s, ConsumeStep(s), s.writer.amount, Consumed(s));
    ConsumeIsClosed(s);
    ConsumeIsPublished(s);
  }

  // ---------------------------------------------------------------- all runs

  /** Two states with the same bytes on their way, the same marks and the same file. */
  ghost predicate SameBytes(s: State, s': State) {
    && s'.queue == s.queue && s'.queueBytes == s.queueBytes && s'.backpressured == s.backpressured
    && s'.chunk == s.chunk && s'.transactions == s.transactions && s'.file == s.file && s'.next == s.next
    && Uncopied(s'.producer) == Uncopied(s.producer) && Ahead(s') == Ahead(s)
  }

  lemma SameBytesKeep(s: State, s': State)
    requires Conserved(s) && Marks(Chunks(s), Consumed(s), s.transactions) && SameBytes(s, s')
    ensures Conserved(s') && Marks(Chunks(s'), Consumed(s'), s'.transactions)
  {
  }

  predicate Quiet(s: State, a: Action) {
    a.Begin? || a.Append? || a.Rollback? || a.CommitEnd? || a.Publish? || a.Fail? || a.SyncBegin? || a.SyncEnd? ||
    (a.CommitStart? && s.producer.InTransaction? && s.producer.buffer == [])
  }

  lemma QuietSame(s: State, a: Action)
    requires WellFormed(s) && Next(s, a).Some? && Quiet(s, a)
    ensures SameBytes(s, Next(s, a).value) && WellFormed(Next(s, a).value)
  {
  }

  lemma QuietIsPublished(s: State, a: Action)
    requires Published(s) && Next(s, a).Some? && Quiet(s, a)
    ensures Published(Next(s, a).value)
  {
    if a.SyncBegin? { SyncBeginIsPublished(s, a.target); }
  }

  lemma SyncBeginIsPublished(s: State, target: nat)
    requires Published(s) && Next(s, SyncBegin(target)).Some?
    ensures Published(Next(s, SyncBegin(target)).value)
  {
    if target <= s.written { EndMonotone(s.transactions, target, s.written); }
  }

  lemma QuietIsClosed(s: State, a: Action)
    requires WellFormed(s) && Closed(s) && s.written <= s.next && (s.writer.MustSync? ==> s.writer.completed <= s.next)
    requires Next(s, a).Some? && Quiet(s, a)
    ensures Closed(Next(s, a).value)
  {
    if a.Publish? || a.Fail? || a.SyncBegin? || a.SyncEnd? { WriterQuietIsClosed(s, a); }
        else { ProducerQuietIsClosed(s, a); }
  }

  lemma WriterQuietIsClosed(s: State, a: Action)
    requires Closed(s) && s.written <= s.next && (s.writer.MustSync? ==> s.writer.completed <= s.next)
    requires (a.Publish? || a.Fail? || a.SyncBegin? || a.SyncEnd?) && Next(s, a).Some?
    ensures Closed(Next(s, a).value)
  {
    assert Chunks(Next(s, a).value) == Chunks(s);
  }

  lemma ProducerQuietIsClosed(s: State, a: Action)
    requires Closed(s) && Quiet(s, a) && !(a.Publish? || a.Fail? || a.SyncBegin? || a.SyncEnd?) && Next(s, a).Some?
    ensures Closed(Next(s, a).value)
  {
    assert Chunks(Next(s, a).value) == Chunks(s);
  }

  /** Steps that leave queue, chunk and transactions alone. */
  lemma QuietKeepsInv(s: State, a: Action)
    requires Inv(s) && Next(s, a).Some? && Quiet(s, a)
    ensures Inv(Next(s, a).value)
  {
    QuietSame(s, a);
    SameBytesKeep(s, Next(s, a).value);
    QuietIsPublished(s, a);
    QuietIsClosed(s, a);
  }

  /** Filling the vectors takes the queue's bytes from its head. */
  lemma GatherTakes(q: seq<Chunk>, k: nat)
    requires NonEmpty(q) && 0 < k <= |q|
    ensures [] < Data(q[..k]) <= Data(q)
  {
    DataAppend(q[..k], q[k..]);
    assert q[..k] + q[k..] == q;
    assert Left(q[..k][0]) != [];
  }

  lemma Gathered(s: State, v: Bytes)
    requires Inv(s) && s.writer.Waiting? && v <= Data(s.queue)
    ensures Inv(s.(writer := Vectored(v)))
  {
    var s' := s.(writer := Vectored(v));
    assert WellFormed(s');
    SameBytesKeep(s, s');
    assert Closed(s');
    assert Published(s');
  }

  lemma GatherKeepsInv(s: State)
    requires Inv(s) && s.writer.Waiting? && s.queue != []
    ensures Inv(Next(s, Gather).value) && Next(s, Gather).value.writer.vector != []
  {
    var k := if |s.queue| < WRITEV_MAX then |s.queue| else WRITEV_MAX;
    GatherTakes(s.queue, k);
    Gathered(s, Data(s.queue[..k]));
  }

  lemma NextKeepsInv(s: State, a: Action)
    requires Inv(s) && Next(s, a).Some?
    ensures Inv(Next(s, a).value)
  {
    match a
    case CommitStart => if s.producer.buffer == [] { QuietKeepsInv(s, a); } else { CommitStartKeepsInv(s); }
    case CommitPiece => PieceKeepsInv(s);
    case FlushChunk => FlushChunkKeepsInv(s);
    case FlushPending => FlushPendingKeepsInv(s);
    case Gather => GatherKeepsInv(s);
    case WriteSome(n) => WriteKeepsInv(s, n);
    case Consume => ConsumeKeepsInv(s);
    case _ => QuietKeepsInv(s, a);
  }

  lemma {:induction false} RunKeepsInv(s: State, actions: seq<Action>)
    requires Inv(s) && Run(s, actions).Some?
    ensures Inv(Run(s, actions).value)
    decreases |actions|
  {
    if actions != [] {
      NextKeepsInv(s, actions[0]);
      RunKeepsInv(Next(s, actions[0]).value, actions[1..]);
    }
  }

  // ---------------------------------------------------------------- theorems

  lemma OpenIsInv(policy: Policy)
    ensures Inv(Open(policy, []))
  {
    assert Open(policy, []).transactions[..0] == [];
  }

  /**
    s' is s on a file that held `existing` before.  What was there counts as on
    disk only once a sync has covered it.
   */
  ghost predicate OnTopOf(existing: Bytes, s: State, s': State) {
    && s' == s.(file := existing + s.file, covered := s'.covered, sync := s'.sync)
    && s'.sync == (if s.sync.NoSync? then NoSync else Syncing(s.sync.target, |existing| + s.sync.bytes))
    && (s'.covered == |existing| + s.covered || (s.covered == s.synced == 0 && s'.covered == 0))
  }

  /** Every step does the same on a file that held something before. */
  lemma NextOnTop(existing: Bytes, s: State, s': State, a: Action)
    requires OnTopOf(existing, s, s')
    ensures Next(s, a).Some? <==> Next(s', a).Some?
    ensures Next(s, a).Some? ==> OnTopOf(existing, Next(s, a).value, Next(s', a).value)
  {
    if a.WriteSome? {
      if s.writer.Vectored? && a.amount <= |s.writer.vector| {
        assert existing + (s.file + s.writer.vector[..a.amount]) == existing + s.file + s.writer.vector[..a.amount];
      }
    } else if !a.SyncBegin? && !a.SyncEnd? {
      NextAnyFile(s, existing + s.file, s'.covered, s'.sync, a);
      if Next(s, a).Some? { NextSameFile(s, a); }
    }
  }

  function WithFile(s: State, file: Bytes, covered: nat, sync: Sync): State {
    s.(file := file, covered := covered, sync := sync)
  }

  /** Other steps do not look at the file or at syncs. */
  lemma NextAnyFile(s: State, file: Bytes, covered: nat, sync: Sync, a: Action)
    requires !a.WriteSome? && !a.SyncBegin? && !a.SyncEnd?
    ensures Next(WithFile(s, file, covered, sync), a)
            == if Next(s, a).None? then None else Some(WithFile(Next(s, a).value, file, covered, sync))
  {
    match a
    case CommitPiece => PieceAnyFile(s, file, covered, sync);
    case FlushPending => FlushAnyFile(s, file, covered, sync);
    case Consume => ConsumeAnyFile(s, file, covered, sync);
    case _ =>
  }

  lemma PieceAnyFile(s: State, file: Bytes, covered: nat, sync: Sync)
    ensures s.producer.Committing? && s.producer.position <= |s.producer.buffer| ==>
      PieceStep(WithFile(s, file, covered, sync)) == WithFile(PieceStep(s), file, covered, sync)
  {
  }

  lemma FlushAnyFile(s: State, file: Bytes, covered: nat, sync: Sync)
    ensures FlushStep(WithFile(s, file, covered, sync)) == WithFile(FlushStep(s), file, covered, sync)
  {
  }

  lemma ConsumeAnyFile(s: State, file: Bytes, covered: nat, sync: Sync)
    ensures s.writer.Wrote? ==>
      ConsumeStep(WithFile(s, file, covered, sync)) == WithFile(ConsumeStep(s), file, covered, sync)
  {
  }

  lemma NextSameFile(s: State, a: Action)
    requires !a.WriteSome? && !a.SyncBegin? && !a.SyncEnd? && Next(s, a).Some?
    ensures var s' := Next(s, a).value;
      s'.file == s.file && s'.covered == s.covered && s'.sync == s.sync && s'.synced == s.synced
  {
  }

  lemma {:induction false} RunOnTop(existing: Bytes, s: State, s': State, actions: seq<Action>)
    requires OnTopOf(existing, s, s') && Run(s', actions).Some?
    ensures Run(s, actions).Some? && OnTopOf(existing, Run(s, actions).value, Run(s', actions).value)
    decreases |actions|
  {
    if actions != [] {
      NextOnTop(existing, s, s', actions[0]);
      RunOnTop(existing, Next(s, actions[0]).value, Next(s', actions[0]).value, actions[1..]);
    }
  }

  /** What a run on a reopened file appends is what the same run writes to a new one. */
  lemma Reopened(policy: Policy, existing: Bytes, actions: seq<Action>) returns (s: State)
    requires Run(Open(policy, existing), actions).Some?
    ensures Inv(s) && s.policy == policy && OnTopOf(existing, s, Run(Open(policy, existing), actions).value)
  {
    assert existing + [] == existing;
    RunOnTop(existing, Open(policy, []), Open(policy, existing), actions);
    OpenIsInv(policy);
    RunKeepsInv(Open(policy, []), actions);
    RunKeepsPolicy(Open(policy, []), actions);
    s := Run(Open(policy, []), actions).value;
  }

  /**
    Conservation: in every run the file, then the queued bytes that are not in
    it yet, then the producer's chunk, then what a running commit has not
    copied, are what the file held before and all committed transactions in
    sequence order.
   */
  lemma Conservation(policy: Policy, existing: Bytes, actions: seq<Action>)
    requires Run(Open(policy, existing), actions).Some?
    ensures var s := Run(Open(policy, existing), actions).value;
      && Ahead(s) <= |Data(s.queue)|
      && s.file + Data(s.queue)[Ahead(s)..] + Data(Opt(s.chunk)) + Uncopied(s.producer)
         == existing + Concat(s.transactions)
  {
    var s := Reopened(policy, existing, actions);
    StreamParts(s);
    SplitStream(s.file, Data(s.queue), Data(Opt(s.chunk)), Uncopied(s.producer), Ahead(s));
    InFront(existing, s.file, Data(s.queue)[Ahead(s)..], Data(Opt(s.chunk)), Uncopied(s.producer));
  }

  lemma InFront(e: Bytes, f: Bytes, q: Bytes, c: Bytes, u: Bytes)
    ensures (e + f) + q + c + u == e + (f + q + c + u)
  {
  }

  lemma SplitStream(file: Bytes, q: Bytes, c: Bytes, u: Bytes, ahead: nat)
    requires ahead <= |q|
    ensures file + ((q + c) + u)[ahead..] == file + q[ahead..] + c + u
  {
    DropPrefix(q, c, u, ahead);
  }

  /** A sequence that is reported ready is in the file, and on disk under `Always`. */
  lemma ReadyIsWritten(policy: Policy, existing: Bytes, actions: seq<Action>, sequence: nat)
    requires Run(Open(policy, existing), actions).Some?
    requires sequence <= Run(Open(policy, existing), actions).value.written
    ensures var s := Run(Open(policy, existing), actions).value;
      && sequence <= |s.transactions| && existing + Concat(s.transactions[..sequence]) <= s.file
      && s.covered <= |s.file|
      && (policy.Always? && (sequence > 0 || existing == []) ==>
          existing + Concat(s.transactions[..sequence]) <= s.file[..s.covered])
  {
    var s := Reopened(policy, existing, actions);
    var s' := Run(Open(policy, existing), actions).value;
    InFile(s, sequence, |s.file|);
    if policy.Always? && (sequence > 0 || existing == []) {
      InFile(s, sequence, s.covered);
      assert s'.file[..s'.covered] == existing + s.file[..s.covered];
    }
  }

  lemma InFile(s: State, sequence: nat, size: nat)
    requires Inv(s) && sequence <= s.written && size <= |s.file|
    requires size == |s.file| || (s.written <= s.synced && size == s.covered)
    ensures Concat(s.transactions[..sequence]) <= s.file[..size]
  {
    EndMonotone(s.transactions, sequence, s.written);
    if size != |s.file| { EndMonotone(s.transactions, s.written, s.synced); }
    EndMonotone(s.transactions, sequence, s.next);
    assert s.transactions[..s.next] == s.transactions;
    PrefixInside(Concat(s.transactions[..sequence]), s.file, Concat(s.transactions), size);
  }

  lemma PrefixInside(a: Bytes, file: Bytes, all: Bytes, size: nat)
    requires a <= all && file <= all && |a| <= size <= |file|
    ensures a <= file[..size]
  {
    assert a == all[..|a|];
  }

  lemma NextKeepsPolicy(s: State, a: Action)
    requires Next(s, a).Some?
    ensures Next(s, a).value.policy == s.policy
  {
  }

  lemma {:induction false} RunKeepsPolicy(s: State, actions: seq<Action>)
    requires Run(s, actions).Some?
    ensures Run(s, actions).value.policy == s.policy
    decreases |actions|
  {
    if actions != [] {
      NextKeepsPolicy(s, actions[0]);
      RunKeepsPolicy(Next(s, actions[0]).value, actions[1..]);
    }
  }

  /** Everything flushed and drained: all is written, and the last sequence assigned is published. */
  lemma DrainedIsComplete(policy: Policy, existing: Bytes, actions: seq<Action>)
    requires Run(Open(policy, existing), actions).Some?
    ensures var s := Run(Open(policy, existing), actions).value;
      !s.producer.Committing? && s.chunk.None? && s.queue == [] && s.writer.Waiting? && !s.failed
      ==> s.written == s.next == |s.transactions| && s.file == existing + Concat(s.transactions)
  {
    var s := Reopened(policy, existing, actions);
    if !s.producer.Committing? && s.chunk.None? && s.queue == [] {
      assert Chunks(s) == [];
    }
  }

  /**
    A checkpoint takes the file's size once its own record is published: that is
    the end of the last transaction, and all of it is on disk once synced.
   */
  lemma CheckpointIsABoundary(policy: Policy, existing: Bytes, actions: seq<Action>)
    requires Run(Open(policy, existing), actions).Some?
    ensures var s := Run(Open(policy, existing), actions).value;
      s.written == s.next ==>
        && s.file == existing + Concat(s.transactions)
        && (s.synced == s.next && (s.next > 0 || existing == []) ==> s.covered == |s.file|)
  {
    var s := Reopened(policy, existing, actions);
    if s.written == s.next {
      assert s.transactions[..s.next] == s.transactions;
    }
  }

  ghost predicate Grown(s: State, s': State) {
    s.file <= s'.file && s.transactions <= s'.transactions && s.written <= s'.written && s.synced <= s'.synced
  }

  lemma NextOnlyGrows(s: State, a: Action)
    requires Next(s, a).Some?
    ensures Grown(s, Next(s, a).value)
  {
  }

  /** Nothing written, published or synced is ever taken back. */
  lemma {:induction false} RunOnlyGrows(s: State, actions: seq<Action>)
    requires Run(s, actions).Some?
    ensures Grown(s, Run(s, actions).value)
    decreases |actions|
  {
    if actions != [] {
      NextOnlyGrows(s, actions[0]);
      RunOnlyGrows(Next(s, actions[0]).value, actions[1..]);
      GrownTwice(s, Next(s, actions[0]).value, Run(s, actions).value);
    }
  }

  lemma GrownTwice(a: State, b: State, c: State)
    requires Grown(a, b) && Grown(b, c)
    ensures Grown(a, c)
  {
  }

  /** What the callers committed, read off their calls alone. */
  datatype Calls = Calls(open: Option<Bytes>, pending: Bytes, committed: seq<Bytes>)

  function Call(c: Calls, a: Action): Calls {
    match a
    case Begin => c.(open := Some([]))
    case Append(r) => if c.open.Some? then c.(open := Some(c.open.value + r)) else c.(pending := c.pending + r)
    case Rollback => c.(open := None)
    case CommitStart =>
      if c.open.None? || c.open.value == [] then c.(open := None)
      else c.(open := None, committed := c.committed + [c.open.value])
    case FlushPending => c.(pending := [], committed := c.committed + [c.pending])
    case _ => c
  }

  function CallAll(c: Calls, actions: seq<Action>): Calls
    decreases |actions|
  {
    if actions == [] then c else CallAll(Call(c, actions[0]), actions[1..])
  }

  function Seen(s: State): Calls {
    Calls(if s.producer.InTransaction? then Some(s.producer.buffer) else None, s.pending, s.transactions)
  }

  lemma NextSeen(s: State, a: Action)
    requires Next(s, a).Some?
    ensures Seen(Next(s, a).value) == Call(Seen(s), a)
  {
  }

  /** The transactions of `Conservation` are exactly those the calls committed. */
  lemma {:induction false} RecordsTheCalls(s: State, actions: seq<Action>)
    requires Run(s, actions).Some?
    ensures Seen(Run(s, actions).value) == CallAll(Seen(s), actions)
    decreases |actions|
  {
    if actions != [] {
      NextSeen(s, actions[0]);
      RecordsTheCalls(Next(s, actions[0]).value, actions[1..]);
    }
  }
}
