/**
  Snapshots: the format that the writer produces, the reader, and what a reader
  makes of a written snapshot.
 */
module Rdb {
  import opened Bytes
  import opened Order
  import opened Resp
  import Crc64
  import Double
  import Service

  const MAGIC: Bytes := [75, 86, 82, 68, 66, 48, 48, 49]
  const TYPE_STRING: byte := 0
  const TYPE_HASH: byte := 1
  const TYPE_ZSET: byte := 2
  const TYPE_END: byte := 255
  const TOKEN_SIZE: nat := 16
  const SMALLEST: nat := 58
  const U64: nat := Double.U64

  type Token = t: Bytes | |t| == TOKEN_SIZE witness seq(TOKEN_SIZE, _ => 0)

  datatype Checkpoint = Checkpoint(valid: bool, offset: nat, token: Token)

  /** How a score lies in eight bytes; a pattern that is no score is refused. */
  datatype Codec = Codec(bits: Score -> nat, score: nat -> Option<Score>)

  /** Patterns are read as doubles, and a double is written as a pattern that reads as itself. */
  ghost predicate Sound(c: Codec) {
    && (forall bits: nat :: c.score(bits) == Double.Decode(bits))
    && forall s :: Double.IsDouble(s) ==> c.bits(s) < U64 && Double.Decode(c.bits(s)) == Some(s)
  }

  ghost function DoubleCodec(): Codec {
    Codec(s => if Double.IsDouble(s) then Double.BitsOf(s) else 0, (bits: nat) => Double.Decode(bits))
  }

  /** There is such a codec. */
  lemma CodecExists()
    ensures Sound(DoubleCodec())
  {
  }

  /** An object as the writer meets it: its parts in the order of a visit. */
  datatype Object = Text(text: Bytes) | Fields(pairs: seq<(Bytes, Bytes)>) | Members(items: seq<(Bytes, Score)>)

  datatype Row = Row(key: Bytes, value: Object, deadline: nat)

  // ------------------------------------------------------------------- numbers

  function BigEndian(n: nat, w: nat): (r: Bytes)
    ensures |r| == w
    decreases w
  {
    if w == 0 then [] else BigEndian(n / 256, w - 1) + [n % 256]
  }

  function FromBigEndian(data: Bytes): nat
    decreases |data|
  {
    if data == [] then 0 else FromBigEndian(data[..|data| - 1]) * 256 + data[|data| - 1]
  }

  function Power256(w: nat): nat { if w == 0 then 1 else 256 * Power256(w - 1) }

  lemma {:induction false} BigEndianRoundTrip(n: nat, w: nat)
    requires n < Power256(w)
    ensures FromBigEndian(BigEndian(n, w)) == n
    decreases w
  {
    if w > 0 {
      var r := BigEndian(n, w);
      assert r[..|r| - 1] == BigEndian(n / 256, w - 1) && r[|r| - 1] == n % 256;
      BigEndianRoundTrip(n / 256, w - 1);
    }
  }

  const WIDTH: nat := 8

  function EncodeU64(n: nat): Bytes { BigEndian(n, WIDTH) }

  lemma U64RoundTrip(n: nat)
    requires n < U64
    ensures FromBigEndian(EncodeU64(n)) == n
  {
    assert Power256(4) == 0x1_0000_0000;
    assert Power256(8) == U64;
    BigEndianRoundTrip(n, WIDTH);
  }

  // ------------------------------------------------------------------- writing

  function Block(data: Bytes): Bytes { EncodeU64(|data|) + data }

  /** One encoding after the other. */
  function Join<T>(encode: T -> Bytes, items: seq<T>): Bytes {
    if items == [] then [] else encode(items[0]) + Join(encode, items[1..])
  }

  function PairEncoder(): ((Bytes, Bytes)) -> Bytes { (pair: (Bytes, Bytes)) => Block(pair.0) + Block(pair.1) }

  function EncodePairs(pairs: seq<(Bytes, Bytes)>): Bytes { Join(PairEncoder(), pairs) }

  function ItemEncoder(c: Codec): ((Bytes, Score)) -> Bytes {
    (item: (Bytes, Score)) => Block(item.0) + EncodeU64(c.bits(item.1))
  }

  function EncodeItems(items: seq<(Bytes, Score)>, c: Codec): Bytes { Join(ItemEncoder(c), items) }

  function TypeOf(o: Object): byte {
    match o
    case Text(_) => TYPE_STRING
    case Fields(_) => TYPE_HASH
    case Members(_) => TYPE_ZSET
  }

  function EncodeObject(o: Object, c: Codec): Bytes {
    match o
    case Text(text) => Block(text)
    case Fields(pairs) => EncodeU64(|pairs|) + EncodePairs(pairs)
    case Members(items) => EncodeU64(|items|) + EncodeItems(items, c)
  }

  function EncodeRow(r: Row, c: Codec): Bytes {
    [TypeOf(r.value)] + EncodeU64(r.deadline) + Block(r.key) + EncodeObject(r.value, c)
  }

  function RowEncoder(c: Codec): Row -> Bytes { r => EncodeRow(r, c) }

  function EncodeRows(rows: seq<Row>, c: Codec): Bytes { Join(RowEncoder(c), rows) }

  predicate Alive(r: Row, time: nat) { r.deadline == 0 || r.deadline > time }

  /** The rows whose deadline has not passed. */
  function Living(rows: seq<Row>, time: nat): seq<Row> {
    if rows == [] then [] else (if Alive(rows[0], time) then [rows[0]] else []) + Living(rows[1..], time)
  }

  function Header(time: nat, count: nat, cp: Checkpoint): Bytes {
    MAGIC + EncodeU64(time) + EncodeU64(count) + EncodeU64(if cp.valid then cp.offset else 0)
    + [if cp.valid then 1 else 0] + (if cp.valid then cp.token else seq(TOKEN_SIZE, _ => 0))
  }

  function Payload(rows: seq<Row>, time: nat, cp: Checkpoint, c: Codec): Bytes {
    Header(time, |Living(rows, time)|, cp) + EncodeRows(Living(rows, time), c) + [TYPE_END]
  }

  function Footer(payload: Bytes): Bytes { EncodeU64(Crc64.Value(Crc64.Checksum(payload))) }

  function Save(rows: seq<Row>, time: nat, cp: Checkpoint, c: Codec): Bytes {
    Payload(rows, time, cp, c) + Footer(Payload(rows, time, cp, c))
  }

  // ------------------------------------------------------------------- reading

  /** A value read and the position after it. */
  datatype Read<T> = Fail | Got(value: T, next: nat)

  function ReadBytes(data: Bytes, position: nat, length: nat): (r: Read<Bytes>)
    ensures r.Got? ==> r.next == position + length <= |data|
  {
    if position + length > |data| then Fail else Got(data[position..position + length], position + length)
  }

  function ReadU8(data: Bytes, position: nat): (r: Read<byte>)
    ensures r.Got? ==> r.next == position + 1 <= |data|
  {
    if position + 1 > |data| then Fail else Got(data[position], position + 1)
  }

  function ReadU64(data: Bytes, position: nat): (r: Read<nat>)
    ensures r.Got? ==> r.next == position + 8 <= |data|
  {
    if position + 8 > |data| then Fail else Got(FromBigEndian(data[position..position + 8]), position + 8)
  }

  function ReadBlock(data: Bytes, position: nat): (r: Read<Bytes>)
    ensures r.Got? ==> position + 8 <= r.next <= |data|
  {
    match ReadU64(data, position)
    case Fail => Fail
    case Got(length, next) => ReadBytes(data, next, length)
  }

  function ReadPair(data: Bytes, position: nat): (r: Read<(Bytes, Bytes)>)
    ensures r.Got? ==> position < r.next <= |data|
  {
    match ReadBlock(data, position)
    case Fail => Fail
    case Got(field, middle) =>
      match ReadBlock(data, middle)
      case Fail => Fail
      case Got(value, next) => Got((field, value), next)
  }

  /** The fields still to come; a field that occurs twice is refused. */
  function ReadPairs(data: Bytes, position: nat, count: nat, h: map<Bytes, Bytes>): (r: Read<map<Bytes, Bytes>>)
    requires position <= |data|
    ensures r.Got? ==> position <= r.next <= |data|
    decreases count
  {
    if count == 0 then Got(h, position)
    else
      match ReadPair(data, position)
      case Fail => Fail
      case Got(pair, next) => if pair.0 in h then Fail else ReadPairs(data, next, count - 1, h[pair.0 := pair.1])
  }

  function ReadItem(data: Bytes, position: nat, c: Codec): (r: Read<(Bytes, Score)>)
    ensures r.Got? ==> position < r.next <= |data|
  {
    match ReadBlock(data, position)
    case Fail => Fail
    case Got(member, middle) =>
      match ReadU64(data, middle)
      case Fail => Fail
      case Got(bits, next) => if c.score(bits).None? then Fail else Got((member, c.score(bits).value), next)
  }

  function ReadItems(data: Bytes, position: nat, count: nat, z: map<Bytes, Score>, c: Codec): (r: Read<map<Bytes,
      Score>>)
    requires position <= |data|
    ensures r.Got? ==> position <= r.next <= |data|
    decreases count
  {
    if count == 0 then Got(z, position)
    else
      match ReadItem(data, position, c)
      case Fail => Fail
      case Got(item, next) => if item.0 in z then Fail else ReadItems(data, next, count - 1, z[item.0 := item.1], c)
  }

  function ReadObject(data: Bytes, position: nat, kind: byte, c: Codec): (r: Read<Service.Value>)
    ensures r.Got? ==> position < r.next <= |data|
  {
    match ReadU64(data, position)
    case Fail => Fail
    case Got(count, next) =>
      if kind == TYPE_STRING then
        match ReadBytes(data, next, count)
        case Fail => Fail
        case Got(text, end) => Got(Service.Str(text), end)
      else if kind == TYPE_HASH then
        match ReadPairs(data, next, count, map[])
        case Fail => Fail
        case Got(fields, end) => Got(Service.Hash(fields), end)
      else if kind == TYPE_ZSET then
        match ReadItems(data, next, count, map[], c)
        case Fail => Fail
        case Got(scores, end) => Got(Service.Zset(scores), end)
      else Fail
  }

  /** One key with its object and deadline. */
  datatype Loaded = Loaded(key: Bytes, value: Service.Value, deadline: nat)

  function ReadRow(data: Bytes, position: nat, kind: byte, c: Codec): (r: Read<Loaded>)
    ensures r.Got? ==> position < r.next <= |data|
  {
    match ReadU64(data, position)
    case Fail => Fail
    case Got(deadline, a) =>
      match ReadBlock(data, a)
      case Fail => Fail
      case Got(key, b) =>
        match ReadObject(data, b, kind, c)
        case Fail => Fail
        case Got(value, next) => Got(Loaded(key, value, deadline), next)
  }

  /** A row, or None at the end mark. */
  function ReadEntry(data: Bytes, position: nat, c: Codec): (r: Read<Option<Loaded>>)
    ensures r.Got? ==> position < r.next <= |data|
  {
    match ReadU8(data, position)
    case Fail => Fail
    case Got(kind, next) =>
      if kind == TYPE_END then Got(None, next)
      else
        match ReadRow(data, next, kind, c)
        case Fail => Fail
        case Got(row, end) => Got(Some(row), end)
  }

  /** All rows up to the end mark. */
  function ReadRows(data: Bytes, position: nat, rows: seq<Loaded>, c: Codec): (r: Read<seq<Loaded>>)
    requires position <= |data|
    ensures r.Got? ==> r.next <= |data|
    decreases |data| - position
  {
    match ReadEntry(data, position, c)
    case Fail => Fail
    case Got(entry, next) => if entry.None? then Got(rows, next) else ReadRows(data, next, rows + [entry.value], c)
  }

  datatype Snapshot = Damaged | Snapshot(rows: seq<Loaded>, checkpoint: Checkpoint)

  /** The header, from the magic to the token. */
  function ReadHeader(data: Bytes): (r: Read<(nat, Checkpoint)>)
    ensures r.Got? ==> r.next <= |data|
  {
    if |data| < 49 || data[..8] != MAGIC || data[32] > 1 then Fail
    else Got((FromBigEndian(data[16..24]), Checkpoint(data[32] == 1, FromBigEndian(data[24..32]), data[33..49])), 49)
  }

  /** A snapshot is taken only if checksum, header, rows, their number and the end all agree. */
  function Load(file: Bytes, c: Codec): Snapshot {
    if |file| < SMALLEST then Damaged
    else
      var data := file[..|file| - 8];
      if FromBigEndian(file[|file| - 8..]) != Crc64.Value(Crc64.Checksum(data)) then Damaged
      else
        match ReadHeader(data)
        case Fail => Damaged
        case Got(header, start) =>
          match ReadRows(data, start, [], c)
          case Fail => Damaged
          case Got(rows, end) =>
            if end != |data| || |rows| != header.0 then Damaged else Snapshot(rows, header.1)
  }

  /** What the cache holds after the rows that have not expired were stored in it. */
  function Installed(rows: seq<Loaded>, now: nat): Service.Contents
    decreases |rows|
  {
    if rows == [] then Service.Contents(map[], map[])
    else
      var before, r := Installed(rows[..|rows| - 1], now), rows[|rows| - 1];
      if r.deadline != 0 && r.deadline <= now then before else Service.With(before, r.key, r.value, r.deadline)
  }

  // ---------------------------------------------------------------- round trip

  function PairMap(h: map<Bytes, Bytes>, pairs: seq<(Bytes, Bytes)>): map<Bytes, Bytes>
    decreases |pairs|
  {
    if pairs == [] then h else PairMap(h[pairs[0].0 := pairs[0].1], pairs[1..])
  }

  function ItemMap(z: map<Bytes, Score>, items: seq<(Bytes, Score)>): map<Bytes, Score>
    decreases |items|
  {
    if items == [] then z else ItemMap(z[items[0].0 := items[0].1], items[1..])
  }

  /** The object that a visit describes. */
  function ValueOf(o: Object): Service.Value {
    match o
    case Text(text) => Service.Str(text)
    case Fields(pairs) => Service.Hash(PairMap(map[], pairs))
    case Members(items) => Service.Zset(ItemMap(map[], items))
  }

  /** A visit names each part once. */
  ghost predicate Once(o: Object) {
    match o
    case Text(_) => true
    case Fields(pairs) => forall i, j :: 0 <= i < j < |pairs| ==> pairs[i].0 != pairs[j].0
    case Members(items) => forall i, j :: 0 <= i < j < |items| ==> items[i].0 != items[j].0
  }

  /** Lengths and deadlines are 64-bit numbers. */
  ghost predicate Short(r: Row) {
    && |r.key| < U64 && r.deadline < U64
    && match r.value
       case Text(text) => |text| < U64
       case Fields(pairs) => |pairs| < U64 && forall i :: 0 <= i < |pairs| ==> |pairs[i].0| < U64 && |pairs[i].1| < U64
       case Members(items) => |items| < U64 && forall i :: 0 <= i < |items| ==> |items[i].0| < U64
  }

  ghost predicate DoubleScores(o: Object) {
    o.Members? ==> forall i :: 0 <= i < |o.items| ==> Double.IsDouble(o.items[i].1)
  }

  ghost predicate Fits(r: Row) { Short(r) && DoubleScores(r.value) }

  /** The map of a visit holds every member with its score. */
  lemma {:induction false} ItemMapHas(z: map<Bytes, Score>, items: seq<(Bytes, Score)>, i: nat)
    requires Once(Members(items)) && i < |items|
    ensures items[i].0 in ItemMap(z, items) && ItemMap(z, items)[items[i].0] == items[i].1
    decreases |items|
  {
    var z1 := z[items[0].0 := items[0].1];
    if i > 0 {
      ItemMapHas(z1, items[1..], i - 1);
    } else {
      ItemMapKeeps(z1, items[1..], items[0].0);
    }
  }

  lemma {:induction false} ItemMapKeeps(z: map<Bytes, Score>, items: seq<(Bytes, Score)>, m: Bytes)
    requires m in z && forall i :: 0 <= i < |items| ==> items[i].0 != m
    ensures m in ItemMap(z, items) && ItemMap(z, items)[m] == z[m]
    decreases |items|
  {
    if items != [] { ItemMapKeeps(z[items[0].0 := items[0].1], items[1..], m); }
  }

  lemma ReadsU64(data: Bytes, position: nat, n: nat)
    requires Holds(data, position, EncodeU64(n)) && n < U64
    ensures ReadU64(data, position) == Got(n, position + 8)
  {
    U64RoundTrip(n);
  }

  lemma ReadsBlock(data: Bytes, position: nat, x: Bytes)
    requires Holds(data, position, Block(x)) && |x| < U64
    ensures ReadBlock(data, position) == Got(x, position + |Block(x)|)
  {
    HoldsParts(data, position, EncodeU64(|x|), x);
    ReadsU64(data, position, |x|);
  }

  lemma ReadsPair(data: Bytes, position: nat, pair: (Bytes, Bytes))
    requires Holds(data, position, Block(pair.0) + Block(pair.1)) && |pair.0| < U64 && |pair.1| < U64
    ensures ReadPair(data, position) == Got(pair, position + |Block(pair.0)| + |Block(pair.1)|)
  {
    var middle, next := TwoBlocks(data, position, pair.0, pair.1);
    AssemblePair(data, position, pair.0, middle, pair.1, next);
  }

  lemma TwoBlocks(data: Bytes, position: nat, a: Bytes, b: Bytes) returns (middle: nat, next: nat)
    requires Holds(data, position, Block(a) + Block(b)) && |a| < U64 && |b| < U64
    ensures ReadBlock(data, position) == Got(a, middle) && ReadBlock(data, middle) == Got(b, next)
    ensures next == position + |Block(a)| + |Block(b)|
  {
    HoldsParts(data, position, Block(a), Block(b));
    ReadsBlock(data, position, a);
    middle := position + |Block(a)|;
    ReadsBlock(data, middle, b);
    next := middle + |Block(b)|;
  }

  lemma AssemblePair(data: Bytes, position: nat, a: Bytes, middle: nat, b: Bytes, next: nat)
    requires ReadBlock(data, position) == Got(a, middle) && ReadBlock(data, middle) == Got(b, next)
    ensures ReadPair(data, position) == Got((a, b), next)
  {
  }

  /** From this position a reader finds these parts, up to `end`. */
  ghost predicate Series<T>(read: nat -> Read<T>, position: nat, parts: seq<T>, end: nat)
    decreases |parts|
  {
    if parts == [] then end == position
    else
      var r := read(position);
      r.Got? && r.value == parts[0] && Series(read, r.next, parts[1..], end)
  }

  /** The reader undoes the encoding of each of these parts, wherever it is found. */
  ghost predicate Undoes<T>(read: nat -> Read<T>, encode: T -> Bytes, data: Bytes, parts: seq<T>) {
    forall p: nat, i :: 0 <= i < |parts| && Holds(data, p, encode(parts[i])) ==>
        read(p) == Got(parts[i], p + |encode(parts[i])|)
  }

  lemma UndoesRest<T>(read: nat -> Read<T>, encode: T -> Bytes, data: Bytes, parts: seq<T>)
    requires parts != [] && Undoes(read, encode, data, parts)
    ensures Undoes(read, encode, data, parts[1..])
  {
    assert forall i :: 0 <= i < |parts[1..]| ==> parts[1..][i] == parts[i + 1];
  }

  lemma {:induction false} JoinedSeries<T>(read: nat -> Read<T>, encode: T -> Bytes, data: Bytes, position: nat,
      parts: seq<T>, end: nat)
    requires Holds(data, position, Join(encode, parts)) && Undoes(read, encode, data, parts)
    requires end == position + |Join(encode, parts)|
    ensures Series(read, position, parts, end)
    decreases |parts|
  {
    if parts != [] {
      var first, rest := encode(parts[0]), Join(encode, parts[1..]);
      var next := position + |first|;
      HoldsParts(data, position, first, rest);
      assert read(position) == Got(parts[0], next);
      UndoesRest(read, encode, data, parts);
      JoinedSeries(read, encode, data, next, parts[1..], end);
    }
  }

  function PairReader(data: Bytes): nat -> Read<(Bytes, Bytes)> { (p: nat) => ReadPair(data, p) }

  lemma PairsUndone(data: Bytes, pairs: seq<(Bytes, Bytes)>)
    requires forall i :: 0 <= i < |pairs| ==> |pairs[i].0| < U64 && |pairs[i].1| < U64
    ensures Undoes(PairReader(data), PairEncoder(), data, pairs)
  {
    forall p: nat, i | 0 <= i < |pairs| && Holds(data, p, PairEncoder()(pairs[i]))
      ensures ReadPair(data, p) == Got(pairs[i], p + |PairEncoder()(pairs[i])|)
    {
      ReadsPair(data, p, pairs[i]);
    }
  }

  lemma {:induction false} ReadsPairs(data: Bytes, position: nat, pairs: seq<(Bytes, Bytes)>, end: nat, h: map<Bytes,
      Bytes>)
    requires Series(PairReader(data), position, pairs, end) && Once(Fields(pairs)) && position <= |data|
    requires forall i :: 0 <= i < |pairs| ==> pairs[i].0 !in h
    ensures ReadPairs(data, position, |pairs|, h) == Got(PairMap(h, pairs), end)
    decreases |pairs|
  {
    if pairs != [] {
      ReadsPairs(data, ReadPair(data, position).next, pairs[1..], end, h[pairs[0].0 := pairs[0].1]);
    }
  }

  lemma ReadsItem(data: Bytes, position: nat, item: (Bytes, Score), c: Codec)
    requires Holds(data, position, Block(item.0) + EncodeU64(c.bits(item.1))) && |item.0| < U64 &&
        Double.IsDouble(item.1) && Sound(c)
    ensures ReadItem(data, position, c) == Got(item, position + |Block(item.0)| + 8)
  {
    var middle := BlockThenNumber(data, position, item.0, c.bits(item.1));
    AssembleItem(data, position, item.0, middle, c.bits(item.1), middle + 8, c);
  }

  lemma BlockThenNumber(data: Bytes, position: nat, a: Bytes, n: nat) returns (middle: nat)
    requires Holds(data, position, Block(a) + EncodeU64(n)) && |a| < U64 && n < U64
    ensures middle == position + |Block(a)|
    ensures ReadBlock(data, position) == Got(a, middle) && ReadU64(data, middle) == Got(n, middle + 8)
  {
    HoldsParts(data, position, Block(a), EncodeU64(n));
    ReadsBlock(data, position, a);
    middle := position + |Block(a)|;
    ReadsU64(data, middle, n);
  }

  lemma AssembleItem(data: Bytes, position: nat, a: Bytes, middle: nat, bits: nat, next: nat, c: Codec)
    requires ReadBlock(data, position) == Got(a, middle) && ReadU64(data, middle) == Got(bits, next) &&
        c.score(bits).Some?
    ensures ReadItem(data, position, c) == Got((a, c.score(bits).value), next)
  {
  }

  function ItemReader(data: Bytes, c: Codec): nat -> Read<(Bytes, Score)> { (p: nat) => ReadItem(data, p, c) }

  lemma ItemsUndone(data: Bytes, items: seq<(Bytes, Score)>, c: Codec)
    requires Sound(c) && forall i :: 0 <= i < |items| ==> |items[i].0| < U64 && Double.IsDouble(items[i].1)
    ensures Undoes(ItemReader(data, c), ItemEncoder(c), data, items)
  {
    forall p: nat, i | 0 <= i < |items| && Holds(data, p, ItemEncoder(c)(items[i]))
      ensures ReadItem(data, p, c) == Got(items[i], p + |ItemEncoder(c)(items[i])|)
    {
      ReadsItem(data, p, items[i], c);
    }
  }

  lemma {:induction false} ReadsItems(data: Bytes, position: nat, items: seq<(Bytes, Score)>, end: nat, z: map<Bytes,
      Score>, c: Codec)
    requires Series(ItemReader(data, c), position, items, end) && Once(Members(items)) && position <= |data|
    requires forall i :: 0 <= i < |items| ==> items[i].0 !in z
    ensures ReadItems(data, position, |items|, z, c) == Got(ItemMap(z, items), end)
    decreases |items|
  {
    if items != [] {
      ReadsItems(data, ReadItem(data, position, c).next, items[1..], end, z[items[0].0 := items[0].1], c);
    }
  }

  lemma ReadsText(data: Bytes, position: nat, text: Bytes, c: Codec)
    requires Holds(data, position, Block(text)) && |text| < U64
    ensures ReadObject(data, position, TYPE_STRING, c) == Got(Service.Str(text), position + |Block(text)|)
  {
    HoldsParts(data, position, EncodeU64(|text|), text);
    ReadsU64(data, position, |text|);
  }

  /** A count, then that many parts. */
  lemma CountThenSeries<T>(read: nat -> Read<T>, encode: T -> Bytes, data: Bytes, position: nat, parts: seq<T>)
      returns (end: nat)
    requires Holds(data, position, EncodeU64(|parts|) + Join(encode, parts)) && |parts| < U64 &&
        Undoes(read, encode, data, parts)
    ensures end == position + 8 + |Join(encode, parts)| && position + 8 <= |data|
    ensures ReadU64(data, position) == Got(|parts|, position + 8) && Series(read, position + 8, parts, end)
  {
    HoldsParts(data, position, EncodeU64(|parts|), Join(encode, parts));
    ReadsU64(data, position, |parts|);
    end := position + 8 + |Join(encode, parts)|;
    JoinedSeries(read, encode, data, position + 8, parts, end);
  }

  lemma ReadsHash(data: Bytes, position: nat, pairs: seq<(Bytes, Bytes)>, c: Codec)
    requires Holds(data, position, EncodeU64(|pairs|) + EncodePairs(pairs)) && |pairs| < U64 && Once(Fields(pairs))
    requires forall i :: 0 <= i < |pairs| ==> |pairs[i].0| < U64 && |pairs[i].1| < U64
    ensures ReadObject(data, position, TYPE_HASH, c) ==
        Got(Service.Hash(PairMap(map[], pairs)), position + 8 + |EncodePairs(pairs)|)
  {
    PairsUndone(data, pairs);
    var end := CountThenSeries(PairReader(data), PairEncoder(), data, position, pairs);
    ReadsPairs(data, position + 8, pairs, end, map[]);
  }

  lemma ReadsZset(data: Bytes, position: nat, items: seq<(Bytes, Score)>, c: Codec)
    requires Holds(data, position, EncodeU64(|items|) + EncodeItems(items, c)) && |items| < U64 &&
        Once(Members(items)) && Sound(c)
    requires forall i :: 0 <= i < |items| ==> |items[i].0| < U64 && Double.IsDouble(items[i].1)
    ensures ReadObject(data, position, TYPE_ZSET, c) ==
        Got(Service.Zset(ItemMap(map[], items)), position + 8 + |EncodeItems(items, c)|)
  {
    ItemsUndone(data, items, c);
    var end := CountThenSeries(ItemReader(data, c), ItemEncoder(c), data, position, items);
    ReadsItems(data, position + 8, items, end, map[], c);
  }

  lemma ReadsObject(data: Bytes, position: nat, r: Row, c: Codec)
    requires Holds(data, position, EncodeObject(r.value, c)) && Once(r.value) && Fits(r) && Sound(c)
    ensures ReadObject(data, position, TypeOf(r.value), c) ==
        Got(ValueOf(r.value), position + |EncodeObject(r.value, c)|)
  {
    match r.value
    case Text(text) => ReadsText(data, position, text, c);
    case Fields(pairs) => ReadsHash(data, position, pairs, c);
    case Members(items) => ReadsZset(data, position, items, c);
  }

  function LoadedOf(r: Row): Loaded { Loaded(r.key, ValueOf(r.value), r.deadline) }

  lemma HoldsFour(data: Bytes, position: nat, t: Bytes, d: Bytes, k: Bytes, o: Bytes)
    requires Holds(data, position, t + d + k + o)
    ensures Holds(data, position, t) && Holds(data, position + |t|, d) && Holds(data, position + |t| + |d|, k)
    ensures Holds(data, position + |t| + |d| + |k|, o) && |t + d + k + o| == |t| + |d| + |k| + |o|
  {
    HoldsParts(data, position, t + d + k, o);
    HoldsParts(data, position, t + d, k);
    HoldsParts(data, position, t, d);
  }

  /** Deadline, key and object lie here, one after the other. */
  ghost predicate PartsPlaced(data: Bytes, position: nat, r: Row, c: Codec) {
    && Holds(data, position, EncodeU64(r.deadline)) && Holds(data, position + 8, Block(r.key))
    && Holds(data, position + 8 + |Block(r.key)|, EncodeObject(r.value, c))
  }

  /** The parts of a row lie here, one after the other. */
  ghost predicate RowPlaced(data: Bytes, position: nat, r: Row, size: nat, c: Codec) {
    && position < |data| && data[position] == TypeOf(r.value) && PartsPlaced(data, position + 1, r, c)
    && size == 9 + |Block(r.key)| + |EncodeObject(r.value, c)|
  }

  lemma RowLayout(data: Bytes, position: nat, r: Row, c: Codec)
    requires Holds(data, position, EncodeRow(r, c))
    ensures RowPlaced(data, position, r, |EncodeRow(r, c)|, c)
  {
    HoldsFour(data, position, [TypeOf(r.value)], EncodeU64(r.deadline), Block(r.key), EncodeObject(r.value, c));
    HoldsAt(data, position, [TypeOf(r.value)], 0);
  }

  lemma AssembleRow(data: Bytes, position: nat, kind: byte, deadline: nat, key: Bytes, b: nat, value: Service.Value,
      end: nat, c: Codec)
    requires ReadU64(data, position) == Got(deadline, position + 8) && ReadBlock(data, position + 8) == Got(key, b)
    requires ReadObject(data, b, kind, c) == Got(value, end)
    ensures ReadRow(data, position, kind, c) == Got(Loaded(key, value, deadline), end)
  {
  }

  lemma ReadsRow(data: Bytes, position: nat, r: Row, c: Codec) returns (end: nat)
    requires PartsPlaced(data, position, r, c) && Once(r.value) && Fits(r) && Sound(c)
    ensures end == position + 8 + |Block(r.key)| + |EncodeObject(r.value, c)|
    ensures ReadRow(data, position, TypeOf(r.value), c) == Got(LoadedOf(r), end)
  {
    var b := ReadsKey(data, position, r.deadline, r.key);
    end := ObjectFrom(data, b, r, c);
    AssembleRow(data, position, TypeOf(r.value), r.deadline, r.key, b, ValueOf(r.value), end, c);
  }

  lemma ReadsKey(data: Bytes, position: nat, deadline: nat, key: Bytes) returns (next: nat)
    requires Holds(data, position, EncodeU64(deadline)) && Holds(data, position + 8, Block(key)) && deadline < U64 &&
        |key| < U64
    ensures next == position + 8 + |Block(key)|
    ensures ReadU64(data, position) == Got(deadline, position + 8) && ReadBlock(data, position + 8) == Got(key, next)
  {
    ReadsU64(data, position, deadline);
    ReadsBlock(data, position + 8, key);
    next := position + 8 + |Block(key)|;
  }

  lemma ObjectFrom(data: Bytes, position: nat, r: Row, c: Codec) returns (end: nat)
    requires Holds(data, position, EncodeObject(r.value, c)) && Once(r.value) && Fits(r) && Sound(c)
    ensures end == position + |EncodeObject(r.value, c)|
    ensures ReadObject(data, position, TypeOf(r.value), c) == Got(ValueOf(r.value), end)
  {
    ReadsObject(data, position, r, c);
    end := position + |EncodeObject(r.value, c)|;
  }

  lemma AssembleEntry(data: Bytes, position: nat, kind: byte, row: Loaded, end: nat, c: Codec)
    requires position < |data| && data[position] == kind != TYPE_END &&
        ReadRow(data, position + 1, kind, c) == Got(row, end)
    ensures ReadEntry(data, position, c) == Got(Some(row), end)
  {
  }

  /** One row, up to its end. */
  lemma ReadsPlaced(data: Bytes, position: nat, r: Row, size: nat, c: Codec)
    requires RowPlaced(data, position, r, size, c) && Once(r.value) && Fits(r) && Sound(c)
    ensures ReadEntry(data, position, c) == Got(Some(LoadedOf(r)), position + size)
  {
    ReadsPlacedRow(data, position, r, size, c);
    AssembleEntry(data, position, TypeOf(r.value), LoadedOf(r), position + size, c);
  }

  lemma ReadsPlacedRow(data: Bytes, position: nat, r: Row, size: nat, c: Codec)
    requires RowPlaced(data, position, r, size, c) && Once(r.value) && Fits(r) && Sound(c)
    ensures ReadRow(data, position + 1, TypeOf(r.value), c) == Got(LoadedOf(r), position + size)
  {
    var _ := ReadsRow(data, position + 1, r, c);
  }

  lemma ReadsEntry(data: Bytes, position: nat, r: Row, c: Codec)
    requires Holds(data, position, EncodeRow(r, c)) && Once(r.value) && Fits(r) && Sound(c)
    ensures ReadEntry(data, position, c) == Got(Some(LoadedOf(r)), position + |EncodeRow(r, c)|)
  {
    RowLayout(data, position, r, c);
    ReadsPlaced(data, position, r, |EncodeRow(r, c)|, c);
  }

  ghost predicate Good(rows: seq<Row>) { forall i :: 0 <= i < |rows| ==> Once(rows[i].value) && Fits(rows[i]) }

  function AllLoaded(rows: seq<Row>): (r: seq<Loaded>)
    ensures |r| == |rows|
  {
    if rows == [] then [] else [LoadedOf(rows[0])] + AllLoaded(rows[1..])
  }

  type Reader = nat -> Read<Option<Loaded>>

  function EntryReader(data: Bytes, c: Codec): Reader { (p: nat) => ReadEntry(data, p, c) }

  /** At these positions a reader finds these rows, and at the last one an end mark before `end`. */
  ghost predicate RowsAt(read: Reader, positions: seq<nat>, rows: seq<Loaded>, end: nat) {
    && |positions| == |rows| + 1 && read(positions[|rows|]) == Got(None, end)
    && forall i :: 0 <= i < |rows| ==> read(positions[i]) == Got(Some(rows[i]), positions[i + 1])
  }

  /** The reader understands the encoding of each of these rows, and the end mark. */
  ghost predicate Understands(read: Reader, encode: Row -> Bytes, data: Bytes, rows: seq<Row>) {
    && (forall p: nat, i :: 0 <= i < |rows| && Holds(data, p, encode(rows[i])) ==>
          read(p) == Got(Some(LoadedOf(rows[i])), p + |encode(rows[i])|))
    && forall p: nat :: Holds(data, p, [TYPE_END]) ==> read(p) == Got(None, p + 1)
  }

  lemma UnderstandsRest(read: Reader, encode: Row -> Bytes, data: Bytes, rows: seq<Row>)
    requires rows != [] && Understands(read, encode, data, rows)
    ensures Understands(read, encode, data, rows[1..])
  {
    assert forall i :: 0 <= i < |rows[1..]| ==> rows[1..][i] == rows[i + 1];
  }

  lemma {:induction false} JoinedRows(read: Reader, encode: Row -> Bytes, data: Bytes, position: nat, rows: seq<Row>,
      end: nat) returns (positions: seq<nat>)
    requires Holds(data, position, Join(encode, rows)) && Understands(read, encode, data, rows)
    requires end == position + |Join(encode, rows)| && Holds(data, end, [TYPE_END])
    ensures RowsAt(read, positions, AllLoaded(rows), end + 1) && positions[0] == position
    decreases |rows|
  {
    if rows == [] {
      positions := [position];
    } else {
      var first, rest := encode(rows[0]), Join(encode, rows[1..]);
      HoldsParts(data, position, first, rest);
      UnderstandsRest(read, encode, data, rows);
      var later := JoinedRows(read, encode, data, position + |first|, rows[1..], end);
      positions := [position] + later;
      FirstRow(read, position, later, LoadedOf(rows[0]), AllLoaded(rows[1..]), end + 1);
      assert AllLoaded(rows) == [LoadedOf(rows[0])] + AllLoaded(rows[1..]);
    }
  }

  lemma FirstRow(read: Reader, position: nat, later: seq<nat>, row: Loaded, rest: seq<Loaded>, end: nat)
    requires RowsAt(read, later, rest, end) && read(position) == Got(Some(row), later[0])
    ensures RowsAt(read, [position] + later, [row] + rest, end)
  {
  }

  lemma EndMark(data: Bytes, position: nat, c: Codec)
    requires Holds(data, position, [TYPE_END])
    ensures ReadEntry(data, position, c) == Got(None, position + 1)
  {
    HoldsAt(data, position, [TYPE_END], 0);
  }

  lemma EntriesUnderstood(data: Bytes, rows: seq<Row>, c: Codec)
    requires Good(rows) && Sound(c)
    ensures Understands(EntryReader(data, c), RowEncoder(c), data, rows)
  {
    forall p: nat, i | 0 <= i < |rows| && Holds(data, p, EncodeRow(rows[i], c))
      ensures ReadEntry(data, p, c) == Got(Some(LoadedOf(rows[i])), p + |EncodeRow(rows[i], c)|)
    {
      ReadsEntry(data, p, rows[i], c);
    }
    forall p: nat | Holds(data, p, [TYPE_END]) ensures ReadEntry(data, p, c) == Got(None, p + 1) {
      EndMark(data, p, c);
    }
  }

  lemma ReadNext(data: Bytes, position: nat, before: seq<Loaded>, row: Loaded, next: nat, c: Codec)
    requires position <= |data| && ReadEntry(data, position, c) == Got(Some(row), next)
    ensures next <= |data| && ReadRows(data, position, before, c) == ReadRows(data, next, before + [row], c)
  {
  }

  type Collector = (nat, seq<Loaded>) -> Read<seq<Loaded>>

  function RowsCollector(data: Bytes, c: Codec): Collector {
    (p: nat, before: seq<Loaded>) => if p <= |data| then ReadRows(data, p, before, c) else Fail
  }

  /** All rows are collected by reading one after the other. */
  ghost predicate Collects(read: Reader, all: Collector) {
    forall p: nat, before: seq<Loaded> :: read(p).Got? ==>
      all(p, before) == if read(p).value.None? then Got(before, read(p).next)
                        else all(read(p).next, before + [read(p).value.value])
  }

  lemma RowsCollected(data: Bytes, c: Codec)
    ensures Collects(EntryReader(data, c), RowsCollector(data, c))
  {
    forall p: nat, before: seq<Loaded> | ReadEntry(data, p, c).Got?
      ensures RowsCollector(data, c)(p, before)
              == if ReadEntry(data, p, c).value.None? then Got(before, ReadEntry(data, p, c).next)
                 else RowsCollector(data, c)(ReadEntry(data, p, c).next, before + [ReadEntry(data, p, c).value.value])
    {
      if ReadEntry(data, p, c).value.Some? {
        ReadNext(data, p, before, ReadEntry(data, p, c).value.value, ReadEntry(data, p, c).next, c);
      }
    }
  }

  lemma {:induction false} ReadsRows(read: Reader, all: Collector, positions: seq<nat>, rows: seq<Loaded>,
      before: seq<Loaded>, end: nat)
    requires Collects(read, all) && RowsAt(read, positions, rows, end)
    ensures all(positions[0], before) == Got(before + rows, end)
    decreases |rows|
  {
    if rows == [] {
      assert before + rows == before;
    } else {
      ReadsRows(read, all, positions[1..], rows[1..], before + [rows[0]], end);
      assert before + [rows[0]] + rows[1..] == before + rows;
    }
  }

  // --------------------------------------------------------------- whole files

  lemma HeaderParts(m: Bytes, t: Bytes, n: Bytes, o: Bytes, v: Bytes, k: Bytes, rest: Bytes)
    requires |m| == 8 && |t| == 8 && |n| == 8 && |o| == 8 && |v| == 1 && |k| == 16
    ensures var data := (m + t + n + o + v + k) + rest;
      && |data| == 49 + |rest| && data[..8] == m && data[16..24] == n && data[24..32] == o && data[32] == v[0]
      && data[33..49] == k && data[49..] == rest
  {
  }

  /** The checkpoint that a snapshot carries. */
  function Carried(cp: Checkpoint): Checkpoint {
    if cp.valid then cp else Checkpoint(false, 0, seq(TOKEN_SIZE, _ => 0))
  }

  lemma ReadsHeader(time: nat, count: nat, cp: Checkpoint, rest: Bytes)
    requires time < U64 && count < U64 && cp.offset < U64
    ensures ReadHeader(Header(time, count, cp) + rest) == Got((count, Carried(cp)), 49)
    ensures |Header(time, count, cp)| == 49
  {
    var o := if cp.valid then cp.offset else 0;
    HeaderParts(MAGIC, EncodeU64(time), EncodeU64(count), EncodeU64(o), [if cp.valid then 1 else 0],
                if cp.valid then cp.token else seq(TOKEN_SIZE, _ => 0), rest);
    U64RoundTrip(count);
    U64RoundTrip(o);
  }

  lemma {:induction false} ValueBound(bits: seq<bool>)
    ensures Crc64.Value(bits) < Crc64.Pow2(|bits|)
    decreases |bits|
  {
    if bits != [] { ValueBound(bits[..|bits| - 1]); }
  }

  lemma {:induction false} ValueInjective(a: seq<bool>, b: seq<bool>)
    requires |a| == |b| && Crc64.Value(a) == Crc64.Value(b)
    ensures a == b
    decreases |a|
  {
    if a != [] {
      ValueInjective(a[..|a| - 1], b[..|b| - 1]);
      assert a == a[..|a| - 1] + [a[|a| - 1]] && b == b[..|b| - 1] + [b[|b| - 1]];
    }
  }

  lemma ChecksumFits(data: Bytes)
    ensures Crc64.Value(Crc64.Checksum(data)) < U64
  {
    var register := Crc64.Checksum(data);
    ValueBound(register);
    WordPower();
  }

  lemma WordPower()
    ensures Crc64.Pow2(64) == U64
  {
    Crc64.BytePower();
    PowerSum(8, 8);
    PowerSum(16, 16);
    PowerSum(32, 32);
  }

  lemma {:induction false} PowerSum(a: nat, b: nat)
    ensures Crc64.Pow2(a + b) == Crc64.Pow2(a) * Crc64.Pow2(b)
    decreases a
  {
    if a > 0 { PowerSum(a - 1, b); }
  }

  /** A file with a right footer is read as its payload says. */
  lemma FooterMatches(payload: Bytes)
    ensures var file := payload + Footer(payload);
      && |file| == |payload| + 8 && file[..|file| - 8] == payload
      && FromBigEndian(file[|file| - 8..]) == Crc64.Value(Crc64.Checksum(payload))
  {
    ChecksumFits(payload);
    U64RoundTrip(Crc64.Value(Crc64.Checksum(payload)));
    var file := payload + Footer(payload);
    assert file[|file| - 8..] == Footer(payload);
  }

  lemma PayloadReads(rows: seq<Row>, time: nat, cp: Checkpoint, c: Codec)
    requires Good(rows) && Sound(c) && time < U64 && |rows| < U64 && cp.offset < U64
    ensures var data, start := Header(time, |rows|, cp) + EncodeRows(rows, c) + [TYPE_END], 49;
      && ReadHeader(data) == Got((|rows|, Carried(cp)), start) && start <= |data|
      && ReadRows(data, start, [], c) == Got(AllLoaded(rows), |data|)
  {
    var h, body := Header(time, |rows|, cp), EncodeRows(rows, c) + [TYPE_END];
    var data := Header(time, |rows|, cp) + EncodeRows(rows, c) + [TYPE_END];
    assert data == h + body;
    ReadsHeader(time, |rows|, cp, body);
    BodyReads(data, h, rows, c);
  }

  lemma BodyReads(data: Bytes, h: Bytes, rows: seq<Row>, c: Codec)
    requires Good(rows) && Sound(c) && |h| == 49 && data == h + (EncodeRows(rows, c) + [TYPE_END])
    ensures ReadRows(data, 49, [], c) == Got(AllLoaded(rows), |data|)
  {
    BodyPlaced(data, h, EncodeRows(rows, c));
    EntriesUnderstood(data, rows, c);
    var positions := JoinedRows(EntryReader(data, c), RowEncoder(c), data, 49, rows, |data| - 1);
    AllRead(data, positions, AllLoaded(rows), c);
  }

  lemma BodyPlaced(data: Bytes, h: Bytes, body: Bytes)
    requires |h| == 49 && data == h + (body + [TYPE_END])
    ensures Holds(data, 49, body) && |data| == 49 + |body| + 1 && Holds(data, 49 + |body|, [TYPE_END])
  {
    assert Holds(data, 49, body + [TYPE_END]);
    HoldsParts(data, 49, body, [TYPE_END]);
  }

  lemma AllRead(data: Bytes, positions: seq<nat>, rows: seq<Loaded>, c: Codec)
    requires RowsAt(EntryReader(data, c), positions, rows, |data|) && positions[0] <= |data|
    ensures ReadRows(data, positions[0], [], c) == Got(rows, |data|)
  {
    RowsCollected(data, c);
    ReadsRows(EntryReader(data, c), RowsCollector(data, c), positions, rows, [], |data|);
    assert [] + rows == rows;
  }

  lemma {:induction false} LivingIsGood(rows: seq<Row>, time: nat)
    requires Good(rows)
    ensures Good(Living(rows, time)) && |Living(rows, time)| <= |rows|
    decreases |rows|
  {
    if rows != [] { LivingIsGood(rows[1..], time); }
  }

  /**
    A saved snapshot loads: exactly the rows that had not expired when it was
    taken, each with its object and deadline, and its checkpoint.
   */
  lemma LoadSave(rows: seq<Row>, time: nat, cp: Checkpoint, c: Codec)
    requires Good(rows) && Sound(c) && time < U64 && |rows| < U64 && cp.offset < U64
    ensures Load(Save(rows, time, cp, c), c) == Snapshot(AllLoaded(Living(rows, time)), Carried(cp))
  {
    LivingIsGood(rows, time);
    FooterMatches(Payload(rows, time, cp, c));
    PayloadReads(Living(rows, time), time, cp, c);
  }

  /** Damage within eight consecutive bytes of the payload is noticed when the footer is intact. */
  lemma DamageIsNoticed(payload: Bytes, damaged: Bytes, from: nat, c: Codec)
    requires |damaged| == |payload| && damaged != payload && from <= |payload| && payload[..from] == damaged[..from]
    requires from + 8 <= |payload| ==> payload[from + 8..] == damaged[from + 8..]
    ensures Load(damaged + Footer(payload), c) == Damaged
  {
    Crc64.BurstDetected(payload, damaged, from);
    if Crc64.Value(Crc64.Checksum(payload)) == Crc64.Value(Crc64.Checksum(damaged)) {
      ValueInjective(Crc64.Checksum(payload), Crc64.Checksum(damaged));
    }
    ChecksumFits(payload);
    U64RoundTrip(Crc64.Value(Crc64.Checksum(payload)));
    var file := damaged + Footer(payload);
    assert file[..|file| - 8] == damaged && file[|file| - 8..] == Footer(payload);
  }
}
