/**
  The snapshot writer, which keeps the checksum of what it has written, and the
  reader, which advances through a file in memory.
 */
module RdbFile {
  import opened Bytes
  import opened Order
  import opened Rdb
  import Crc64
  import Service

  /** Eight bytes, filled from the last one. */
  method EncodeNumber(value: nat) returns (output: Bytes)
    ensures output == EncodeU64(value)
  {
    output := [];
    var rest, index := value, 0;
    while index < WIDTH
      invariant 0 <= index <= WIDTH && rest >= 0
      invariant BigEndian(rest, WIDTH - index) + output == EncodeU64(value)
    {
      BigEndianLast(rest, WIDTH - index, output);
      output := [rest % 256] + output;
      rest := rest / 256;
      index := index + 1;
    }
  }

  lemma BigEndianLast(n: nat, w: nat, output: Bytes)
    requires w > 0
    ensures BigEndian(n, w) + output == BigEndian(n / 256, w - 1) + ([n % 256] + output)
  {
  }

  method DecodeNumber(input: Bytes) returns (value: nat)
    ensures value == FromBigEndian(input)
  {
    value := 0;
    var index := 0;
    while index < |input|
      invariant 0 <= index <= |input| && value == FromBigEndian(input[..index])
    {
      assert input[..index + 1][..index] == input[..index];
      value := value * 256 + input[index];
      index := index + 1;
    }
    assert input[..|input|] == input;
  }

  class Writer {
    var file: Bytes
    var crc: Crc64.Register

    /** The running checksum is that of everything written. */
    ghost predicate Valid()
      reads this
    {
      crc == Crc64.Checksum(file)
    }

    constructor ()
      ensures Valid() && file == []
    {
      file, crc := [], Crc64.Zeros(64);
    }

    method Put(data: Bytes)
      requires Valid()
      modifies this
      ensures Valid() && file == old(file) + data
    {
      Crc64.Incremental(Crc64.Zeros(64), file, data);
      crc := Crc64.Crc64Update(crc, data);
      file := file + data;
    }

    method PutNumber(value: nat)
      requires Valid()
      modifies this
      ensures Valid() && file == old(file) + EncodeU64(value)
    {
      var encoded := EncodeNumber(value);
      Put(encoded);
    }

    method PutBlock(data: Bytes)
      requires Valid()
      modifies this
      ensures Valid() && file == old(file) + Block(data)
    {
      ghost var was := file;
      PutNumber(|data|);
      Put(data);
      Glue(was, EncodeU64(|data|), data);
    }

    method PutPairs(pairs: seq<(Bytes, Bytes)>)
      requires Valid()
      modifies this
      ensures Valid() && file == old(file) + EncodePairs(pairs)
    {
      ghost var was := file;
      var i := 0;
      assert pairs[0..] == pairs;
      while i < |pairs|
        invariant 0 <= i <= |pairs| && Valid() && file + EncodePairs(pairs[i..]) == was + EncodePairs(pairs)
      {
        ghost var before := file;
        assert pairs[i..][1..] == pairs[i + 1..];
        PutBlock(pairs[i].0);
        PutBlock(pairs[i].1);
        GlueThree(before, Block(pairs[i].0), Block(pairs[i].1), EncodePairs(pairs[i + 1..]));
        i := i + 1;
      }
      assert file + [] == file;
    }

    method PutItems(items: seq<(Bytes, Score)>, c: Codec)
      requires Valid()
      modifies this
      ensures Valid() && file == old(file) + EncodeItems(items, c)
    {
      ghost var was := file;
      var i := 0;
      assert items[0..] == items;
      while i < |items|
        invariant 0 <= i <= |items| && Valid() && file + EncodeItems(items[i..], c) == was + EncodeItems(items, c)
      {
        ghost var before := file;
        assert items[i..][1..] == items[i + 1..];
        PutBlock(items[i].0);
        PutNumber(c.bits(items[i].1));
        GlueThree(before, Block(items[i].0), EncodeU64(c.bits(items[i].1)), EncodeItems(items[i + 1..], c));
        i := i + 1;
      }
      assert file + [] == file;
    }

    method PutObject(o: Object, c: Codec)
      requires Valid()
      modifies this
      ensures Valid() && file == old(file) + EncodeObject(o, c)
    {
      ghost var was := file;
      match o
      case Text(text) => PutBlock(text);
      case Fields(pairs) =>
        PutNumber(|pairs|);
        PutPairs(pairs);
        Glue(was, EncodeU64(|pairs|), EncodePairs(pairs));
      case Members(items) =>
        PutNumber(|items|);
        PutItems(items, c);
        Glue(was, EncodeU64(|items|), EncodeItems(items, c));
    }

    method PutRow(r: Row, c: Codec)
      requires Valid()
      modifies this
      ensures Valid() && file == old(file) + EncodeRow(r, c)
    {
      ghost var was := file;
      Put([TypeOf(r.value)]);
      PutNumber(r.deadline);
      PutBlock(r.key);
      PutObject(r.value, c);
      GlueFour(was, [TypeOf(r.value)], EncodeU64(r.deadline), Block(r.key), EncodeObject(r.value, c));
    }

    method PutLiving(r: Row, time: nat, c: Codec)
      requires Valid()
      modifies this
      ensures Valid() && file == old(file) + LivingPart(r, time, c)
    {
      if r.deadline == 0 || r.deadline > time {
        PutRow(r, c);
      } else {
        assert file + [] == file;
      }
    }

    /** Writes the rows that have not expired. */
    method PutRows(rows: seq<Row>, time: nat, c: Codec)
      requires Valid()
      modifies this
      ensures Valid() && file == old(file) + EncodeRows(Living(rows, time), c)
    {
      ghost var was := file;
      var i := 0;
      assert rows[0..] == rows;
      while i < |rows|
        invariant 0 <= i <= |rows| && Valid()
        invariant file + EncodeRows(Living(rows[i..], time), c) == was + EncodeRows(Living(rows, time), c)
      {
        ghost var before := file;
        assert rows[i..][1..] == rows[i + 1..];
        LivingStep(rows[i..], time, c);
        PutLiving(rows[i], time, c);
        Glue(before, LivingPart(rows[i], time, c), EncodeRows(Living(rows[i + 1..], time), c));
        i := i + 1;
      }
      assert file + [] == file;
    }

    method PutHeader(time: nat, count: nat, cp: Checkpoint)
      requires Valid()
      modifies this
      ensures Valid() && file == old(file) + Header(time, count, cp)
    {
      ghost var was := file;
      Put(MAGIC);
      PutNumber(time);
      PutNumber(count);
      PutNumber(if cp.valid then cp.offset else 0);
      Put([if cp.valid then 1 else 0]);
      var token := if cp.valid then cp.token else seq(TOKEN_SIZE, _ => 0);
      Put(token);
      GlueSix(was, MAGIC, EncodeU64(time), EncodeU64(count), EncodeU64(if cp.valid then cp.offset else 0),
              [if cp.valid then 1 else 0], token);
    }

    method WriteAll(rows: seq<Row>, time: nat, cp: Checkpoint, c: Codec)
      requires Valid() && file == []
      modifies this
      ensures file == Save(rows, time, cp, c)
    {
      var count := CountLiving(rows, time);
      PutHeader(time, count, cp);
      PutRows(rows, time, c);
      Put([TYPE_END]);
      assert [] + Header(time, count, cp) == Header(time, count, cp);
      var footer := EncodeNumber(Crc64.Value(crc));
      file := file + footer;
    }
  }

  /** The first visit, which only counts. */
  method CountLiving(rows: seq<Row>, time: nat) returns (count: nat)
    ensures count == |Living(rows, time)|
  {
    count := 0;
    var i := 0;
    assert rows[0..] == rows;
    while i < |rows|
      invariant 0 <= i <= |rows| && count + |Living(rows[i..], time)| == |Living(rows, time)|
    {
      assert rows[i..][1..] == rows[i + 1..];
      if rows[i].deadline == 0 || rows[i].deadline > time { count := count + 1; }
      i := i + 1;
    }
  }

  lemma Glue(a: Bytes, b: Bytes, c: Bytes)
    ensures a + b + c == a + (b + c)
  {
  }

  lemma GlueThree(a: Bytes, b: Bytes, c: Bytes, d: Bytes)
    ensures a + b + c + d == a + (b + c + d)
  {
  }

  lemma GlueFour(a: Bytes, b: Bytes, c: Bytes, d: Bytes, e: Bytes)
    ensures a + b + c + d + e == a + (b + c + d + e)
  {
  }

  lemma GlueSix(a: Bytes, b: Bytes, c: Bytes, d: Bytes, e: Bytes, f: Bytes, g: Bytes)
    ensures a + b + c + d + e + f + g == a + (b + c + d + e + f + g)
  {
  }

  function LivingPart(r: Row, time: nat, c: Codec): Bytes { if Alive(r, time) then EncodeRow(r, c) else [] }

  lemma LivingStep(rows: seq<Row>, time: nat, c: Codec)
    requires rows != []
    ensures EncodeRows(Living(rows, time), c) ==
      LivingPart(rows[0], time, c) + EncodeRows(Living(rows[1..], time), c)
  {
    var rest := Living(rows[1..], time);
    if Alive(rows[0], time) {
      assert ([rows[0]] + rest)[1..] == rest;
    } else {
      assert [] + rest == rest;
    }
  }

  // ------------------------------------------------------------------- reading

  /** What was read, and where the reader stands now, are as specified. */
  ghost predicate Reads<T>(r: Option<T>, position: nat, specified: Read<T>) {
    specified == if r.None? then Fail else Got(r.value, position)
  }

  class Reader {
    const data: Bytes
    var position: nat

    ghost predicate Valid()
      reads this
    {
      position <= |data|
    }

    constructor (data: Bytes)
      ensures Valid() && this.data == data && position == 0
    {
      this.data, position := data, 0;
    }

    method Take(length: nat) returns (r: Option<Bytes>)
      requires Valid()
      modifies this
      ensures Valid() && Reads(r, position, ReadBytes(data, old(position), length))
    {
      if length > |data| - position { return None; }
      r := Some(data[position..position + length]);
      position := position + length;
    }

    method TakeByte() returns (r: Option<byte>)
      requires Valid()
      modifies this
      ensures Valid() && Reads(r, position, ReadU8(data, old(position)))
    {
      var one := Take(1);
      r := if one.None? then None else Some(one.value[0]);
    }

    method TakeNumber() returns (r: Option<nat>)
      requires Valid()
      modifies this
      ensures Valid() && Reads(r, position, ReadU64(data, old(position)))
    {
      var eight := Take(8);
      if eight.None? { return None; }
      var value := DecodeNumber(eight.value);
      r := Some(value);
    }

    method TakeBlock() returns (r: Option<Bytes>)
      requires Valid()
      modifies this
      ensures Valid() && Reads(r, position, ReadBlock(data, old(position)))
    {
      var length := TakeNumber();
      if length.None? { return None; }
      r := Take(length.value);
    }

    method TakePair() returns (r: Option<(Bytes, Bytes)>)
      requires Valid()
      modifies this
      ensures Valid() && Reads(r, position, ReadPair(data, old(position)))
    {
      var field := TakeBlock();
      if field.None? { return None; }
      var value := TakeBlock();
      r := if value.None? then None else Some((field.value, value.value));
    }

    /** The loop over the fields of a hash. */
    method TakePairs(count: nat) returns (r: Option<map<Bytes, Bytes>>)
      requires Valid()
      modifies this
      ensures Valid() && Reads(r, position, ReadPairs(data, old(position), count, map[]))
    {
      var index: nat, h: map<Bytes, Bytes> := 0, map[];
      while index < count
        invariant index <= count && Valid()
        invariant ReadPairs(data, position, count - index, h) == ReadPairs(data, old(position), count, map[])
      {
        var pair := TakePair();
        if pair.None? || pair.value.0 in h { return None; }
        h, index := h[pair.value.0 := pair.value.1], index + 1;
      }
      r := Some(h);
    }

    method TakeItem(c: Codec) returns (r: Option<(Bytes, Score)>)
      requires Valid()
      modifies this
      ensures Valid() && Reads(r, position, ReadItem(data, old(position), c))
    {
      var member := TakeBlock();
      if member.None? { return None; }
      var bits := TakeNumber();
      if bits.None? { return None; }
      var score := c.score(bits.value);
      r := if score.None? then None else Some((member.value, score.value));
    }

    /** The loop over the members of an ordered set. */
    method TakeItems(count: nat, c: Codec) returns (r: Option<map<Bytes, Score>>)
      requires Valid()
      modifies this
      ensures Valid() && Reads(r, position, ReadItems(data, old(position), count, map[], c))
    {
      var index: nat, z: map<Bytes, Score> := 0, map[];
      while index < count
        invariant index <= count && Valid()
        invariant ReadItems(data, position, count - index, z, c) == ReadItems(data, old(position), count, map[], c)
      {
        var item := TakeItem(c);
        if item.None? || item.value.0 in z { return None; }
        z, index := z[item.value.0 := item.value.1], index + 1;
      }
      r := Some(z);
    }

    method TakeObject(kind: byte, c: Codec) returns (r: Option<Service.Value>)
      requires Valid()
      modifies this
      ensures Valid() && Reads(r, position, ReadObject(data, old(position), kind, c))
    {
      var count := TakeNumber();
      if count.None? { return None; }
      if kind == TYPE_STRING {
        var text := Take(count.value);
        r := if text.None? then None else Some(Service.Str(text.value));
      } else if kind == TYPE_HASH {
        var fields := TakePairs(count.value);
        r := if fields.None? then None else Some(Service.Hash(fields.value));
      } else if kind == TYPE_ZSET {
        var scores := TakeItems(count.value, c);
        r := if scores.None? then None else Some(Service.Zset(scores.value));
      } else {
        r := None;
      }
    }

    method TakeRow(kind: byte, c: Codec) returns (r: Option<Loaded>)
      requires Valid()
      modifies this
      ensures Valid() && Reads(r, position, ReadRow(data, old(position), kind, c))
    {
      var deadline := TakeNumber();
      if deadline.None? { return None; }
      var key := TakeBlock();
      if key.None? { return None; }
      var value := TakeObject(kind, c);
      r := if value.None? then None else Some(Loaded(key.value, value.value, deadline.value));
    }

    /** The loop over the rows. */
    method TakeRows(c: Codec) returns (r: Option<seq<Loaded>>)
      requires Valid()
      modifies this
      ensures Valid() && Reads(r, position, ReadRows(data, old(position), [], c))
    {
      var rows: seq<Loaded> := [];
      while true
        invariant Valid() && ReadRows(data, position, rows, c) == ReadRows(data, old(position), [], c)
        decreases |data| - position
      {
        var kind := TakeByte();
        if kind.None? { return None; }
        if kind.value == TYPE_END { return Some(rows); }
        var row := TakeRow(kind.value, c);
        if row.None? { return None; }
        rows := rows + [row.value];
      }
    }

    method TakeHeader() returns (r: Option<(nat, Checkpoint)>)
      requires Valid() && position == 0
      modifies this
      ensures Valid() && Reads(r, position, ReadHeader(data))
    {
      var magic := Take(|MAGIC|);
      if magic.None? || magic.value != MAGIC { return None; }
      var time := TakeNumber();
      if time.None? { return None; }
      var count := TakeNumber();
      if count.None? { return None; }
      var offset := TakeNumber();
      if offset.None? { return None; }
      var valid := TakeByte();
      if valid.None? || valid.value > 1 { return None; }
      var token := Take(TOKEN_SIZE);
      if token.None? { return None; }
      r := Some((count.value, Checkpoint(valid.value == 1, offset.value, token.value)));
    }
  }

  /** The whole loader: checksum, header, rows, their number and the end. */
  method LoadFile(file: Bytes, c: Codec) returns (r: Snapshot)
    ensures r == Load(file, c)
  {
    if |file| < SMALLEST { return Damaged; }
    var data := file[..|file| - 8];
    var stored := DecodeNumber(file[|file| - 8..]);
    var crc := Crc64.Crc64Update(Crc64.Zeros(64), data);
    if stored != Crc64.Value(crc) { return Damaged; }
    var reader := new Reader(data);
    var header := reader.TakeHeader();
    if header.None? { return Damaged; }
    var rows := reader.TakeRows(c);
    if rows.None? || reader.position != |data| || |rows.value| != header.value.0 { return Damaged; }
    r := Snapshot(rows.value, header.value.1);
  }
}
