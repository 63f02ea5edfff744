/**
  Text that commands, log records and markers share: names that compare without
  case, and decimal numbers.
 */
module Records {
  import opened Bytes
  import opened Resp

  type Record = seq<Bytes>

  const SET: Bytes := [83, 69, 84]
  const DEL: Bytes := [68, 69, 76]
  const PXAT: Bytes := [80, 88, 65, 84]
  const PERSIST: Bytes := [80, 69, 82, 83, 73, 83, 84]
  const PEXPIREAT: Bytes := [80, 69, 88, 80, 73, 82, 69, 65, 84]
  const PING: Bytes := [80, 73, 78, 71]
  const HSET: Bytes := [72, 83, 69, 84]
  const HDEL: Bytes := [72, 68, 69, 76]
  const ZADD: Bytes := [90, 65, 68, 68]
  const ZREM: Bytes := [90, 82, 69, 77]

  function Upper(b: byte): byte { if 97 <= b <= 122 then b - 32 else b }

  predicate NameIs(argument: Bytes, name: Bytes) {
    |argument| == |name| && forall i :: 0 <= i < |name| ==> Upper(argument[i]) == name[i]
  }

  /** The value of decimal digits, read from the left; None beyond 64 bits or at anything else. */
  function Digits(data: Bytes): Option<nat>
    decreases |data|
  {
    if data == [] then Some(0)
    else
      var last := data[|data| - 1];
      match Digits(data[..|data| - 1])
      case None => None
      case Some(value) =>
        if last < ZERO || last > NINE || value > (SIZE_MAX - (last - ZERO)) / 10 then None
        else Some(value * 10 + (last - ZERO))
  }

  function ParseNumber(data: Bytes): Option<nat> { if data == [] then None else Digits(data) }

  /** Numbers written in a record are read back. */
  lemma {:induction false} ParseDecimal(n: nat)
    requires n <= SIZE_MAX
    ensures ParseNumber(Decimal(n)) == Some(n)
    decreases n
  {
    var text := Decimal(n);
    if n < 10 {
      assert text == [ZERO + n] && text[..|text| - 1] == [];
      assert Digits(text[..|text| - 1]) == Some(0);
    } else {
      ParseDecimal(n / 10);
      assert text[..|text| - 1] == Decimal(n / 10) && text[|text| - 1] == ZERO + n % 10;
    }
  }

  /** The loop that reads a number. */
  method ReadNumber(data: Bytes) returns (r: Option<nat>)
    ensures r == ParseNumber(data)
  {
    if data == [] { return None; }
    var value: nat := 0;
    var i := 0;
    while i < |data|
      invariant 0 <= i <= |data| && Digits(data[..i]) == Some(value)
    {
      assert data[..i + 1][..i] == data[..i];
      if data[i] < ZERO || data[i] > NINE || value > (SIZE_MAX - (data[i] - ZERO)) / 10 {
        NoDigits(data, i + 1);
        return None;
      }
      value := value * 10 + (data[i] - ZERO);
      i := i + 1;
    }
    assert data[..|data|] == data;
    r := Some(value);
  }

  lemma {:induction false} NoDigits(data: Bytes, i: nat)
    requires i <= |data| && Digits(data[..i]) == None
    ensures Digits(data) == None
    decreases |data| - i
  {
    if i < |data| {
      assert data[..i + 1][..i] == data[..i];
      NoDigits(data, i + 1);
    } else {
      assert data[..i] == data;
    }
  }

  /** The records of evictions, in the order in which they happen. */
  function DelRecords(keys: seq<Bytes>): seq<Record> {
    if keys == [] then [] else [[DEL, keys[0]]] + DelRecords(keys[1..])
  }
}
