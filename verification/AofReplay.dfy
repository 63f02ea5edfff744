/**
  Records of the append-only log: their size, their encoding, and the replay
  that stops at a torn tail and cuts it off.
 */
module AofReplay {
  import opened Bytes
  import opened Resp

  const MAX_RECORD_SIZE: nat := MAX_FRAME_SIZE + 1024

  type Record = seq<Bytes>

  /** What the log accepts. */
  predicate Encodable(r: Record) {
    && 0 < |r| <= MAX_ARGUMENTS && |Encode(r)| <= MAX_RECORD_SIZE
    && forall i :: 0 <= i < |r| ==> |r[i]| <= SIZE_MAX
  }

  /** The log that holds these records. */
  function Log(rs: seq<Record>): Bytes {
    if rs == [] then [] else Encode(rs[0]) + Log(rs[1..])
  }

  datatype Replayed = Corrupt | Replayed(records: seq<Record>, position: nat)

  /** Records from a position on; the position where no further whole record begins. */
  function Replay(file: Bytes, position: nat): (r: Replayed)
    requires position <= |file|
    ensures r.Replayed? ==> position <= r.position <= |file|
    decreases |file| - position
  {
    if position == |file| then Replayed([], position)
    else
      match Parse(file[position..], false, MAX_RECORD_SIZE)
      case ParseIncomplete => Replayed([], position)
      case ParseError => Corrupt
      case Complete(arguments, consumed) =>
        Joined([arguments], Replay(file, position + consumed))
  }

  function Joined(records: seq<Record>, r: Replayed): Replayed {
    match r
    case Corrupt => Corrupt
    case Replayed(rest, end) => Replayed(records + rest, end)
  }

  /** The file as the replay leaves it. */
  function Truncated(file: Bytes, r: Replayed): Bytes
    requires r.Replayed? ==> r.position <= |file|
  {
    if r.Replayed? then file[..r.position] else file
  }

  // ---------------------------------------------------------------- torn tail

  /** How many records lie wholly inside the first n bytes of their log. */
  function Whole(rs: seq<Record>, n: nat): nat {
    if rs == [] || |Encode(rs[0])| > n then 0 else 1 + Whole(rs[1..], n - |Encode(rs[0])|)
  }

  lemma {:induction false} WholeBound(rs: seq<Record>, n: nat)
    ensures Whole(rs, n) <= |rs| && |Log(rs[..Whole(rs, n)])| <= n
    decreases |rs|
  {
    var k := Whole(rs, n);
    if k > 0 {
      WholeBound(rs[1..], n - |Encode(rs[0])|);
      assert rs[..k][1..] == rs[1..][..k - 1];
    }
  }

  lemma {:induction false} LogAppend(a: seq<Record>, b: seq<Record>)
    ensures Log(a + b) == Log(a) + Log(b)
    decreases |a|
  {
    if a == [] {
      assert a + b == b;
    } else {
      assert (a + b)[1..] == a[1..] + b;
      LogAppend(a[1..], b);
    }
  }

  /** A proper prefix of an encoded record is incomplete, never an error. */
  lemma TornRecord(r: Record, n: nat)
    requires Encodable(r) && n < |Encode(r)|
    ensures Parse(Encode(r)[..n], false, MAX_RECORD_SIZE) == ParseIncomplete
  {
    var whole := Encode(r);
    RoundTrip(r, [], false, MAX_RECORD_SIZE);
    assert whole + [] == whole && whole[..n] + whole[n..] == whole;
    if !Parse(whole[..n], false, MAX_RECORD_SIZE).ParseIncomplete? {
      PrefixStable(whole[..n], whole[n..], MAX_RECORD_SIZE);
    }
  }

  /** The next record of a log cut off after n bytes. */
  lemma NextRecord(rs: seq<Record>, n: nat)
    requires rs != [] && Encodable(rs[0]) && 0 < n <= |Log(rs)|
    ensures Parse(Log(rs)[..n], false, MAX_RECORD_SIZE) ==
      if |Encode(rs[0])| <= n then Complete(rs[0], |Encode(rs[0])|) else ParseIncomplete
  {
    if |Encode(rs[0])| <= n { NextIsWhole(rs, n); } else { NextIsTorn(rs, n); }
  }

  lemma NextIsWhole(rs: seq<Record>, n: nat)
    requires rs != [] && Encodable(rs[0]) && |Encode(rs[0])| <= n <= |Log(rs)|
    ensures Parse(Log(rs)[..n], false, MAX_RECORD_SIZE) == Complete(rs[0], |Encode(rs[0])|)
  {
    var first := Encode(rs[0]);
    var rest := Log(rs[1..])[..n - |first|];
    TakeFront(first, Log(rs[1..]), n);
    RoundTrip(rs[0], rest, false, MAX_RECORD_SIZE);
  }

  lemma TakeFront(a: Bytes, b: Bytes, n: nat)
    requires |a| <= n <= |a| + |b|
    ensures (a + b)[..n] == a + b[..n - |a|]
  {
  }

  lemma NextIsTorn(rs: seq<Record>, n: nat)
    requires rs != [] && Encodable(rs[0]) && n < |Encode(rs[0])|
    ensures Parse(Log(rs)[..n], false, MAX_RECORD_SIZE) == ParseIncomplete
  {
    assert Log(rs)[..n] == Encode(rs[0])[..n];
    TornRecord(rs[0], n);
  }

  /** The file from a position on is a log cut off after n bytes. */
  ghost predicate Tail(file: Bytes, position: nat, rs: seq<Record>, n: nat) {
    position + n == |file| && n <= |Log(rs)| && file[position..] == Log(rs)[..n]
  }

  ghost predicate Replays(file: Bytes, position: nat, records: seq<Record>, end: nat) {
    position <= |file| && Replay(file, position) == Replayed(records, end)
  }

  lemma TailStep(file: Bytes, position: nat, rs: seq<Record>, n: nat)
    requires Tail(file, position, rs, n) && rs != [] && |Encode(rs[0])| <= n
    ensures Tail(file, position + |Encode(rs[0])|, rs[1..], n - |Encode(rs[0])|)
  {
    assert file[position + |Encode(rs[0])|..] == Log(rs[1..])[..n - |Encode(rs[0])|];
  }

  /** The replay of one record. */
  lemma ReplayFirst(file: Bytes, position: nat, rs: seq<Record>, n: nat, next: nat, records: seq<Record>, end: nat)
    requires Tail(file, position, rs, n) && rs != [] && Encodable(rs[0]) && |Encode(rs[0])| <= n
    requires next == position + |Encode(rs[0])| && Replays(file, next, records, end)
    ensures Replays(file, position, [rs[0]] + records, end)
  {
    RecordNotEmpty(rs[0]);
    NextRecord(rs, n);
    ReplayMore(file, position, rs[0], next);
  }

  /** The replay ends in front of a torn record, or at the end of the file. */
  lemma ReplayStops(file: Bytes, position: nat, rs: seq<Record>, n: nat)
    requires Tail(file, position, rs, n) && (rs == [] || (Encodable(rs[0]) && |Encode(rs[0])| > n))
    ensures Replays(file, position, [], position)
  {
    if n > 0 { NextRecord(rs, n); }
  }

  /** Replay of a file whose tail from `position` on is a torn log. */
  lemma {:induction false} ReplayTail(file: Bytes, position: nat, rs: seq<Record>, n: nat)
    returns (records: seq<Record>, end: nat)
    requires Tail(file, position, rs, n)
    requires forall i :: 0 <= i < |rs| ==> Encodable(rs[i])
    ensures Whole(rs, n) <= |rs| && records == rs[..Whole(rs, n)] && end == position + |Log(records)|
    ensures Replays(file, position, records, end)
    decreases |rs|
  {
    WholeBound(rs, n);
    if rs == [] || |Encode(rs[0])| > n {
      ReplayStops(file, position, rs, n);
      records, end := [], position;
    } else {
      var size := |Encode(rs[0])|;
      TailStep(file, position, rs, n);
      var next, rest := position + size, [];
      rest, end := ReplayTail(file, next, rs[1..], n - size);
      ReplayFirst(file, position, rs, n, next, rest, end);
      WholeStep(rs, n);
      records := [rs[0]] + rest;
    }
  }

  lemma WholeStep(rs: seq<Record>, n: nat)
    requires rs != [] && |Encode(rs[0])| <= n
    ensures var k, j := Whole(rs, n), Whole(rs[1..], n - |Encode(rs[0])|);
      && k == j + 1 <= |rs| && rs[..k] == [rs[0]] + rs[1..][..j]
      && |Log(rs[..k])| == |Encode(rs[0])| + |Log(rs[1..][..j])|
  {
    WholeBound(rs, n);
    var k := Whole(rs, n);
    assert rs[..k][1..] == rs[1..][..k - 1] && rs[..k][0] == rs[0];
  }

  lemma RecordNotEmpty(r: Record)
    ensures |Encode(r)| > 0
  {
  }

  /**
    Torn tail: a log cut off after any number of bytes replays exactly the records
    wholly inside, is never called corrupt, and is cut back to the log of those
    records.
   */
  lemma TornTail(rs: seq<Record>, n: nat)
    requires n <= |Log(rs)| && forall i :: 0 <= i < |rs| ==> Encodable(rs[i])
    ensures var file, k := Log(rs)[..n], Whole(rs, n);
      && k <= |rs| && |Log(rs[..k])| <= n && (k < |rs| ==> n < |Log(rs[..k + 1])|)
      && Replay(file, 0) == Replayed(rs[..k], |Log(rs[..k])|)
      && Truncated(file, Replay(file, 0)) == Log(rs[..k])
  {
    var file, k := Log(rs)[..n], Whole(rs, n);
    assert file[0..] == file;
    var records, end := ReplayTail(file, 0, rs, n);
    WholeBound(rs, n);
    WholeIsMost(rs, n);
    LogPrefix(rs, k, n);
  }

  lemma LogPrefix(rs: seq<Record>, k: nat, n: nat)
    requires k <= |rs| && |Log(rs[..k])| <= n <= |Log(rs)|
    ensures Log(rs)[..n][..|Log(rs[..k])|] == Log(rs[..k])
  {
    LogAppend(rs[..k], rs[k..]);
    assert rs[..k] + rs[k..] == rs;
  }

  lemma {:induction false} WholeIsMost(rs: seq<Record>, n: nat)
    ensures Whole(rs, n) <= |rs| && (Whole(rs, n) < |rs| ==> n < |Log(rs[..Whole(rs, n) + 1])|)
    decreases |rs|
  {
    var k := Whole(rs, n);
    if rs != [] {
      if |Encode(rs[0])| <= n {
        WholeIsMost(rs[1..], n - |Encode(rs[0])|);
        if k < |rs| { assert rs[..k + 1][1..] == rs[1..][..k]; }
      } else {
        assert rs[..1][1..] == [];
      }
    }
  }

  /** After the repair, records appended later make a log again: all of them replay. */
  lemma AppendAfterRepair(rs: seq<Record>, n: nat, more: seq<Record>)
    requires n <= |Log(rs)| && (forall i :: 0 <= i < |rs| ==> Encodable(rs[i]))
    requires forall i :: 0 <= i < |more| ==> Encodable(more[i])
    ensures var file := Log(rs)[..n];
      var repaired := Truncated(file, Replay(file, 0));
      var all := rs[..if Whole(rs, n) <= |rs| then Whole(rs, n) else 0] + more;
      repaired + Log(more) == Log(all) && Replay(repaired + Log(more), 0) == Replayed(all, |Log(all)|)
  {
    TornTail(rs, n);
    var all := rs[..Whole(rs, n)] + more;
    LogAppend(rs[..Whole(rs, n)], more);
    TornTail(all, |Log(all)|);
    assert Log(all)[..|Log(all)|] == Log(all);
    WholeLog(all);
    assert all[..|all|] == all;
  }

  lemma {:induction false} WholeLog(rs: seq<Record>)
    ensures Whole(rs, |Log(rs)|) == |rs|
    decreases |rs|
  {
    if rs != [] { WholeLog(rs[1..]); }
  }

  /** Replay from a record boundary delivers exactly the records after it. */
  lemma ReplayFromBoundary(a: seq<Record>, b: seq<Record>)
    requires forall i :: 0 <= i < |b| ==> Encodable(b[i])
    ensures Log(a + b) == Log(a) + Log(b)
    ensures Replay(Log(a + b), |Log(a)|) == Replayed(b, |Log(a + b)|)
  {
    LogAppend(a, b);
    var file := Log(a + b);
    assert file[|Log(a)|..] == Log(b)[..|Log(b)|];
    assert Tail(file, |Log(a)|, b, |Log(b)|);
    var records, end := ReplayTail(file, |Log(a)|, b, |Log(b)|);
    WholeLog(b);
    assert b[..|b|] == b;
  }

  // -------------------------------------------------------------- the program

  /** The number of decimal digits, by repeated division. */
  method DecimalLength(value: nat) returns (length: nat)
    ensures length == |Decimal(value)|
  {
    length := 1;
    var rest := value;
    while rest >= 10
      invariant length + |Decimal(rest)| == |Decimal(value)| + 1
    {
      rest, length := rest / 10, length + 1;
    }
  }

  /** The size of a record in the log, or None where it is refused. */
  method EncodedSize(r: Record) returns (size: Option<nat>)
    requires forall i :: 0 <= i < |r| ==> |r[i]| <= SIZE_MAX
    ensures size == if Encodable(r) then Some(|Encode(r)|) else None
  {
    if |r| == 0 || |r| > MAX_ARGUMENTS { return None; }
    var digits := DecimalLength(|r|);
    var total: nat := 1 + digits + 2;
    SmallDecimal(|r|);
    var index := 0;
    assert r[0..] == r;
    while index < |r|
      invariant 0 <= index <= |r| && total <= SIZE_MAX
      invariant total + |EncodeArguments(r[index..])| == |Encode(r)|
    {
      digits := DecimalLength(|r[index]|);
      assert r[index..][1..] == r[index + 1..];
      SizeStep(r[index..]);
      if 1 + digits + 2 > SIZE_MAX - total { return None; }
      total := total + (1 + digits + 2);
      if |r[index]| > SIZE_MAX - total { return None; }
      total := total + |r[index]|;
      if 2 > SIZE_MAX - total { return None; }
      total := total + 2;
      index := index + 1;
    }
    if total > MAX_RECORD_SIZE { return None; }
    return Some(total);
  }

  lemma SmallDecimal(n: nat)
    requires n <= MAX_ARGUMENTS
    ensures |Decimal(n)| <= 3
  {
    assert n >= 10 ==> Decimal(n) == Decimal(n / 10) + [ZERO + n % 10];
    assert n >= 100 ==> Decimal(n / 10) == Decimal(n / 10 / 10) + [ZERO + n / 10 % 10];
  }

  lemma SizeStep(rest: seq<Bytes>)
    requires rest != []
    ensures |EncodeArguments(rest)| == 1 + |Decimal(|rest[0]|)| + 2 + |rest[0]| + 2 + |EncodeArguments(rest[1..])|
  {
  }

  function Reversed(s: Bytes): (r: Bytes)
    ensures |r| == |s| && forall i :: 0 <= i < |s| ==> r[i] == s[|s| - 1 - i]
  {
    if s == [] then [] else Reversed(s[1..]) + [s[0]]
  }

  lemma ReversedPush(s: Bytes, b: byte)
    ensures Reversed(s + [b]) == [b] + Reversed(s)
  {
  }

  /** The digits still to come. */
  function Leading(rest: nat): Bytes { if rest == 0 then [] else Decimal(rest) }

  lemma LeadingStep(rest: nat, done: Bytes)
    requires rest != 0
    ensures Leading(rest) + done == Leading(rest / 10) + ([ZERO + rest % 10] + done)
  {
    assert Leading(rest) == Leading(rest / 10) + [ZERO + rest % 10];
  }

  /** The digits of a number, the last one first. */
  method DigitsBackwards(value: nat) returns (reverse: Bytes)
    ensures Reversed(reverse) == Decimal(value)
  {
    reverse := [ZERO + value % 10];
    var rest: nat := value / 10;
    assert Reversed(reverse) == [ZERO + value % 10];
    while rest != 0
      invariant Decimal(value) == Leading(rest) + Reversed(reverse)
      decreases rest
    {
      ReversedPush(reverse, ZERO + rest % 10);
      LeadingStep(rest, Reversed(reverse));
      reverse := reverse + [ZERO + rest % 10];
      rest := rest / 10;
    }
  }

  /** Nothing outside a part of the buffer has changed. */
  twostate predicate OnlyBetween(output: array<byte>, from: nat, to: nat)
    reads output
  {
    forall i :: 0 <= i < output.Length && (i < from || i >= to) ==> output[i] == old(output[i])
  }

  /** Copies bytes into the buffer. */
  method Copy(bytes: Bytes, output: array<byte>, position: nat)
    requires position + |bytes| <= output.Length
    modifies output
    ensures output[position..position + |bytes|] == bytes && OnlyBetween(output, position, position + |bytes|)
  {
    var i := 0;
    while i < |bytes|
      invariant 0 <= i <= |bytes|
      invariant forall k :: 0 <= k < i ==> output[position + k] == bytes[k]
      invariant OnlyBetween(output, position, position + i)
    {
      output[position + i] := bytes[i];
      i := i + 1;
    }
  }

  /** Copies bytes into the buffer from the last to the first. */
  method CopyReversed(reverse: Bytes, output: array<byte>, position: nat)
    requires position + |reverse| <= output.Length
    modifies output
    ensures output[position..position + |reverse|] == Reversed(reverse) &&
        OnlyBetween(output, position, position + |reverse|)
  {
    var index := 0;
    ghost var text := Reversed(reverse);
    while index < |reverse|
      invariant 0 <= index <= |reverse|
      invariant forall k :: 0 <= k < index ==> output[position + k] == text[k]
      invariant OnlyBetween(output, position, position + index)
    {
      output[position + index] := reverse[|reverse| - index - 1];
      index := index + 1;
    }
  }

  /** A prefix, digits in reverse order turned round, and CR LF. */
  method PutLine(prefix: byte, reverse: Bytes, ghost text: Bytes, output: array<byte>, position: nat)
      returns (next: nat)
    requires position + |reverse| + 3 <= output.Length && text == Reversed(reverse)
    modifies output
    ensures next == position + |reverse| + 3
    ensures output[position..next] == [prefix] + text + [CR, LF] && OnlyBetween(output, position, next)
  {
    output[position] := prefix;
    var start := position + 1;
    CopyReversed(reverse, output, start);
    var end := start + |reverse|;
    assert output[position..end] == [output[position]] + output[start..end];
    ghost var done := output[position..end];
    output[end], output[end + 1] := CR, LF;
    next := end + 2;
    assert output[position..end] == done;
    assert output[position..next] == done + [CR, LF];
  }

  /** A prefix, a number and CR LF. */
  method EncodeUnsigned(prefix: byte, value: nat, output: array<byte>, position: nat) returns (next: nat)
    requires position + |EncodeLine(prefix, value)| <= output.Length
    modifies output
    ensures next == position + |EncodeLine(prefix, value)|
    ensures output[position..next] == EncodeLine(prefix, value) && OnlyBetween(output, position, next)
  {
    var reverse := DigitsBackwards(value);
    next := PutLine(prefix, reverse, Decimal(value), output, position);
  }

  lemma ArgumentsFrom(r: Record, index: nat, done: Bytes)
    requires index < |r|
    ensures (done + EncodeArgument(r[index])) + EncodeArguments(r[index + 1..]) == done + EncodeArguments(r[index..])
    ensures |EncodeArguments(r[index..])| == |EncodeArgument(r[index])| + |EncodeArguments(r[index + 1..])|
  {
    assert r[index..][1..] == r[index + 1..];
    assert EncodeArguments(r[index..]) == EncodeArgument(r[index]) + EncodeArguments(r[index + 1..]);
  }

  /** Writes a record whose size was computed before. */
  method EncodeRecord(r: Record, output: array<byte>, base: nat, expected: nat) returns (ok: bool)
    modifies output
    requires base <= output.Length
    ensures ok == (output.Length - base >= expected == |Encode(r)|)
    ensures ok ==> output[base..base + expected] == Encode(r) && OnlyBetween(output, base, base + expected)
  {
    if output.Length - base < expected { return false; }
    if expected != |Encode(r)| { return false; }
    var position := EncodeUnsigned(STAR, |r|, output, base);
    var index := 0;
    assert r[0..] == r && r[..0] == [];
    while index < |r|
      invariant 0 <= index <= |r| && base <= position <= output.Length
      invariant position + |EncodeArguments(r[index..])| == base + |Encode(r)|
      invariant output[base..position] + EncodeArguments(r[index..]) == Encode(r)
      invariant OnlyBetween(output, base, position)
    {
      ArgumentsFrom(r, index, output[base..position]);
      position := EncodeNext(r[index], output, base, position);
      index := index + 1;
    }
    ok := true;
  }

  /** One argument after what was written before. */
  method EncodeNext(a: Bytes, output: array<byte>, base: nat, position: nat) returns (next: nat)
    modifies output
    requires base <= position && position + |EncodeArgument(a)| <= output.Length
    ensures next == position + |EncodeArgument(a)| && OnlyBetween(output, position, next)
    ensures output[base..next] == old(output[base..position]) + EncodeArgument(a)
  {
    next := EncodeOne(a, output, position);
    assert output[base..position] == old(output[base..position]);
    assert output[base..next] == output[base..position] + output[position..next];
  }

  method EncodeOne(a: Bytes, output: array<byte>, position: nat) returns (next: nat)
    requires position + |EncodeArgument(a)| <= output.Length
    modifies output
    ensures next == position + |EncodeArgument(a)|
    ensures output[position..next] == EncodeArgument(a) && OnlyBetween(output, position, next)
  {
    var start := EncodeUnsigned(DOLLAR, |a|, output, position);
    ghost var head := output[position..start];
    Copy(a, output, start);
    assert output[position..start] == head;
    next := start + |a| + 2;
    output[next - 2], output[next - 1] := CR, LF;
    assert output[position..start] == head && output[start..start + |a|] == a;
    assert output[position..next] == head + a + [CR, LF];
  }

  /** The records so far, followed by the replay from here, are the whole replay. */
  ghost predicate Continues(file: Bytes, offset: nat, records: seq<Record>, position: nat) {
    && offset <= |file| && position <= |file|
    && Replay(file, offset) == Joined(records, Replay(file, position))
  }

  lemma ContinueStart(file: Bytes, offset: nat)
    requires offset <= |file|
    ensures Continues(file, offset, [], offset)
  {
    var r := Replay(file, offset);
    if r.Replayed? { assert [] + r.records == r.records; }
  }

  lemma ContinueStop(file: Bytes, offset: nat, records: seq<Record>, position: nat)
    requires Continues(file, offset, records, position) && position < |file|
    requires !Parse(file[position..], false, MAX_RECORD_SIZE).Complete?
    ensures Replay(file, offset) ==
            if Parse(file[position..], false, MAX_RECORD_SIZE).ParseError? then Corrupt else Replayed(records, position)
  {
    assert records + [] == records;
  }

  lemma ContinueStep(file: Bytes, offset: nat, records: seq<Record>, position: nat, arguments: Record, next: nat,
      all: seq<Record>)
    requires Continues(file, offset, records, position) && position < next <= |file| && all == records + [arguments]
    requires Parse(file[position..], false, MAX_RECORD_SIZE) == Complete(arguments, next - position)
    ensures Continues(file, offset, all, next)
  {
    ReplayMore(file, position, arguments, next);
    JoinedTwice(records, arguments, Replay(file, next));
  }

  lemma ReplayMore(file: Bytes, position: nat, arguments: Record, next: nat)
    requires position < next <= |file| &&
        Parse(file[position..], false, MAX_RECORD_SIZE) == Complete(arguments, next - position)
    ensures Replay(file, position) == Joined([arguments], Replay(file, next))
  {
    assert position + (next - position) == next;
  }

  lemma JoinedTwice(records: seq<Record>, r: Record, rest: Replayed)
    ensures Joined(records, Joined([r], rest)) == Joined(records + [r], rest)
  {
    if rest.Replayed? { assert records + ([r] + rest.records) == records + [r] + rest.records; }
  }

  lemma ContinueEnd(file: Bytes, offset: nat, records: seq<Record>)
    requires Continues(file, offset, records, |file|)
    ensures Replay(file, offset) == Replayed(records, |file|)
  {
    assert records + [] == records;
  }

  /** Reads the file from an offset, delivers its records and cuts off a torn tail. */
  method ReplayFrom(file: Bytes, offset: nat) returns (ok: bool, records: seq<Record>, repaired: Bytes)
    ensures ok == (offset <= |file| && Replay(file, offset).Replayed?)
    ensures ok ==> records == Replay(file, offset).records && repaired == Truncated(file, Replay(file, offset))
    ensures !ok ==> repaired == file
  {
    records, repaired := [], file;
    if offset > |file| { return false, [], file; }
    var position := offset;
    ContinueStart(file, offset);
    while position < |file|
      invariant offset <= position <= |file| && Continues(file, offset, records, position)
    {
      var parsed := ParseRequest(file[position..], false, MAX_RECORD_SIZE);
      if !parsed.Complete? {
        ContinueStop(file, offset, records, position);
        if parsed.ParseError? { return false, [], file; }
        return true, records, file[..position];
      }
      var all, next := records + [parsed.arguments], position + parsed.consumed;
      ContinueStep(file, offset, records, position, parsed.arguments, next, all);
      records, position := all, next;
    }
    ContinueEnd(file, offset, records);
    assert file[..|file|] == file;
    ok := true;
  }
}
