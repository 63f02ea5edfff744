/**
  RESP2 requests: the parser of client requests and log records, the encoder of
  log records, and what ties the two together.
 */
module Resp {
  import opened Bytes

  const MAX_ARGUMENTS: nat := 128
  const MAX_FRAME_SIZE: nat := 64 * 1024

  const STAR: byte := 42
  const DOLLAR: byte := 36
  const ZERO: byte := 48
  const NINE: byte := 57
  const CR: byte := 13
  const LF: byte := 10

  // ------------------------------------------------------------------- parser

  datatype Scanned = Bad | Stop(cursor: nat, parsed: nat, digits: nat)

  /** Digits up to a carriage return or the end of the data. */
  function Scan(data: Bytes, cursor: nat, parsed: nat, digits: nat, max: nat): (r: Scanned)
    requires cursor <= |data|
    ensures r.Stop? ==>
      && cursor <= r.cursor <= |data| && r.digits == digits + (r.cursor - cursor)
      && (r.cursor < |data| ==> data[r.cursor] == CR)
    decreases |data| - cursor
  {
    if cursor == |data| || data[cursor] == CR then Stop(cursor, parsed, digits)
    else if data[cursor] < ZERO || data[cursor] > NINE then Bad
    else
      var digit := data[cursor] - ZERO;
      if parsed > (SIZE_MAX - digit) / 10 || cursor + 1 > max then Bad
      else Scan(data, cursor + 1, parsed * 10 + digit, digits + 1, max)
  }

  datatype Line = LineError | LineIncomplete | LineDone(position: nat, value: nat)

  /** Data that ends too early: an error once the frame is as large as allowed, or at end of stream. */
  function ShortLine(length: nat, eos: bool, max: nat): Line {
    if eos || length >= max then LineError else LineIncomplete
  }

  /** A decimal number that a CR LF ends. */
  function ParseLine(data: Bytes, position: nat, eos: bool, max: nat): (r: Line)
    requires position <= |data|
    ensures r.LineDone? ==> position + 3 <= r.position <= |data|
  {
    match Scan(data, position, 0, 0, max)
    case Bad => LineError
    case Stop(cursor, parsed, digits) =>
      if cursor >= |data| then ShortLine(|data|, eos, max)
      else if digits == 0 then LineError
      else if cursor + 1 >= |data| then ShortLine(|data|, eos, max)
      else if data[cursor + 1] != LF then LineError
      else LineDone(cursor + 2, parsed)
  }

  datatype Parsed = ParseError | ParseIncomplete | Complete(arguments: seq<Bytes>, consumed: nat)

  datatype One = OneError | OneIncomplete | OneDone(argument: Bytes, next: nat)

  function Short(length: nat, eos: bool, max: nat): One {
    if eos || length >= max then OneError else OneIncomplete
  }

  /** One argument: its length, its bytes, CR LF. */
  function ParseOne(data: Bytes, position: nat, eos: bool, max: nat): (r: One)
    requires position <= |data|
    ensures r.OneDone? ==> position < r.next <= |data| && r.next <= max
  {
    if position >= |data| then Short(|data|, eos, max)
    else if data[position] != DOLLAR then OneError
    else
      match ParseLine(data, position + 1, eos, max)
      case LineError => OneError
      case LineIncomplete => OneIncomplete
      case LineDone(start, length) =>
        if length > max || start > max - length then OneError
        else if |data| - start < length then Short(|data|, eos, max)
        else
          var end := start + length;
          if end + 2 > |data| then Short(|data|, eos, max)
          else if end + 2 > max || data[end] != CR || data[end + 1] != LF then OneError
          else OneDone(data[start..end], end + 2)
  }

  /** The arguments still to come, `left` of them. */
  function ParseArguments(data: Bytes, position: nat, left: nat, arguments: seq<Bytes>, eos: bool,
      max: nat): (r: Parsed)
    requires position <= |data|
    ensures r.Complete? ==> position <= r.consumed <= |data| && |r.arguments| == |arguments| + left
    decreases left
  {
    if left == 0 then Complete(arguments, position)
    else
      match ParseOne(data, position, eos, max)
      case OneError => ParseError
      case OneIncomplete => ParseIncomplete
      case OneDone(argument, next) => ParseArguments(data, next, left - 1, arguments + [argument], eos, max)
  }

  /** One request from the front of the data. */
  function Parse(data: Bytes, eos: bool, max: nat): (r: Parsed)
    ensures r.Complete? ==> 0 < r.consumed <= |data| && 0 < |r.arguments| <= MAX_ARGUMENTS
  {
    if max == 0 then ParseError
    else if data == [] then (if eos then ParseError else ParseIncomplete)
    else if data[0] != STAR then ParseError
    else
      match ParseLine(data, 1, eos, max)
      case LineError => ParseError
      case LineIncomplete => ParseIncomplete
      case LineDone(position, count) =>
        if count == 0 || count > MAX_ARGUMENTS then ParseError
        else ParseArguments(data, position, count, [], eos, max)
  }

  // ---------------------------------------------------- answers never change

  lemma {:induction false} ScanStable(data: Bytes, more: Bytes, cursor: nat, parsed: nat, digits: nat, max: nat)
    requires cursor <= |data|
    ensures var r, r' := Scan(data, cursor, parsed, digits, max), Scan(data + more, cursor, parsed, digits, max);
      && (r.Bad? ==> r'.Bad?)
      && (r.Stop? && r.cursor < |data| ==> r' == r)
      && (r.Stop? && r.cursor == |data| && r'.Stop? ==> r'.cursor >= |data|)
    decreases |data| - cursor
  {
    if cursor < |data| {
      assert (data + more)[cursor] == data[cursor];
      if data[cursor] != CR && ZERO <= data[cursor] <= NINE {
        var digit := data[cursor] - ZERO;
        if !(parsed > (SIZE_MAX - digit) / 10 || cursor + 1 > max) {
          ScanStable(data, more, cursor + 1, parsed * 10 + digit, digits + 1, max);
        }
      }
    }
  }

  /** An error on a line stays one, or shows as a line that ends beyond the frame limit. */
  lemma LineStable(data: Bytes, more: Bytes, position: nat, max: nat)
    requires position <= |data|
    ensures var r, r' := ParseLine(data, position, false, max), ParseLine(data + more, position, false, max);
      && (r.LineDone? ==> r' == r)
      && (r.LineError? ==> r'.LineError? || (r'.LineDone? && r'.position > max && |data| >= max))
  {
    ScanStable(data, more, position, 0, 0, max);
    var r := Scan(data, position, 0, 0, max);
    if r.Stop? && r.cursor + 1 < |data| {
      assert (data + more)[r.cursor + 1] == data[r.cursor + 1];
    }
  }

  /** An argument cannot begin at the frame limit. */
  lemma OneAtLimit(data: Bytes, position: nat, max: nat)
    requires max <= position <= |data|
    ensures ParseOne(data, position, false, max) == OneError
  {
    if position < |data| && data[position] == DOLLAR && position + 1 < |data| {
      var b := data[position + 1];
      if ZERO <= b <= NINE {
        assert Scan(data, position + 1, 0, 0, max).Bad?;
      }
    }
  }

  lemma OneStable(data: Bytes, more: Bytes, position: nat, max: nat)
    requires position <= |data|
    ensures var r := ParseOne(data, position, false, max);
      !r.OneIncomplete? ==> ParseOne(data + more, position, false, max) == r
  {
    var all := data + more;
    if position >= |data| {
      if |data| >= max { OneAtLimit(all, position, max); }
    } else {
      assert all[position] == data[position];
      if data[position] == DOLLAR {
        LineStable(data, more, position + 1, max);
        var r := ParseLine(data, position + 1, false, max);
        if r.LineDone? && r.value <= |data| - r.position && r.position + r.value + 2 <= |data| {
          var end := r.position + r.value;
          assert all[end] == data[end] && all[end + 1] == data[end + 1] &&
              all[r.position..end] == data[r.position..end];
        }
      }
    }
  }

  lemma {:induction false} ArgumentsStable(data: Bytes, more: Bytes, position: nat, left: nat, arguments: seq<Bytes>,
      max: nat)
    requires position <= |data|
    ensures var r := ParseArguments(data, position, left, arguments, false, max);
      !r.ParseIncomplete? ==> ParseArguments(data + more, position, left, arguments, false, max) == r
    decreases left
  {
    if left > 0 {
      OneStable(data, more, position, max);
      var r := ParseOne(data, position, false, max);
      if r.OneDone? {
        ParseNext(data, position, left, arguments, r.argument, r.next, false, max);
        ParseNext(data + more, position, left, arguments, r.argument, r.next, false, max);
        ArgumentsStable(data, more, r.next, left - 1, arguments + [r.argument], max);
      }
    }
  }

  /**
    Before the end of the stream a complete request or an error, the frame
    limit's included, is the answer on every extension of the data.
   */
  lemma PrefixStable(data: Bytes, more: Bytes, max: nat)
    requires !Parse(data, false, max).ParseIncomplete?
    ensures Parse(data + more, false, max) == Parse(data, false, max)
  {
    var all := data + more;
    if max > 0 && data != [] && data[0] == STAR {
      assert all[0] == data[0];
      LineStable(data, more, 1, max);
      match ParseLine(data, 1, false, max)
      case LineIncomplete =>
      case LineError =>
        var r := ParseLine(all, 1, false, max);
        if r.LineDone? && 0 < r.value <= MAX_ARGUMENTS { OneAtLimit(all, r.position, max); }
      case LineDone(position, count) =>
        if 0 < count <= MAX_ARGUMENTS { ArgumentsStable(data, more, position, count, [], max); }
    } else if max > 0 && data != [] {
      assert all[0] == data[0];
    }
  }

  // ------------------------------------------------------------------ encoder

  function Decimal(n: nat): (r: Bytes)
    ensures |r| > 0 && forall i :: 0 <= i < |r| ==> ZERO <= r[i] <= NINE
  {
    if n < 10 then [ZERO + n] else Decimal(n / 10) + [ZERO + n % 10]
  }

  function EncodeLine(prefix: byte, n: nat): Bytes { [prefix] + Decimal(n) + [CR, LF] }

  function EncodeArgument(a: Bytes): Bytes { EncodeLine(DOLLAR, |a|) + a + [CR, LF] }

  function EncodeArguments(arguments: seq<Bytes>): Bytes {
    if arguments == [] then [] else EncodeArgument(arguments[0]) + EncodeArguments(arguments[1..])
  }

  function Encode(arguments: seq<Bytes>): Bytes { EncodeLine(STAR, |arguments|) + EncodeArguments(arguments) }

  /** The data continues with these bytes at this position. */
  predicate Holds(data: Bytes, position: nat, bytes: Bytes) {
    position + |bytes| <= |data| && data[position..position + |bytes|] == bytes
  }

  lemma HoldsParts(data: Bytes, position: nat, a: Bytes, b: Bytes)
    requires Holds(data, position, a + b)
    ensures Holds(data, position, a) && Holds(data, position + |a|, b)
  {
    var all := data[position..position + |a + b|];
    assert a == all[..|a|] && b == all[|a|..];
  }

  lemma HoldsAt(data: Bytes, position: nat, bytes: Bytes, i: nat)
    requires Holds(data, position, bytes) && i < |bytes|
    ensures position + i < |data| && data[position + i] == bytes[i]
  {
    assert data[position..position + |bytes|][i] == bytes[i];
  }

  /** Reading a number's digits from the left gives the number back. */
  lemma {:induction false} ScanDecimal(data: Bytes, cursor: nat, n: nat, max: nat)
    requires Holds(data, cursor, Decimal(n)) && n <= SIZE_MAX && cursor + |Decimal(n)| <= max
    ensures Scan(data, cursor, 0, 0, max) == Scan(data, cursor + |Decimal(n)|, n, |Decimal(n)|, max)
    decreases n
  {
    if n < 10 {
      HoldsAt(data, cursor, Decimal(n), 0);
      ScanDigit(data, cursor, 0, 0, n, max);
    } else {
      var tens, digit := n / 10, n % 10;
      var last := cursor + |Decimal(tens)|;
      HoldsParts(data, cursor, Decimal(tens), [ZERO + digit]);
      HoldsAt(data, last, [ZERO + digit], 0);
      ScanDecimal(data, cursor, tens, max);
      ScanDigit(data, last, tens, |Decimal(tens)|, digit, max);
    }
  }

  lemma ScanDigit(data: Bytes, cursor: nat, parsed: nat, digits: nat, digit: nat, max: nat)
    requires cursor < |data| && digit < 10 && data[cursor] == ZERO + digit && parsed * 10 + digit <= SIZE_MAX &&
        cursor + 1 <= max
    ensures Scan(data, cursor, parsed, digits, max) == Scan(data, cursor + 1, parsed * 10 + digit, digits + 1, max)
  {
  }

  /** A number too long for the frame limit is an error. */
  lemma {:induction false} ScanTooLong(data: Bytes, cursor: nat, n: nat, max: nat)
    requires Holds(data, cursor, Decimal(n)) && cursor + |Decimal(n)| > max
    ensures Scan(data, cursor, 0, 0, max).Bad? || n > SIZE_MAX
    decreases n
  {
    if n < 10 {
      HoldsAt(data, cursor, Decimal(n), 0);
    } else {
      HoldsParts(data, cursor, Decimal(n / 10), [ZERO + n % 10]);
      HoldsAt(data, cursor, Decimal(n), |Decimal(n)| - 1);
      if cursor + |Decimal(n / 10)| > max {
        ScanTooLong(data, cursor, n / 10, max);
      } else if n <= SIZE_MAX {
        ScanDecimal(data, cursor, n / 10, max);
      }
    }
  }

  /** An encoded line reads back as its number, unless it passes the frame limit by more than its CR LF. */
  lemma LineRoundTrip(data: Bytes, position: nat, n: nat, eos: bool, max: nat)
    requires Holds(data, position, Decimal(n) + [CR, LF]) && n <= SIZE_MAX
    ensures ParseLine(data, position, eos, max) ==
      if position + |Decimal(n)| <= max then LineDone(position + |Decimal(n)| + 2, n) else LineError
  {
    HoldsParts(data, position, Decimal(n), [CR, LF]);
    HoldsAt(data, position + |Decimal(n)|, [CR, LF], 0);
    HoldsAt(data, position + |Decimal(n)|, [CR, LF], 1);
    if position + |Decimal(n)| <= max {
      ScanDecimal(data, position, n, max);
    } else {
      ScanTooLong(data, position, n, max);
    }
  }

  /** Where the parts of an encoded argument lie. */
  lemma ArgumentLayout(data: Bytes, position: nat, a: Bytes) returns (start: nat)
    requires Holds(data, position, EncodeArgument(a))
    ensures start == position + 1 + |Decimal(|a|)| + 2 && position + |EncodeArgument(a)| == start + |a| + 2
    ensures position < |data| && data[position] == DOLLAR
    ensures Holds(data, position + 1, Decimal(|a|) + [CR, LF]) && Holds(data, start, a + [CR, LF])
  {
    var head, body := Decimal(|a|) + [CR, LF], a + [CR, LF];
    assert EncodeArgument(a) == [DOLLAR] + (head + body);
    HoldsParts(data, position, [DOLLAR], head + body);
    HoldsAt(data, position, [DOLLAR], 0);
    HoldsParts(data, position + 1, head, body);
    start := position + 1 + |head|;
  }

  /** What is made of an argument, given its length line and its bytes. */
  lemma AssembleOne(data: Bytes, position: nat, a: Bytes, start: nat, eos: bool, max: nat)
    requires position < |data| && data[position] == DOLLAR && 2 <= start && start + |a| + 2 <= |data|
    requires ParseLine(data, position + 1, eos, max) == if start - 2 <= max then LineDone(start, |a|) else LineError
    requires data[start..start + |a|] == a && data[start + |a|] == CR && data[start + |a| + 1] == LF
    ensures ParseOne(data, position, eos, max) == if start + |a| + 2 <= max then OneDone(a, start + |a| + 2)
        else OneError
  {
  }

  /** One encoded argument. */
  lemma OneRoundTrip(data: Bytes, position: nat, a: Bytes, eos: bool, max: nat) returns (next: nat)
    requires Holds(data, position, EncodeArgument(a)) && |a| <= SIZE_MAX
    ensures next == position + |EncodeArgument(a)| && position <= |data|
    ensures ParseOne(data, position, eos, max) == if next <= max then OneDone(a, next) else OneError
  {
    var start := ArgumentLayout(data, position, a);
    LineRoundTrip(data, position + 1, |a|, eos, max);
    BodyRoundTrip(data, start, a);
    AssembleOne(data, position, a, start, eos, max);
    next := start + |a| + 2;
  }

  lemma BodyRoundTrip(data: Bytes, start: nat, a: Bytes)
    requires Holds(data, start, a + [CR, LF])
    ensures start + |a| + 2 <= |data| && data[start..start + |a|] == a && data[start + |a|] == CR &&
        data[start + |a| + 1] == LF
  {
    HoldsParts(data, start, a, [CR, LF]);
    HoldsAt(data, start + |a|, [CR, LF], 0);
    HoldsAt(data, start + |a|, [CR, LF], 1);
  }

  lemma FirstRoundTrip(data: Bytes, position: nat, rest: seq<Bytes>, eos: bool, max: nat) returns (next: nat)
    requires rest != [] && Holds(data, position, EncodeArguments(rest)) && |rest[0]| <= SIZE_MAX
    ensures next + |EncodeArguments(rest[1..])| == position + |EncodeArguments(rest)|
    ensures Holds(data, next, EncodeArguments(rest[1..])) && position <= |data|
    ensures ParseOne(data, position, eos, max) == if next <= max then OneDone(rest[0], next) else OneError
  {
    var first, tail := rest[0], EncodeArguments(rest[1..]);
    assert EncodeArguments(rest) == EncodeArgument(first) + tail;
    HoldsParts(data, position, EncodeArgument(first), tail);
    next := OneRoundTrip(data, position, first, eos, max);
  }

  /** The data at this position reads as these arguments, up to `end`. */
  ghost predicate Reads(data: Bytes, position: nat, rest: seq<Bytes>, end: nat, eos: bool, max: nat)
    requires position <= |data|
    decreases |rest|
  {
    if rest == [] then end == position
    else
      var r := ParseOne(data, position, eos, max);
      r.OneDone? && r.argument == rest[0] && Reads(data, r.next, rest[1..], end, eos, max)
  }

  lemma {:induction false} ReadsParse(data: Bytes, position: nat, rest: seq<Bytes>, end: nat, arguments: seq<Bytes>,
      eos: bool, max: nat)
    requires position <= |data| && Reads(data, position, rest, end, eos, max)
    ensures ParseArguments(data, position, |rest|, arguments, eos, max) == Complete(arguments + rest, end)
    decreases |rest|
  {
    if rest == [] {
      assert arguments + rest == arguments;
    } else {
      var next := ParseOne(data, position, eos, max).next;
      ParseNext(data, position, |rest|, arguments, rest[0], next, eos, max);
      ReadsParse(data, next, rest[1..], end, arguments + [rest[0]], eos, max);
      assert arguments + [rest[0]] + rest[1..] == arguments + rest;
    }
  }

  lemma ParseStops(data: Bytes, position: nat, left: nat, arguments: seq<Bytes>, eos: bool, max: nat)
    requires position <= |data| && left > 0 && !ParseOne(data, position, eos, max).OneDone?
    ensures ParseArguments(data, position, left, arguments, eos, max)
            == if ParseOne(data, position, eos, max).OneError? then ParseError else ParseIncomplete
  {
  }

  lemma ParseNext(data: Bytes, position: nat, left: nat, arguments: seq<Bytes>, argument: Bytes, next: nat,
      eos: bool, max: nat)
    requires position <= |data| && left > 0 && ParseOne(data, position, eos, max) == OneDone(argument, next)
    ensures next <= |data|
    ensures ParseArguments(data, position, left, arguments, eos, max)
            == ParseArguments(data, next, left - 1, arguments + [argument], eos, max)
  {
  }

  lemma {:induction false} EncodedReads(data: Bytes, position: nat, rest: seq<Bytes>, end: nat, eos: bool, max: nat)
    requires Holds(data, position, EncodeArguments(rest)) && forall i :: 0 <= i < |rest| ==> |rest[i]| <= SIZE_MAX
    requires end == position + |EncodeArguments(rest)| <= max
    ensures Reads(data, position, rest, end, eos, max)
    decreases |rest|
  {
    if rest != [] {
      var next := FirstRoundTrip(data, position, rest, eos, max);
      EncodedReads(data, next, rest[1..], end, eos, max);
    }
  }

  /** One of the next arguments is refused. */
  ghost predicate Refuses(data: Bytes, position: nat, left: nat, eos: bool, max: nat)
    requires position <= |data|
    decreases left
  {
    && left > 0
    && var r := ParseOne(data, position, eos, max);
       r.OneError? || (r.OneDone? && Refuses(data, r.next, left - 1, eos, max))
  }

  lemma {:induction false} RefusesParse(data: Bytes, position: nat, left: nat, arguments: seq<Bytes>, eos: bool,
      max: nat)
    requires position <= |data| && Refuses(data, position, left, eos, max)
    ensures ParseArguments(data, position, left, arguments, eos, max) == ParseError
    decreases left
  {
    var r := ParseOne(data, position, eos, max);
    if r.OneDone? { RefusesParse(data, r.next, left - 1, arguments + [r.argument], eos, max); }
  }

  lemma {:induction false} EncodedRefuses(data: Bytes, position: nat, rest: seq<Bytes>, eos: bool, max: nat)
    requires Holds(data, position, EncodeArguments(rest)) && forall i :: 0 <= i < |rest| ==> |rest[i]| <= SIZE_MAX
    requires rest != [] && position + |EncodeArguments(rest)| > max
    ensures Refuses(data, position, |rest|, eos, max)
    decreases |rest|
  {
    var next := FirstRoundTrip(data, position, rest, eos, max);
    if next <= max { EncodedRefuses(data, next, rest[1..], eos, max); }
  }

  /** Where the parts of an encoded request lie. */
  lemma EncodedLayout(arguments: seq<Bytes>, rest: Bytes)
    ensures var data, head := Encode(arguments) + rest, Decimal(|arguments|) + [CR, LF];
      && data != [] && data[0] == STAR && Holds(data, 1, head) && Holds(data, 1 + |head|, EncodeArguments(arguments))
      && 1 + |head| + |EncodeArguments(arguments)| == |Encode(arguments)|
  {
    var head := Decimal(|arguments|) + [CR, LF];
    assert Encode(arguments) == [STAR] + (head + EncodeArguments(arguments));
    LayoutOf(Encode(arguments), head, EncodeArguments(arguments), rest);
  }

  lemma LayoutOf(whole: Bytes, head: Bytes, body: Bytes, rest: Bytes)
    requires whole == [STAR] + (head + body)
    ensures var data := whole + rest;
      data != [] && data[0] == STAR && Holds(data, 1, head) && Holds(data, 1 + |head|, body) &&
          1 + |head| + |body| == |whole|
  {
  }

  ghost predicate ReadsUpTo(data: Bytes, start: nat, arguments: seq<Bytes>, end: nat, eos: bool, max: nat) {
    && start <= |data|
    && if end <= max then start <= end && Reads(data, start, arguments, end, eos, max)
       else Refuses(data, start, |arguments|, eos, max)
  }

  lemma ReadsOrRefuses(data: Bytes, start: nat, arguments: seq<Bytes>, end: nat, eos: bool, max: nat)
    requires Holds(data, start, EncodeArguments(arguments)) && arguments != [] &&
        end == start + |EncodeArguments(arguments)|
    requires forall i :: 0 <= i < |arguments| ==> |arguments[i]| <= SIZE_MAX
    ensures ReadsUpTo(data, start, arguments, end, eos, max)
  {
    if end <= max {
      EncodedReads(data, start, arguments, end, eos, max);
    } else {
      EncodedRefuses(data, start, arguments, eos, max);
    }
  }

  lemma Assemble(data: Bytes, start: nat, arguments: seq<Bytes>, end: nat, eos: bool, max: nat)
    requires max > 0 && 0 < |arguments| <= MAX_ARGUMENTS && start <= |data| && data != [] && data[0] == STAR
    requires ParseLine(data, 1, eos, max) == (if start - 2 <= max then LineDone(start, |arguments|) else LineError)
    requires ReadsUpTo(data, start, arguments, end, eos, max)
    ensures Parse(data, eos, max) == if end <= max then Complete(arguments, end) else ParseError
  {
    if end <= max {
      ReadsParse(data, start, arguments, end, [], eos, max);
      assert [] + arguments == arguments;
    } else {
      RefusesParse(data, start, |arguments|, [], eos, max);
    }
  }

  lemma ParseEncoded(data: Bytes, arguments: seq<Bytes>, start: nat, end: nat, eos: bool, max: nat)
    requires max > 0 && 0 < |arguments| <= MAX_ARGUMENTS && forall i :: 0 <= i < |arguments| ==>
        |arguments[i]| <= SIZE_MAX
    requires data != [] && data[0] == STAR && Holds(data, 1, Decimal(|arguments|) + [CR, LF])
    requires start == 1 + |Decimal(|arguments|)| + 2 && Holds(data, start, EncodeArguments(arguments))
    requires end == start + |EncodeArguments(arguments)|
    ensures Parse(data, eos, max) == if end <= max then Complete(arguments, end) else ParseError
  {
    LineRoundTrip(data, 1, |arguments|, eos, max);
    ReadsOrRefuses(data, start, arguments, end, eos, max);
    Assemble(data, start, arguments, end, eos, max);
  }

  /**
    Round trip: an encoded request followed by anything parses to itself and its
    exact length when it fits the frame limit, and to an error when it does not.
   */
  lemma RoundTrip(arguments: seq<Bytes>, rest: Bytes, eos: bool, max: nat)
    requires 0 < |arguments| <= MAX_ARGUMENTS && forall i :: 0 <= i < |arguments| ==> |arguments[i]| <= SIZE_MAX
    ensures Parse(Encode(arguments) + rest, eos, max) ==
      if |Encode(arguments)| <= max then Complete(arguments, |Encode(arguments)|) else ParseError
  {
    if max > 0 {
      EncodedLayout(arguments, rest);
      ParseEncoded(Encode(arguments) + rest, arguments, 1 + |Decimal(|arguments|)| + 2, |Encode(arguments)|, eos, max);
    }
  }

  // -------------------------------------------------------------- connections

  /** A connection: bytes received and not consumed, commands taken from them, closed after an error. */
  datatype Connection = Connection(buffer: Bytes, commands: seq<seq<Bytes>>, closed: bool)

  /** Takes commands from the front of the buffer as long as there are any. */
  function Drain(c: Connection): Connection
    decreases |c.buffer|
  {
    match Parse(c.buffer, false, MAX_FRAME_SIZE)
    case ParseIncomplete => c
    case ParseError => Connection([], c.commands, true)
    case Complete(arguments, consumed) =>
      Drain(Connection(c.buffer[consumed..], c.commands + [arguments], c.closed))
  }

  function Receive(c: Connection, piece: Bytes): Connection {
    if c.closed then c else Drain(c.(buffer := c.buffer + piece))
  }

  function ReceiveAll(c: Connection, pieces: seq<Bytes>): Connection
    decreases |pieces|
  {
    if pieces == [] then c else ReceiveAll(Receive(c, pieces[0]), pieces[1..])
  }

  function Joined(pieces: seq<Bytes>): Bytes {
    if pieces == [] then [] else pieces[0] + Joined(pieces[1..])
  }

  /** Bytes that arrive after the commands were taken are as good as bytes that were there before. */
  lemma {:induction false} DrainThen(c: Connection, more: Bytes)
    requires !c.closed
    ensures var d := Drain(c); Receive(d, more) == Drain(c.(buffer := c.buffer + more))
    decreases |c.buffer|
  {
    var r := Parse(c.buffer, false, MAX_FRAME_SIZE);
    if !r.ParseIncomplete? {
      PrefixStable(c.buffer, more, MAX_FRAME_SIZE);
      if r.Complete? {
        var all := c.(buffer := c.buffer + more);
        var next := Connection(c.buffer[r.consumed..], c.commands + [r.arguments], c.closed);
        assert (c.buffer + more)[r.consumed..] == c.buffer[r.consumed..] + more;
        DrainOne(c, r.arguments, r.consumed, next);
        DrainOne(all, r.arguments, r.consumed, next.(buffer := next.buffer + more));
        DrainThen(next, more);
      }
    }
  }

  lemma DrainOne(c: Connection, arguments: seq<Bytes>, consumed: nat, next: Connection)
    requires Parse(c.buffer, false, MAX_FRAME_SIZE) == Complete(arguments, consumed)
    requires next == Connection(c.buffer[consumed..], c.commands + [arguments], c.closed)
    ensures Drain(c) == Drain(next)
  {
  }

  lemma ReceiveTwice(c: Connection, a: Bytes, b: Bytes)
    ensures Receive(Receive(c, a), b) == Receive(c, a + b)
  {
    if !c.closed {
      DrainThen(c.(buffer := c.buffer + a), b);
      assert c.buffer + a + b == c.buffer + (a + b);
    }
  }

  /** However the bytes are cut into pieces, the commands are the same. */
  lemma {:induction false} ChunkIndependence(c: Connection, pieces: seq<Bytes>)
    requires pieces != []
    ensures ReceiveAll(c, pieces) == Receive(c, Joined(pieces))
    decreases |pieces|
  {
    var rest := pieces[1..];
    if rest == [] {
      assert pieces[0] + [] == pieces[0];
    } else {
      ChunkIndependence(Receive(c, pieces[0]), rest);
      ReceiveTwice(c, pieces[0], Joined(rest));
    }
  }

  // -------------------------------------------------------------- the program

  method ParseDecimalLine(data: Bytes, position: nat, eos: bool, max: nat) returns (r: Line)
    requires position <= |data|
    ensures r == ParseLine(data, position, eos, max)
  {
    var cursor, parsed: nat, digits: nat := position, 0, 0;
    while cursor < |data| && data[cursor] != CR
      invariant position <= cursor <= |data|
      invariant Scan(data, cursor, parsed, digits, max) == Scan(data, position, 0, 0, max)
    {
      if data[cursor] < ZERO || data[cursor] > NINE { return LineError; }
      var digit := data[cursor] - ZERO;
      if parsed > (SIZE_MAX - digit) / 10 { return LineError; }
      parsed, digits, cursor := parsed * 10 + digit, digits + 1, cursor + 1;
      if cursor > max { return LineError; }
    }
    if cursor >= |data| { return ShortLine(|data|, eos, max); }
    if digits == 0 || cursor + 1 >= |data| {
      return if digits == 0 then LineError else ShortLine(|data|, eos, max);
    }
    if data[cursor + 1] != LF { return LineError; }
    return LineDone(cursor + 2, parsed);
  }

  /** One argument; the body of the loop over the arguments. */
  method ParseArgument(data: Bytes, position: nat, eos: bool, max: nat) returns (r: One)
    requires position <= |data|
    ensures r == ParseOne(data, position, eos, max)
  {
    if position >= |data| { return Short(|data|, eos, max); }
    if data[position] != DOLLAR { return OneError; }
    var line := ParseDecimalLine(data, position + 1, eos, max);
    if line.LineError? { return OneError; }
    if line.LineIncomplete? { return OneIncomplete; }
    var start, length := line.position, line.value;
    if length > max || start > max - length { return OneError; }
    if |data| - start < length { return Short(|data|, eos, max); }
    var end := start + length;
    if end + 2 > |data| { return Short(|data|, eos, max); }
    if end + 2 > max || data[end] != CR || data[end + 1] != LF { return OneError; }
    return OneDone(data[start..end], end + 2);
  }

  method ParseEach(data: Bytes, from: nat, count: nat, eos: bool, max: nat) returns (r: Parsed)
    requires from <= |data|
    ensures r == ParseArguments(data, from, count, [], eos, max)
  {
    var position: nat, index: nat, arguments: seq<Bytes> := from, 0, [];
    while index < count
      invariant index <= count && position <= |data|
      invariant ParseArguments(data, position, count - index, arguments, eos, max) ==
          ParseArguments(data, from, count, [], eos, max)
    {
      var one := ParseArgument(data, position, eos, max);
      if !one.OneDone? {
        ParseStops(data, position, count - index, arguments, eos, max);
        return if one.OneError? then ParseError else ParseIncomplete;
      }
      ParseNext(data, position, count - index, arguments, one.argument, one.next, eos, max);
      arguments, position, index := arguments + [one.argument], one.next, index + 1;
    }
    return Complete(arguments, position);
  }

  method ParseRequest(data: Bytes, eos: bool, max: nat) returns (r: Parsed)
    ensures r == Parse(data, eos, max)
  {
    if max == 0 { return ParseError; }
    if data == [] { return if eos then ParseError else ParseIncomplete; }
    if data[0] != STAR { return ParseError; }
    var line := ParseDecimalLine(data, 1, eos, max);
    if line.LineError? { return ParseError; }
    if line.LineIncomplete? { return ParseIncomplete; }
    if line.value == 0 || line.value > MAX_ARGUMENTS { return ParseError; }
    r := ParseEach(data, line.position, line.value, eos, max);
  }
}
