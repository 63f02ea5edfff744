/**
  Marker records: every committed write with MySQL on is followed in the log by
  a marker with its sequence, so that a scan of the log finds the mutations
  that were submitted to the database.
 */
module MarkerLog {
  import opened Bytes
  import opened Resp
  import opened Records

  type Uuid = u: Bytes | |u| == 16 witness seq(16, _ => 0)

  const PREFIX: Bytes := [75, 86, 77, 89, 83, 81, 76, 49, 58]
  const COLON: byte := 58

  // --------------------------------------------------------------- marker text

  function HexDigit(n: nat): byte
    requires n < 16
  {
    if n < 10 then ZERO + n else 97 + n - 10
  }

  function HexValue(b: byte): Option<nat> {
    if ZERO <= b <= NINE then Some(b - ZERO)
    else if 97 <= b <= 102 then Some(b - 97 + 10)
    else if 65 <= b <= 70 then Some(b - 65 + 10)
    else None
  }

  function Hex(data: Bytes): (r: Bytes)
    ensures |r| == 2 * |data|
  {
    if data == [] then [] else [HexDigit(data[0] / 16), HexDigit(data[0] % 16)] + Hex(data[1..])
  }

  function Unhex(text: Bytes): (r: Option<Bytes>)
    requires |text| % 2 == 0
    ensures r.Some? ==> |r.value| == |text| / 2
  {
    if text == [] then Some([])
    else
      match (HexValue(text[0]), HexValue(text[1]), Unhex(text[2..]))
      case (Some(high), Some(low), Some(rest)) => Some([high * 16 + low] + rest)
      case _ => None
  }

  lemma {:induction false} HexRoundTrip(data: Bytes)
    ensures Unhex(Hex(data)) == Some(data)
  {
    if data != [] {
      var text := Hex(data);
      assert text[2..] == Hex(data[1..]);
      HexRoundTrip(data[1..]);
      assert data == [data[0]] + data[1..];
    }
  }

  function Marker(uuid: Uuid, sequence: nat): Record { [PING, PREFIX + Hex(uuid) + [COLON] + Decimal(sequence)] }

  datatype MarkerText = NotMarker | BadMarker | IsMarker(uuid: Uuid, sequence: nat)

  function ParseMarker(r: Record): MarkerText {
    if |r| != 2 || !NameIs(r[0], PING) then NotMarker
    else
      var text := r[1];
      if |text| < 43 || text[..9] != PREFIX || text[41] != COLON then NotMarker
      else
        match (Unhex(text[9..41]), Digits(text[42..]))
        case (Some(uuid), Some(sequence)) => if sequence == 0 then BadMarker else IsMarker(uuid, sequence)
        case _ => BadMarker
  }

  /** A marker is read back as it was written. */
  lemma MarkerRoundTrip(uuid: Uuid, sequence: nat)
    requires 0 < sequence <= SIZE_MAX
    ensures ParseMarker(Marker(uuid, sequence)) == IsMarker(uuid, sequence)
  {
    var text := Marker(uuid, sequence)[1];
    assert |Hex(uuid)| == 32;
    assert text[..9] == PREFIX && text[9..41] == Hex(uuid) && text[41] == COLON && text[42..] == Decimal(sequence);
    HexRoundTrip(uuid);
    ParseDecimal(sequence);
  }

  // ---------------------------------------------------------------------- scan

  predicate IsMutation(r: Record) {
    |r| >= 2 &&
    (NameIs(r[0], SET) || NameIs(r[0], DEL) || NameIs(r[0], HSET) || NameIs(r[0], HDEL) || NameIs(r[0], ZADD) ||
     NameIs(r[0], ZREM) || NameIs(r[0], PEXPIREAT) || NameIs(r[0], PERSIST))
  }

  lemma MutationIsNoMarker(r: Record)
    requires IsMutation(r)
    ensures ParseMarker(r) == NotMarker
  {
    var name := r[0];
    if NameIs(name, HSET) { FirstLetter(name, HSET); }
    if NameIs(name, HDEL) { FirstLetter(name, HDEL); }
    if NameIs(name, ZADD) { FirstLetter(name, ZADD); }
    if NameIs(name, ZREM) { FirstLetter(name, ZREM); }
    if NameIs(name, PING) { FirstLetter(name, PING); }
  }

  lemma FirstLetter(a: Bytes, name: Bytes)
    requires NameIs(a, name) && name != []
    ensures a != [] && Upper(a[0]) == name[0]
  {
  }

  /** `found` lists what the markers name, `previous` is a mutation that a marker may name next. */
  datatype Scan = Corrupt | Scan(previous: Option<Record>, uuid: Option<Uuid>, maximum: nat, found: seq<(nat, Record)>)

  function ScanStep(s: Scan, r: Record): Scan {
    if s.Corrupt? then Corrupt
    else
      match ParseMarker(r)
      case BadMarker => Corrupt
      case IsMarker(uuid, sequence) =>
        if s.previous.None? || (s.uuid.Some? && s.uuid.value != uuid) || sequence <= s.maximum then Corrupt
        else Scan(None, Some(if s.uuid.Some? then s.uuid.value else uuid), sequence,
            s.found + [(sequence, s.previous.value)])
      case NotMarker => s.(previous := if IsMutation(r) then Some(r) else None)
  }

  function ScanAll(log: seq<Record>): Scan
    decreases |log|
  {
    if log == [] then Scan(None, None, 0, []) else ScanStep(ScanAll(log[..|log| - 1]), log[|log| - 1])
  }

  /** Records are captured one after the other; the last one captured gets the marker. */
  function Captured(records: seq<Record>): Option<Record> {
    if records == [] then None else Some(records[|records| - 1])
  }

  // -------------------------------------------------------------------- proofs

  lemma ScanOne(log: seq<Record>, r: Record)
    ensures ScanAll(log + [r]) == ScanStep(ScanAll(log), r)
  {
    assert (log + [r])[..|log|] == log;
  }

  /** Mutations only move `previous`. */
  lemma {:induction false} ScanMutations(log: seq<Record>, records: seq<Record>)
    requires ScanAll(log).Scan? && records != [] && forall i :: 0 <= i < |records| ==> IsMutation(records[i])
    ensures ScanAll(log + records) == ScanAll(log).(previous := Some(records[|records| - 1]))
    decreases |records|
  {
    var front, last := records[..|records| - 1], records[|records| - 1];
    assert log + records == (log + front) + [last];
    ScanOne(log + front, last);
    MutationIsNoMarker(last);
    if front == [] {
      assert log + front == log;
    } else {
      ScanMutations(log, front);
    }
  }

  lemma {:induction false} DelsAreMutations(keys: seq<Bytes>)
    ensures forall i :: 0 <= i < |DelRecords(keys)| ==> IsMutation(DelRecords(keys)[i])
    ensures |DelRecords(keys)| == |keys|
  {
    if keys != [] { DelsAreMutations(keys[1..]); }
  }

  ghost predicate Mutations(records: seq<Record>) { forall i :: 0 <= i < |records| ==> IsMutation(records[i]) }

  /** Numbers found in the log increase. */
  ghost predicate Increasing(found: seq<(nat, Record)>) {
    forall i, j :: 0 <= i < j < |found| ==> found[i].0 < found[j].0
  }

  /** Every number found is at most the largest one seen. */
  ghost predicate Bounded(found: seq<(nat, Record)>, maximum: nat) {
    forall i :: 0 <= i < |found| ==> 0 < found[i].0 <= maximum
  }

  lemma {:induction false} ScanIncreases(log: seq<Record>)
    requires ScanAll(log).Scan?
    ensures Increasing(ScanAll(log).found) && Bounded(ScanAll(log).found, ScanAll(log).maximum)
    decreases |log|
  {
    if log != [] {
      var front := log[..|log| - 1];
      ScanIncreases(front);
    }
  }

  /** What the scan of a longer log has found begins with what the scan of the shorter one found. */
  ghost predicate Grows(a: Scan, b: Scan) {
    a.Scan? && b.Scan? && a.found <= b.found && a.maximum <= b.maximum && (a.uuid.Some? ==> b.uuid == a.uuid)
  }

  /** A log that was cut at a record can still be scanned. */
  lemma {:induction false} ScanPrefix(log: seq<Record>, kept: nat)
    requires kept <= |log| && ScanAll(log).Scan?
    ensures Grows(ScanAll(log[..kept]), ScanAll(log))
    decreases |log| - kept
  {
    if kept == |log| {
      assert log[..kept] == log;
    } else {
      ScanPrefix(log, kept + 1);
      assert log[..kept + 1] == log[..kept] + [log[kept]];
      ScanOne(log[..kept], log[kept]);
    }
  }

  /** A marker after a mutation, with a number not seen yet, names that mutation. */
  lemma ScanMarked(log: seq<Record>, records: seq<Record>, own: Record, uuid: Uuid, sequence: nat)
    requires ScanAll(log).Scan? && (ScanAll(log).uuid.Some? ==> ScanAll(log).uuid.value == uuid)
    requires Mutations(records) && Captured(records) == Some(own) && ScanAll(log).maximum < sequence <= SIZE_MAX
    ensures ScanAll(log + records + [Marker(uuid, sequence)])
            == Scan(None, Some(uuid), sequence, ScanAll(log).found + [(sequence, own)])
  {
    ScanMutations(log, records);
    ScanOne(log + records, Marker(uuid, sequence));
    MarkerRoundTrip(uuid, sequence);
  }

  // -------------------------------------------------------------- the program

  /** The state that the scan carries from record to record. */
  class Scanner {
    var previous: Option<Record>
    var uuid: Option<Uuid>
    var maximum: nat
    var found: seq<(nat, Record)>

    function View(): Scan
      reads this
    {
      Scan(previous, uuid, maximum, found)
    }

    constructor ()
      ensures View() == ScanAll([])
    {
      previous, uuid, maximum, found := None, None, 0, [];
    }

    /** One record; false for a log that cannot be right. */
    method Visit(r: Record) returns (ok: bool)
      modifies this
      ensures ok == ScanStep(old(View()), r).Scan? && (ok ==> View() == ScanStep(old(View()), r))
    {
      var marker := ParseMarker(r);
      if marker.BadMarker? { return false; }
      if marker.IsMarker? {
        if previous.None? || (uuid.Some? && uuid.value != marker.uuid) || marker.sequence <= maximum { return false; }
        if uuid.None? { uuid := Some(marker.uuid); }
        maximum := marker.sequence;
        found := found + [(marker.sequence, previous.value)];
        previous := None;
        return true;
      }
      previous := None;
      if IsMutation(r) { previous := Some(r); }
      ok := true;
    }

    method VisitAll(log: seq<Record>) returns (ok: bool)
      requires View() == ScanAll([])
      modifies this
      ensures ok == ScanAll(log).Scan? && (ok ==> View() == ScanAll(log))
    {
      var i := 0;
      while i < |log|
        invariant 0 <= i <= |log| && View() == ScanAll(log[..i])
      {
        assert log[..i + 1] == log[..i] + [log[i]];
        ScanOne(log[..i], log[i]);
        var good := Visit(log[i]);
        if !good {
          StaysCorrupt(log, i + 1);
          return false;
        }
        i := i + 1;
      }
      assert log[..|log|] == log;
      ok := true;
    }
  }

  lemma {:induction false} StaysCorrupt(log: seq<Record>, i: nat)
    requires i <= |log| && ScanAll(log[..i]).Corrupt?
    ensures ScanAll(log).Corrupt?
    decreases |log| - i
  {
    if i < |log| {
      assert log[..i + 1] == log[..i] + [log[i]];
      ScanOne(log[..i], log[i]);
      StaysCorrupt(log, i + 1);
    } else {
      assert log[..i] == log;
    }
  }
}
