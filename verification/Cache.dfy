/**
  The cache: an index of entries, the recency list and the deadline heap over the
  same entries, running totals, limits with eviction, lazy and active expiry and
  the shortcut to the hash object used last.

  The index is a map here; `HashTable` shows that the table behind it is one.
  What an object costs is a parameter: the cache only adds up recorded charges.
 */
module Cache {
  import opened Bytes
  import ExpireHeap
  import HashTable
  import LruList

  datatype Kind = StringKind | HashKind | ZsetKind

  datatype Entry<O> = Entry(value: O, kind: Kind, charge: nat, items: nat)

  type Index<O> = map<Bytes, Entry<O>>

  // ------------------------------------------------------------------- totals

  datatype Totals = Totals(used: nat, strings: nat, hashes: nat, zsets: nat, fields: nat, members: nat)

  /** What one entry contributes. */
  function Share<O>(e: Entry<O>): Totals {
    match e.kind
    case StringKind => Totals(e.charge, 1, 0, 0, 0, 0)
    case HashKind => Totals(e.charge, 0, 1, 0, e.items, 0)
    case ZsetKind => Totals(e.charge, 0, 0, 1, 0, e.items)
  }

  function Plus(a: Totals, b: Totals): Totals {
    Totals(a.used + b.used, a.strings + b.strings, a.hashes + b.hashes, a.zsets + b.zsets, a.fields + b.fields,
           a.members + b.members)
  }

  predicate Covers(a: Totals, b: Totals) {
    && a.used >= b.used && a.strings >= b.strings && a.hashes >= b.hashes && a.zsets >= b.zsets && a.fields >= b.fields
    && a.members >= b.members
  }

  function Minus(a: Totals, b: Totals): Totals
    requires Covers(a, b)
  {
    Totals(a.used - b.used, a.strings - b.strings, a.hashes - b.hashes, a.zsets - b.zsets, a.fields - b.fields,
           a.members - b.members)
  }

  /** The sum over all entries. */
  ghost function Sum<O>(m: Index<O>): Totals
    decreases |m|
  {
    if m == map[] then Totals(0, 0, 0, 0, 0, 0)
    else
      var k :| k in m;
      assert |m - {k}| < |m| by { OneKeyLess(m, k); }
      Plus(Sum(m - {k}), Share(m[k]))
  }

  lemma PlusSwap(r: Totals, a: Totals, b: Totals)
    ensures Plus(Plus(r, a), b) == Plus(Plus(r, b), a)
  {
  }

  /** Any entry can be taken out of the sum. */
  lemma {:induction false} SumWithout<O>(m: Index<O>, k: Bytes)
    requires k in m
    ensures Sum(m) == Plus(Sum(m - {k}), Share(m[k])) && Covers(Sum(m), Share(m[k]))
    decreases |m|
  {
    var c :| c in m && Sum(m) == Plus(Sum(m - {c}), Share(m[c]));
    if c != k {
      OneKeyLess(m, c);
      SumWithout(m - {c}, k);
      OneKeyLess(m, k);
      SumWithout(m - {k}, c);
      assert (m - {c}) - {k} == (m - {k}) - {c};
      var rest := Sum((m - {c}) - {k});
      assert (m - {c})[k] == m[k] && (m - {k})[c] == m[c];
      assert Sum(m - {c}) == Plus(rest, Share(m[k])) && Sum(m - {k}) == Plus(rest, Share(m[c]));
      PlusSwap(rest, Share(m[k]), Share(m[c]));
    }
  }

  lemma SumRemoved<O>(m: Index<O>, k: Bytes)
    requires k in m
    ensures Covers(Sum(m), Share(m[k])) && Minus(Sum(m), Share(m[k])) == Sum(m - {k})
  {
    SumWithout(m, k);
  }

  lemma SumPut<O>(m: Index<O>, k: Bytes, e: Entry<O>)
    requires k !in m
    ensures Sum(m[k := e]) == Plus(Sum(m), Share(e))
  {
    SumWithout(m[k := e], k);
    assert m[k := e] - {k} == m;
  }

  lemma SumChange<O>(m: Index<O>, k: Bytes, e: Entry<O>)
    requires k in m
    ensures Covers(Sum(m), Share(m[k])) && Sum(m[k := e]) == Plus(Minus(Sum(m), Share(m[k])), Share(e))
  {
    SumWithout(m, k);
    SumWithout(m[k := e], k);
    assert m[k := e] - {k} == m - {k};
  }

  // ------------------------------------------------------------- specification

  /** Entries, the deadlines of those that have one, and the keys by recency. */
  datatype State<O> = State(index: Index<O>, d: map<Bytes, nat>, order: seq<Bytes>)

  /** Zero is no limit. */
  datatype Limits = Limits(maxKeys: nat, maxMemory: nat)

  predicate LruOn(limits: Limits) { limits.maxKeys != 0 || limits.maxMemory != 0 }

  predicate Exceeded(limits: Limits, keys: nat, memory: nat) {
    (limits.maxKeys != 0 && keys > limits.maxKeys) || (limits.maxMemory != 0 && memory > limits.maxMemory)
  }

  ghost predicate Within<O>(s: State<O>, limits: Limits) { !Exceeded(limits, |s.index|, Sum(s.index).used) }

  /** Index, recency list and deadlines are about the same entries. */
  ghost predicate Joint<O>(s: State<O>, lru: bool) {
    && (forall k :: k in s.d ==> k in s.index)
    && LruList.Distinct(s.order)
    && (lru ==> forall k :: k in s.order <==> k in s.index)
    && (!lru ==> s.order == [])
  }

  predicate Expired<O>(s: State<O>, k: Bytes, now: nat) { k in s.d && now >= s.d[k] }

  function RemoveKey<O>(s: State<O>, k: Bytes): State<O> {
    State(s.index - {k}, s.d - {k}, LruList.Without(s.order, k))
  }

  function Touched(order: seq<Bytes>, k: Bytes, lru: bool): seq<Bytes> {
    if lru then [k] + LruList.Without(order, k) else order
  }

  function WithDeadline(d: map<Bytes, nat>, k: Bytes, deadline: nat): map<Bytes, nat> {
    if deadline == 0 then d - {k} else d[k := deadline]
  }

  /** An entry written, and most recently used. */
  function Put<O>(s: State<O>, k: Bytes, e: Entry<O>, deadline: nat, lru: bool): State<O> {
    State(s.index[k := e], WithDeadline(s.d, k, deadline), Touched(s.order, k, lru))
  }

  /** A lookup forgets an entry whose deadline has passed. */
  function Looked<O>(s: State<O>, k: Bytes, now: nat): State<O> {
    if k in s.index && Expired(s, k, now) then RemoveKey(s, k) else s
  }

  /** Who may be evicted for p, the least recently used last. */
  function Candidates<O>(s: State<O>, p: Bytes): seq<Bytes> { LruList.Without(s.order, p) }

  function Victim<O>(s: State<O>, p: Bytes): Bytes
    requires Candidates(s, p) != []
  {
    var q := Candidates(s, p);
    q[|q| - 1]
  }

  /** The state after the least recently used entry other than p is gone. */
  function EvictOne<O>(s: State<O>, p: Bytes): State<O> {
    if Candidates(s, p) == [] then s else RemoveKey(s, Victim(s, p))
  }

  /** The state after j evictions for p. */
  function Evicted<O>(s: State<O>, p: Bytes, j: nat): State<O> { Repeated(Evictor(p), s, j) }

  function Evictor<O>(p: Bytes): State<O> -> State<O> { (s: State<O>) => EvictOne(s, p) }

  function Repeated<O>(step: State<O> -> State<O>, s: State<O>, j: nat): State<O>
    decreases j
  {
    if j == 0 then s else step(Repeated(step, s, j - 1))
  }

  /** The evictions among j that are reported: entries that had not expired. */
  function Reported<O>(s: State<O>, p: Bytes, j: nat, now: nat): seq<Bytes> {
    Collected(Evictor(p), Reporter(p, now), s, j)
  }

  function Reporter<O>(p: Bytes, now: nat): State<O> -> seq<Bytes> { (s: State<O>) => Report(s, p, now) }

  function Collected<O>(step: State<O> -> State<O>, report: State<O> -> seq<Bytes>, s: State<O>, j: nat): seq<Bytes>
    decreases j
  {
    if j == 0 then [] else Collected(step, report, s, j - 1) + report(Repeated(step, s, j - 1))
  }

  function Report<O>(s: State<O>, p: Bytes, now: nat): seq<Bytes> {
    if Candidates(s, p) == [] || Expired(s, Victim(s, p), now) then [] else [Victim(s, p)]
  }

  /** With only i evictions a limit would be exceeded. */
  ghost predicate Over<O>(s: State<O>, p: Bytes, i: nat, limits: Limits) { !Within(Evicted(s, p, i), limits) }

  /** Exactly as many as the limits demand. */
  ghost predicate Shortest<O>(s: State<O>, p: Bytes, j: nat, limits: Limits) {
    && j <= |Candidates(s, p)| && Within(Evicted(s, p, j), limits)
    && forall i :: 0 <= i < j ==> Over(s, p, i, limits)
  }

  /** How many evictions for p the limits demand. */
  ghost function Fewest<O>(s: State<O>, p: Bytes, limits: Limits): nat {
    First(Enough(s, p, limits), |Candidates(s, p)|, 0)
  }

  ghost function Enough<O>(s: State<O>, p: Bytes, limits: Limits): nat -> bool {
    (i: nat) => Within(Evicted(s, p, i), limits)
  }

  /** The first number from i on that will do, or n. */
  function First(enough: nat -> bool, n: nat, i: nat): nat
    requires i <= n
    decreases n - i
  {
    if i == n || enough(i) then i else First(enough, n, i + 1)
  }

  // ------------------------------------------------------------- its properties

  lemma {:induction false} FirstIs(enough: nat -> bool, n: nat, i: nat, j: nat)
    requires i <= j <= n && enough(j) && forall k: nat :: i <= k < j ==> !enough(k)
    ensures First(enough, n, i) == j
    decreases j - i
  {
    if i < j { FirstIs(enough, n, i + 1, j); }
  }

  /** There is only one shortest run of evictions. */
  lemma FewestIs<O>(s: State<O>, p: Bytes, j: nat, limits: Limits)
    requires Shortest(s, p, j, limits)
    ensures Fewest(s, p, limits) == j
  {
    forall i: nat | i < j ensures !Enough(s, p, limits)(i) {
      assert Over(s, p, i, limits);
    }
    FirstIs(Enough(s, p, limits), |Candidates(s, p)|, 0, j);
  }

  lemma WithoutIs(s: seq<Bytes>, k: Bytes)
    requires LruList.Distinct(s)
    ensures LruList.Distinct(LruList.Without(s, k)) && forall x :: x in LruList.Without(s, k) <==> x in s && x != k
    ensures k !in s ==> LruList.Without(s, k) == s
  {
    if k in s { LruList.WithoutKeys(s, k); } else { WithoutAbsent(s, k); }
  }

  lemma {:induction false} WithoutAbsent(s: seq<Bytes>, k: Bytes)
    requires k !in s
    ensures LruList.Without(s, k) == s
  {
    if s != [] { WithoutAbsent(s[1..], k); }
  }

  lemma RemoveKeepsJoint<O>(s: State<O>, k: Bytes, lru: bool)
    requires Joint(s, lru)
    ensures Joint(RemoveKey(s, k), lru)
  {
    WithoutIs(s.order, k);
  }

  lemma PutKeepsJoint<O>(s: State<O>, k: Bytes, e: Entry<O>, deadline: nat, lru: bool)
    requires Joint(s, lru)
    ensures Joint(Put(s, k, e, deadline, lru), lru)
  {
    WithoutIs(s.order, k);
    ConsDistinct(k, LruList.Without(s.order, k));
  }

  lemma ConsDistinct(k: Bytes, s: seq<Bytes>)
    requires LruList.Distinct(s) && k !in s
    ensures LruList.Distinct([k] + s)
  {
    var r := [k] + s;
    forall i, j | 0 <= i < j < |r| ensures r[i] != r[j] {
      assert r[j] == s[j - 1] && (i > 0 ==> r[i] == s[i - 1]);
    }
  }

  /** Removing keys one after the other, in any order. */
  lemma {:induction false} WithoutTwice(s: seq<Bytes>, a: Bytes, b: Bytes)
    requires LruList.Distinct(s) && a != b
    ensures LruList.Without(LruList.Without(s, a), b) == LruList.Without(LruList.Without(s, b), a)
  {
    if s != [] {
      WithoutTwice(s[1..], a, b);
      if s[0] == a { WithoutAbsent(s[1..], a); }
      if s[0] == b { WithoutAbsent(s[1..], b); }
      assert s[0] != a && s[0] != b ==>
        LruList.Without(s, a) == [s[0]] + LruList.Without(s[1..], a) &&
            LruList.Without(s, b) == [s[0]] + LruList.Without(s[1..], b);
    }
  }

  lemma LastOut(q: seq<Bytes>)
    requires q != [] && LruList.Distinct(q)
    ensures LruList.Without(q, q[|q| - 1]) == q[..|q| - 1]
  {
    LruList.WithoutAt(q, |q| - 1);
  }

  /** The victim is the least recently used candidate, and the candidates lose it. */
  lemma OneEvicted<O>(s: State<O>, p: Bytes, lru: bool)
    requires Joint(s, lru) && Candidates(s, p) != []
    ensures var q, v := Candidates(s, p), Victim(s, p);
      && v != p && v in s.order && (lru ==> v in s.index)
      && Joint(EvictOne(s, p), lru) && Candidates(EvictOne(s, p), p) == q[..|q| - 1]
  {
    var q := Candidates(s, p);
    var v := q[|q| - 1];
    WithoutIs(s.order, p);
    assert v in q;
    WithoutTwice(s.order, v, p);
    LastOut(q);
    RemoveKeepsJoint(s, v, lru);
  }

  lemma FewerCandidates<O>(s: State<O>, p: Bytes, q: seq<Bytes>, j: nat, lru: bool)
    requires Joint(s, lru) && 0 < j <= |q| && Candidates(s, p) == q[..|q| - (j - 1)]
    ensures Joint(EvictOne(s, p), lru) && Candidates(EvictOne(s, p), p) == q[..|q| - j] && Victim(s, p) == q[|q| - j]
  {
    OneEvicted(s, p, lru);
    assert q[..|q| - (j - 1)][..|q| - j] == q[..|q| - j];
  }

  /** What holds at the start and is passed on by each of j steps holds after them. */
  lemma {:induction false} RepeatedKeeps<O>(step: State<O> -> State<O>, s: State<O>, j: nat,
      holds: (nat, State<O>) -> bool)
    requires holds(0, s)
    requires forall i: nat :: i < j && holds(i, Repeated(step, s, i)) ==> holds(i + 1, step(Repeated(step, s, i)))
    ensures holds(j, Repeated(step, s, j))
    decreases j
  {
    if j > 0 {
      RepeatedKeeps(step, s, j - 1, holds);
      NextRepeated(step, s, j);
    }
  }

  lemma NextRepeated<O>(step: State<O> -> State<O>, s: State<O>, j: nat)
    requires j > 0
    ensures Repeated(step, s, j) == step(Repeated(step, s, j - 1))
  {
  }

  /** After i evictions the i last candidates are gone. */
  ghost predicate Left<O>(q: seq<Bytes>, p: Bytes, i: nat, s: State<O>, lru: bool) {
    i <= |q| && Joint(s, lru) && Candidates(s, p) == q[..|q| - i]
  }

  lemma OneLess<O>(q: seq<Bytes>, p: Bytes, i: nat, s: State<O>, lru: bool)
    requires Left(q, p, i, s, lru) && i < |q|
    ensures Left(q, p, i + 1, EvictOne(s, p), lru)
  {
    FewerCandidates(s, p, q, i + 1, lru);
  }

  /** The state after j evictions, by name: the j last candidates are gone. */
  lemma EvictedState<O>(s: State<O>, p: Bytes, j: nat, lru: bool) returns (at: State<O>)
    requires Joint(s, lru) && j <= |Candidates(s, p)|
    ensures at == Evicted(s, p, j) && Joint(at, lru)
    ensures var q := Candidates(s, p); Candidates(at, p) == q[..|q| - j]
  {
    var q := Candidates(s, p);
    assert q[..|q| - 0] == q;
    forall i: nat | i < j && Left(q, p, i, Repeated(Evictor(p), s, i), lru)
      ensures Left(q, p, i + 1, Evictor(p)(Repeated(Evictor(p), s, i)), lru)
    {
      OneLess(q, p, i, Repeated(Evictor(p), s, i), lru);
    }
    RepeatedKeeps(Evictor(p), s, j, (i: nat, x: State<O>) => Left(q, p, i, x, lru));
    at := Evicted(s, p, j);
  }

  lemma EvictedCandidates<O>(s: State<O>, p: Bytes, j: nat, lru: bool)
    requires Joint(s, lru) && j <= |Candidates(s, p)|
    ensures var q, s' := Candidates(s, p), Evicted(s, p, j); Joint(s', lru) && Candidates(s', p) == q[..|q| - j]
  {
    var at := EvictedState(s, p, j, lru);
  }

  function KeySet(q: seq<Bytes>): set<Bytes> { set k | k in q }

  lemma TakeLast(q: seq<Bytes>, j: nat)
    requires 0 < j <= |q|
    ensures KeySet(q[|q| - j..]) == KeySet(q[|q| - (j - 1)..]) + {q[|q| - j]}
  {
    assert q[|q| - j..] == [q[|q| - j]] + q[|q| - (j - 1)..];
  }

  /** The second state is the first one without these entries. */
  ghost predicate Lost<O>(s: State<O>, s': State<O>, gone: set<Bytes>) {
    s'.index == s.index - gone && s'.d == s.d - gone
  }

  lemma OneGone<O>(s: State<O>, s': State<O>, p: Bytes, gone: set<Bytes>, v: Bytes)
    requires Lost(s, s', gone)
    requires Candidates(s', p) != [] && Victim(s', p) == v
    ensures Lost(s, EvictOne(s', p), gone + {v})
  {
  }

  lemma LastGone<O>(s: State<O>, s': State<O>, p: Bytes, q: seq<Bytes>, j: nat, lru: bool)
    requires Joint(s', lru) && 0 < j <= |q| && Candidates(s', p) == q[..|q| - (j - 1)] &&
        Lost(s, s', KeySet(q[|q| - (j - 1)..]))
    ensures Lost(s, EvictOne(s', p), KeySet(q[|q| - j..]))
  {
    TakeLast(q, j);
    OneGone(s, s', p, KeySet(q[|q| - (j - 1)..]), q[|q| - j]);
  }

  /** The last i candidates are gone, and nothing else. */
  ghost predicate LastAreGone<O>(s: State<O>, q: seq<Bytes>, p: Bytes, i: nat, x: State<O>, lru: bool) {
    Left(q, p, i, x, lru) && Lost(s, x, KeySet(q[|q| - i..]))
  }

  lemma OneMoreGone<O>(s: State<O>, q: seq<Bytes>, p: Bytes, i: nat, x: State<O>, lru: bool)
    requires LastAreGone(s, q, p, i, x, lru) && i < |q|
    ensures LastAreGone(s, q, p, i + 1, EvictOne(x, p), lru)
  {
    OneLess(q, p, i, x, lru);
    LastGone(s, x, p, q, i + 1, lru);
  }

  /** The evicted entries are exactly the j least recently used ones other than p. */
  lemma EvictedAre<O>(s: State<O>, p: Bytes, j: nat, lru: bool)
    requires Joint(s, lru) && j <= |Candidates(s, p)|
    ensures Lost(s, Evicted(s, p, j), KeySet(Candidates(s, p)[|Candidates(s, p)| - j..]))
  {
    var q := Candidates(s, p);
    assert q[..|q| - 0] == q && q[|q| - 0..] == [];
    forall i: nat | i < j && LastAreGone(s, q, p, i, Repeated(Evictor(p), s, i), lru)
      ensures LastAreGone(s, q, p, i + 1, Evictor(p)(Repeated(Evictor(p), s, i)), lru)
    {
      OneMoreGone(s, q, p, i, Repeated(Evictor(p), s, i), lru);
    }
    RepeatedKeeps(Evictor(p), s, j, (i: nat, x: State<O>) => LastAreGone(s, q, p, i, x, lru));
  }

  /** Writing p before the evictions made for it or after them is the same. */
  lemma PutCommutes<O>(s: State<O>, p: Bytes, e: Entry<O>, deadline: nat, v: Bytes, lru: bool)
    requires Joint(s, lru) && v != p
    ensures RemoveKey(Put(s, p, e, deadline, lru), v) == Put(RemoveKey(s, v), p, e, deadline, lru)
  {
    WithoutTwice(s.order, v, p);
    assert s.index[p := e] - {v} == (s.index - {v})[p := e];
    assert WithDeadline(s.d, p, deadline) - {v} == WithDeadline(s.d - {v}, p, deadline);
    assert Touched(LruList.Without(s.order, v), p, lru) == LruList.Without(Touched(s.order, p, lru), v);
  }

  lemma PutCandidates<O>(s: State<O>, p: Bytes, e: Entry<O>, deadline: nat, lru: bool)
    requires Joint(s, lru)
    ensures Candidates(Put(s, p, e, deadline, lru), p) == Candidates(s, p)
  {
    assert lru ==> ([p] + LruList.Without(s.order, p))[1..] == LruList.Without(s.order, p);
  }

  lemma PutEvictOne<O>(s: State<O>, p: Bytes, e: Entry<O>, deadline: nat, lru: bool)
    requires Joint(s, lru)
    ensures EvictOne(Put(s, p, e, deadline, lru), p) == Put(EvictOne(s, p), p, e, deadline, lru)
  {
    PutCandidates(s, p, e, deadline, lru);
    if Candidates(s, p) != [] {
      OneEvicted(s, p, lru);
      PutCommutes(s, p, e, deadline, Victim(s, p), lru);
    }
  }

  /** A change that commutes with each of the steps commutes with all of them. */
  lemma {:induction false} RepeatedCommutes<O>(step: State<O> -> State<O>, put: State<O> -> State<O>, s: State<O>,
      j: nat)
    requires forall i: nat :: i < j ==> step(put(Repeated(step, s, i))) == put(step(Repeated(step, s, i)))
    ensures Repeated(step, put(s), j) == put(Repeated(step, s, j))
    decreases j
  {
    if j > 0 { RepeatedCommutes(step, put, s, j - 1); }
  }

  lemma {:induction false} CollectedSame<O>(step: State<O> -> State<O>, put: State<O> -> State<O>,
      report: State<O> -> seq<Bytes>,
                                            s: State<O>, j: nat)
    requires forall i: nat :: i < j ==> step(put(Repeated(step, s, i))) == put(step(Repeated(step, s, i)))
    requires forall i: nat :: i < j ==> report(put(Repeated(step, s, i))) == report(Repeated(step, s, i))
    ensures Collected(step, report, put(s), j) == Collected(step, report, s, j)
    decreases j
  {
    if j > 0 {
      CollectedSame(step, put, report, s, j - 1);
      RepeatedCommutes(step, put, s, j - 1);
    }
  }

  lemma PutThenEvict<O>(s: State<O>, p: Bytes, e: Entry<O>, deadline: nat, j: nat, lru: bool)
    requires Joint(s, lru) && j <= |Candidates(s, p)|
    ensures Evicted(Put(s, p, e, deadline, lru), p, j) == Put(Evicted(s, p, j), p, e, deadline, lru)
  {
    var step, put := Evictor<O>(p), (x: State<O>) => Put(x, p, e, deadline, lru);
    forall i: nat | i < j ensures step(put(Repeated(step, s, i))) == put(step(Repeated(step, s, i))) {
      var at := EvictedState(s, p, i, lru);
      PutEvictOne(at, p, e, deadline, lru);
    }
    RepeatedCommutes(step, put, s, j);
  }

  lemma PutReport<O>(s: State<O>, p: Bytes, e: Entry<O>, deadline: nat, now: nat, lru: bool)
    requires Joint(s, lru)
    ensures Report(Put(s, p, e, deadline, lru), p, now) == Report(s, p, now)
  {
    PutCandidates(s, p, e, deadline, lru);
    if Candidates(s, p) != [] { OneEvicted(s, p, lru); }
  }

  /** Who is reported does not depend on whether p is written before or after. */
  lemma PutReported<O>(s: State<O>, p: Bytes, e: Entry<O>, deadline: nat, j: nat, now: nat, lru: bool)
    requires Joint(s, lru) && j <= |Candidates(s, p)|
    ensures Reported(Put(s, p, e, deadline, lru), p, j, now) == Reported(s, p, j, now)
  {
    var step, put, report := Evictor<O>(p), (x: State<O>) => Put(x, p, e, deadline, lru), Reporter<O>(p, now);
    forall i: nat | i < j
      ensures step(put(Repeated(step, s, i))) == put(step(Repeated(step, s, i)))
      ensures report(put(Repeated(step, s, i))) == report(Repeated(step, s, i))
    {
      var at := EvictedState(s, p, i, lru);
      PutEvictOne(at, p, e, deadline, lru);
      PutReport(at, p, e, deadline, now, lru);
    }
    CollectedSame(step, put, report, s, j);
  }

  lemma OnlyEntry<O>(m: Index<O>, p: Bytes)
    requires m.Keys == {p}
    ensures |m| == 1 && Sum(m).used == m[p].charge
  {
    assert m - {p} == map[];
    SumWithout(m, p);
    OneKeyLess(m, p);
  }

  /** With every candidate gone only p is left, so that eviction never runs out of candidates. */
  lemma RoomForOne<O>(s: State<O>, p: Bytes, limits: Limits)
    requires Joint(s, true) && p in s.index && Candidates(s, p) == []
    requires limits.maxMemory != 0 ==> s.index[p].charge <= limits.maxMemory
    ensures Within(s, limits)
  {
    WithoutIs(s.order, p);
    assert forall k :: k in s.index ==> k in s.order;
    assert s.index.Keys == {p};
    OnlyEntry(s.index, p);
  }

  // -------------------------------------------------------------- the program

  class Store<O> {
    const limits: Limits
    const lru: LruList.List
    const heap: ExpireHeap.Heap
    const table: HashTable.HashTable<Entry<O>>
    ghost var index: Index<O>
    var totals: Totals
    var hot: Option<Bytes>

    ghost function View(): State<O>
      reads this, lru, heap
    {
      State(index, heap.d, lru.order)
    }

    /** The table, in whatever rehash state it is, holds the entries. */
    ghost predicate Indexed()
      reads this`index, table
    {
      table.Valid() && table.m == index
    }

    /** The joint invariant, limits aside. */
    ghost predicate Loose()
      reads this, lru, heap, table
    {
      && Indexed() && lru.Valid() && heap.Valid() && Joint(View(), LruOn(limits)) && totals == Sum(index)
      && (hot.Some? ==> hot.value in index)
    }

    /** The joint invariant: also, both limits are kept. */
    ghost predicate Valid()
      reads this, lru, heap, table
    {
      Loose() && Within(View(), limits)
    }

    constructor (limits: Limits, code: Bytes -> nat)
      ensures Valid() && View() == State(map[], map[], []) && this.limits == limits
      ensures fresh(lru) && fresh(heap) && fresh(table)
    {
      this.limits := limits;
      table := new HashTable.HashTable<Entry<O>>(code);
      lru := new LruList.List();
      heap := new ExpireHeap.Heap();
      index, totals, hot := map[], Totals(0, 0, 0, 0, 0, 0), None;
    }

    /** The entry of a key, by way of the table. */
    method Lookup(k: Bytes) returns (e: Option<Entry<O>>)
      requires Indexed()
      ensures e == if k in index then Some(index[k]) else None
    {
      e := table.Find(k);
    }

    /** An entry that is there gets other contents. */
    method SetEntry(k: Bytes, e: Entry<O>)
      requires Indexed() && k in index
      modifies table, this`index
      ensures Indexed() && index == old(index)[k := e]
    {
      table.SetPayload(k, e);
      index := index[k := e];
    }

    method DropDeadline(k: Bytes)
      requires heap.Valid()
      modifies heap
      ensures heap.Valid() && heap.d == old(heap.d) - {k}
    {
      if k in heap.d {
        heap.Remove(k);
      } else {
        assert heap.d - {k} == heap.d;
      }
    }

    method Unlink(k: Bytes)
      requires lru.Valid() && if LruOn(limits) then k in lru.order else lru.order == []
      modifies lru
      ensures lru.Valid() && lru.order == LruList.Without(old(lru.order), k)
    {
      if LruOn(limits) { lru.Unlink(k); }
    }

    /** Takes an entry out of every structure. */
    method EntryRemove(k: Bytes)
      requires Loose() && k in index
      modifies table, this`index, this`totals, this`hot, lru, heap
      ensures Loose() && View() == RemoveKey(old(View()), k)
    {
      RemoveKeepsJoint(View(), k, LruOn(limits));
      ghost var after := RemoveKey(View(), k);
      DropDeadline(k);
      Unlink(k);
      DropEntry(k);
      assert View() == after;
    }

    method DropEntry(k: Bytes)
      requires Indexed() && totals == Sum(index) && k in index && (hot.Some? ==> hot.value in index)
      modifies table, this`index, this`totals, this`hot
      ensures Indexed() && index == old(index) - {k} && totals == Sum(index) && (hot.Some? ==> hot.value in index)
    {
      SumRemoved(index, k);
      if hot == Some(k) { hot := None; }
      var e := TakeEntry(k);
      totals := Minus(totals, Share(e));
    }

    /** An entry leaves the table. */
    method TakeEntry(k: Bytes) returns (e: Entry<O>)
      requires Indexed() && k in index
      modifies table, this`index
      ensures Indexed() && index == old(index) - {k} && e == old(index)[k]
    {
      var removed;
      ghost var gone;
      removed, gone := table.Remove(k);
      e := removed.value;
      index := index - {k};
    }

    /** Looks an entry up; one whose deadline has passed is removed and not found. */
    method FindLive(k: Bytes, now: nat) returns (found: bool)
      requires Valid()
      modifies table, this`index, this`totals, this`hot, lru, heap
      ensures Valid() && View() == Looked(old(View()), k, now)
      ensures found == (k in index) && (found ==> !Expired(View(), k, now))
    {
      var e := Lookup(k);
      if e.None? { return false; }
      if k in heap.d && now >= heap.d[k] {
        FewerFit(View(), k, limits);
        EntryRemove(k);
        return false;
      }
      found := true;
    }

    /** The three ways in which a deadline changes, and none. */
    method SetDeadline(k: Bytes, deadline: nat)
      requires heap.Valid()
      modifies heap
      ensures heap.Valid() && heap.d == WithDeadline(old(heap.d), k, deadline)
    {
      if k in heap.d && deadline == 0 {
        heap.Remove(k);
      } else if k !in heap.d && deadline != 0 {
        heap.Insert(k, deadline);
      } else if k in heap.d {
        heap.Change(k, deadline);
      } else {
        assert heap.d - {k} == heap.d;
      }
    }

    method Touch(k: Bytes)
      requires lru.Valid() && (LruOn(limits) ==> k in lru.order)
      modifies lru
      ensures lru.Valid() && lru.order == Touched(old(lru.order), k, LruOn(limits))
    {
      if LruOn(limits) { lru.Touch(k); }
    }

    /** The least recently used entry other than p, if there is one. */
    method Candidate(p: Bytes) returns (c: Option<Bytes>)
      requires Loose() && LruOn(limits) && p in index
      ensures c == if Candidates(View(), p) == [] then None else Some(Victim(View(), p))
    {
      c := lru.tail;
      ghost var order := lru.order;
      LastWithout(order, p);
      if c == Some(p) {
        assert LruList.PreviousAt(order, lru.previous, |order| - 1);
        c := lru.previous[p];
      }
    }

    /** One eviction for p; reported unless the entry's deadline had passed anyway. */
    method EvictFor(p: Bytes, now: nat) returns (victim: Bytes, charge: nat, reported: bool)
      requires Loose() && LruOn(limits) && p in index && Candidates(View(), p) != []
      modifies table, this`index, this`totals, this`hot, lru, heap
      ensures Loose() && View() == EvictOne(old(View()), p)
      ensures victim == Victim(old(View()), p) && victim in old(index) && charge == old(index)[victim].charge
      ensures reported == !Expired(old(View()), victim, now)
    {
      OneEvicted(View(), p, true);
      var c := Candidate(p);
      victim := c.value;
      var e := Lookup(victim);
      charge, reported := e.value.charge, !(victim in heap.d && now >= heap.d[victim]);
      EntryRemove(victim);
    }

    /** One turn of the eviction loop. */
    method TrimStep(p: Bytes, now: nat, reported: seq<Bytes>, ghost s: State<O>, ghost j: nat)
      returns (reported': seq<Bytes>, charge: nat)
      requires Loose() && LruOn(limits) && p in index && Candidates(View(), p) != [] && View() == Evicted(s, p, j)
      requires reported == Reported(s, p, j, now)
      modifies table, this`index, this`totals, this`hot, lru, heap
      ensures Loose() && View() == EvictOne(old(View()), p)
      ensures reported' == Reported(s, p, j + 1, now)
      ensures Victim(old(View()), p) in old(index) && charge == old(index)[Victim(old(View()), p)].charge
    {
      var v, c, r := EvictFor(p, now);
      charge, reported' := c, if r then reported + [v] else reported;
    }

    /** Evicts for p, which is already in place, as long as a limit is exceeded. */
    method TrimNew(p: Bytes, now: nat) returns (reported: seq<Bytes>, ghost j: nat)
      requires Loose() && p in index && (limits.maxMemory != 0 ==> index[p].charge <= limits.maxMemory)
      modifies table, this`index, this`totals, this`hot, lru, heap
      ensures Valid() && Shortest(old(View()), p, j, limits) && View() == Evicted(old(View()), p, j)
      ensures reported == Reported(old(View()), p, j, now)
    {
      ghost var s := View();
      reported, j := [], 0;
      table.Size();
      while Exceeded(limits, table.count, totals.used)
        invariant Loose() && table.count == |index|
        invariant p in index && index[p] == old(index)[p]
        invariant Trimming(s, View(), p, j, limits)
        invariant reported == Reported(s, p, j, now)
        decreases |index|
      {
        StillCandidates(s, View(), p, j, limits);
        OneKeyLess(index, Victim(View(), p));
        var c;
        reported, c := TrimStep(p, now, reported, s, j);
        j := j + 1;
        table.Size();
      }
      ShortestNow(s, View(), p, j, limits);
    }

    method ProjectStep(p: Bytes, e: Entry<O>, ghost deadline: nat, now: nat, reported: seq<Bytes>, projected: nat,
                       ghost s: State<O>, ghost j: nat)
      returns (reported': seq<Bytes>, projected': nat)
      requires Loose() && Projecting(s, View(), p, e, deadline, j, projected, limits)
      requires Exceeded(limits, |index|, projected) && reported == Reported(s, p, j, now)
      modifies table, this`index, this`totals, this`hot, lru, heap
      ensures Loose() && Projecting(s, View(), p, e, deadline, j + 1, projected', limits)
      ensures |index| < |old(index)| && reported' == Reported(s, p, j + 1, now)
    {
      ProjectingNext(s, View(), p, e, deadline, j, projected, limits);
      var charge;
      reported', charge := TrimStep(p, now, reported, s, j);
      projected' := projected - charge;
    }

    /** The eviction loop: as long as a limit would be exceeded with e in place. */
    method ProjectAll(p: Bytes, e: Entry<O>, ghost deadline: nat, now: nat, start: nat, ghost s: State<O>)
      returns (reported: seq<Bytes>, projected: nat, ghost j: nat)
      requires Loose() && Projecting(s, View(), p, e, deadline, 0, start, limits)
      modifies table, this`index, this`totals, this`hot, lru, heap
      ensures Loose() && Projecting(s, View(), p, e, deadline, j, projected, limits)
      ensures !Exceeded(limits, |index|, projected) && reported == Reported(s, p, j, now)
    {
      reported, projected, j := [], start, 0;
      table.Size();
      while Exceeded(limits, table.count, projected)
        invariant Loose() && table.count == |index|
        invariant Projecting(s, View(), p, e, deadline, j, projected, limits)
        invariant reported == Reported(s, p, j, now)
        decreases |index|
      {
        reported, projected := ProjectStep(p, e, deadline, now, reported, projected, s, j);
        j := j + 1;
        table.Size();
      }
    }

    /** Evicts for p, which is about to be replaced by e. */
    method TrimExisting(p: Bytes, e: Entry<O>, ghost deadline: nat, now: nat)
      returns (reported: seq<Bytes>, projected: nat, ghost j: nat)
      requires Loose() && p in index && (limits.maxMemory != 0 ==> e.charge <= limits.maxMemory)
      modifies table, this`index, this`totals, this`hot, lru, heap
      ensures Loose() && p in index && index[p] == old(index)[p] && View() == Evicted(old(View()), p, j)
      ensures Shortest(Put(old(View()), p, e, deadline, LruOn(limits)), p, j, limits)
      ensures j <= |Candidates(old(View()), p)| && projected == Sum(index[p := e]).used
      ensures reported == Reported(old(View()), p, j, now)
    {
      ghost var s := View();
      SumChange(index, p, e);
      var was := Lookup(p);
      var start := totals.used - was.value.charge + e.charge;
      ProjectingStart(s, p, e, deadline, limits);
      reported, projected, j := ProjectAll(p, e, deadline, now, start, s);
      ProjectingEnd(s, View(), p, e, deadline, j, projected, limits);
    }

    /** An entry of the cache gets new contents and deadline and becomes the most recently used one. */
    method Replace(k: Bytes, e: Entry<O>, deadline: nat)
      requires Loose() && k in index
      modifies table, this`index, this`totals, lru, heap
      ensures Loose() && View() == Put(old(View()), k, e, deadline, LruOn(limits))
    {
      SumChange(index, k, e);
      PutKeepsJoint(View(), k, e, deadline, LruOn(limits));
      var was := Lookup(k);
      totals := Plus(Minus(totals, Share(was.value)), Share(e));
      SetEntry(k, e);
      SetDeadline(k, deadline);
      Touch(k);
    }

    method LinkNew(k: Bytes)
      requires lru.Valid() && k !in lru.order
      modifies lru
      ensures lru.Valid() && lru.order == Touched(old(lru.order), k, LruOn(limits))
    {
      WithoutAbsent(lru.order, k);
      if LruOn(limits) { lru.LinkHead(k); }
    }

    method InsertNew(k: Bytes, e: Entry<O>, deadline: nat)
      requires Loose() && k !in index
      modifies table, this`index, this`totals, lru, heap
      ensures Loose() && View() == Put(old(View()), k, e, deadline, LruOn(limits))
    {
      PutKeepsJoint(View(), k, e, deadline, LruOn(limits));
      ghost var after := Put(View(), k, e, deadline, LruOn(limits));
      AddEntry(k, e);
      LinkNew(k);
      SetDeadline(k, deadline);
      assert View() == after;
    }

    method AddEntry(k: Bytes, e: Entry<O>)
      requires Indexed() && totals == Sum(index) && k !in index && (hot.Some? ==> hot.value in index)
      modifies table, this`index, this`totals
      ensures Indexed() && index == old(index)[k := e] && totals == Sum(index) && (hot.Some? ==> hot.value in index)
    {
      SumPut(index, k, e);
      var _ := table.Insert(k, e);
      index := index[k := e];
      totals := Plus(totals, Share(e));
    }

    method StoreExisting(k: Bytes, e: Entry<O>, deadline: nat, now: nat) returns (reported: seq<Bytes>, ghost j: nat)
      requires Valid() && k in index && (limits.maxMemory != 0 ==> e.charge <= limits.maxMemory)
      modifies table, this`index, this`totals, this`hot, lru, heap
      ensures Valid() && Stored(old(View()), View(), k, e, deadline, j, limits)
      ensures reported == Reported(Put(old(View()), k, e, deadline, LruOn(limits)), k, j, now)
    {
      ghost var s := View();
      var projected;
      reported, projected, j := TrimExisting(k, e, deadline, now);
      PutThenEvict(s, k, e, deadline, j, LruOn(limits));
      PutReported(s, k, e, deadline, j, now, LruOn(limits));
      Replace(k, e, deadline);
    }

    method StoreNew(k: Bytes, e: Entry<O>, deadline: nat, now: nat) returns (reported: seq<Bytes>, ghost j: nat)
      requires Valid() && k !in index && (limits.maxMemory != 0 ==> e.charge <= limits.maxMemory)
      modifies table, this`index, this`totals, this`hot, lru, heap
      ensures Valid() && Stored(old(View()), View(), k, e, deadline, j, limits)
      ensures reported == Reported(Put(old(View()), k, e, deadline, LruOn(limits)), k, j, now)
    {
      InsertNew(k, e, deadline);
      reported, j := TrimNew(k, now);
    }

    /** A string whose new value fits the room of the old one: charges stay as recorded. */
    method StoreInPlace(k: Bytes, value: O, deadline: nat)
      requires Valid() && k in index
      modifies table, this`index, this`totals, lru, heap
      ensures Valid() && View() == Put(old(View()), k, old(index)[k].(value := value), deadline, LruOn(limits))
    {
      var was := Lookup(k);
      var e := was.value.(value := value);
      SumChange(index, k, e);
      SameCount(index, k, e);
      Replace(k, e, deadline);
    }

    /**
      Stores an object.  `inPlace` says that both are strings and the new value
      fits the room of the old one.
     */
    method StoreObject(k: Bytes, e: Entry<O>, deadline: nat, preserve: bool, inPlace: bool, now: nat)
      returns (ok: bool, reported: seq<Bytes>, ghost j: nat)
      requires Valid()
      modifies table, this`index, this`totals, this`hot, lru, heap
      ensures Valid() && ok == Accepts(limits, e.charge)
      ensures !ok ==> View() == old(View()) && reported == []
      ensures ok ==>
        var s := Looked(old(View()), k, now);
        var d := if preserve && k in s.index then DeadlineOf(s, k) else deadline;
        if k in s.index && inPlace && s.index[k].kind.StringKind? && e.kind.StringKind?
        then View() == Put(s, k, s.index[k].(value := e.value), d, LruOn(limits)) && reported == []
        else Stored(s, View(), k, e, d, j, limits) && reported == Reported(Put(s, k, e, d, LruOn(limits)), k, j, now)
    {
      reported, j := [], 0;
      if e.charge >= SIZE_MAX || (limits.maxMemory != 0 && e.charge > limits.maxMemory) {
        return false, [], 0;
      }
      ok := true;
      var found := FindLive(k, now);
      if found {
        var d := if preserve then (if k in heap.d then heap.d[k] else 0) else deadline;
        var was := Lookup(k);
        if was.value.kind.StringKind? && e.kind.StringKind? && inPlace {
          StoreInPlace(k, e.value, d);
        } else {
          reported, j := StoreExisting(k, e, d, now);
        }
      } else {
        reported, j := StoreNew(k, e, deadline, now);
      }
    }

    /** An object is changed where it is; charge and items stay as recorded. */
    method Overwrite(k: Bytes, value: O)
      requires Valid() && k in index
      modifies table, this`index
      ensures Valid() && View() == old(View()).(index := old(index)[k := old(index)[k].(value := value)])
    {
      var was := Lookup(k);
      var e := was.value.(value := value);
      SumChange(index, k, e);
      SameCount(index, k, e);
      SetEntry(k, e);
    }

    /**
      The charge and items of an entry whose object was changed in place are
      recorded anew.  Without a deadline of its own no time is read, so that
      what is evicted for it counts as not expired.
     */
    method Recharge(k: Bytes, charge: nat, items: nat, now: nat) returns (ok: bool, reported: seq<Bytes>, ghost j: nat)
      requires Valid() && k in index
      modifies table, this`index, this`totals, this`hot, lru, heap
      ensures Valid() && ok == (!Expired(old(View()), k, now) && Accepts(limits, charge))
      ensures !ok ==> View() == old(View()) && reported == []
      ensures ok ==>
        var s, e := old(View()), old(index)[k].(charge := charge, items := items);
        var d := DeadlineOf(s, k);
        && Stored(s, View(), k, e, d, j, limits)
        && reported == Reported(Put(s, k, e, d, LruOn(limits)), k, j, if d != 0 then now else 0)
    {
      reported, j := [], 0;
      var d := if k in heap.d then heap.d[k] else 0;
      var clock := if d != 0 then now else 0;
      if k in heap.d && clock >= d { return false, [], 0; }
      if charge >= SIZE_MAX || (limits.maxMemory != 0 && charge > limits.maxMemory) { return false, [], 0; }
      ok := true;
      var was := Lookup(k);
      reported, j := StoreExisting(k, was.value.(charge := charge, items := items), d, clock);
    }

    /** A lookup that counts as use. */
    method Get(k: Bytes, now: nat) returns (value: Option<O>)
      requires Valid()
      modifies table, this`index, this`totals, this`hot, lru, heap
      ensures Valid() && value == Found(old(View()), k, now)
      ensures View() == Used(Looked(old(View()), k, now), k, LruOn(limits))
    {
      var found := FindLive(k, now);
      if !found { return None; }
      TouchKeepsJoint(View(), k, LruOn(limits));
      Touch(k);
      var e := Lookup(k);
      value := Some(e.value.value);
    }

    method Delete(k: Bytes, now: nat) returns (deleted: bool)
      requires Valid()
      modifies table, this`index, this`totals, this`hot, lru, heap
      ensures Valid() && deleted == Found(old(View()), k, now).Some?
      ensures View() == if k in old(index) then RemoveKey(old(View()), k) else old(View())
    {
      deleted := FindLive(k, now);
      if deleted {
        FewerFit(View(), k, limits);
        EntryRemove(k);
      }
    }

    /** Sets a deadline; none is a request to delete. */
    method ExpireAt(k: Bytes, deadline: nat, now: nat) returns (done: bool)
      requires Valid()
      modifies table, this`index, this`totals, this`hot, lru, heap
      ensures Valid() && done == Found(old(View()), k, now).Some?
      ensures deadline != 0 ==>
        var s := Looked(old(View()), k, now); View() == if done then s.(d := s.d[k := deadline]) else s
      ensures deadline == 0 ==> View() == if k in old(index) then RemoveKey(old(View()), k) else old(View())
    {
      if deadline == 0 {
        done := Delete(k, now);
        return;
      }
      done := FindLive(k, now);
      if done {
        if k in heap.d { heap.Change(k, deadline); } else { heap.Insert(k, deadline); }
      }
    }

    method Persist(k: Bytes, now: nat) returns (done: bool)
      requires Valid()
      modifies table, this`index, this`totals, this`hot, lru, heap
      ensures Valid() && done == (Found(old(View()), k, now).Some? && k in old(View()).d)
      ensures var s := Looked(old(View()), k, now); View() == if done then s.(d := s.d - {k}) else s
    {
      done := FindLive(k, now);
      done := done && k in heap.d;
      if done { heap.Remove(k); }
    }

    /** The shortcut to the hash object used last answers as the index does. */
    method FindLiveHash(k: Bytes, now: nat) returns (found: bool)
      requires Valid()
      modifies table, this`index, this`totals, this`hot, lru, heap
      ensures Valid() && View() == Looked(old(View()), k, now)
      ensures found == (k in index) == Found(old(View()), k, now).Some?
    {
      if hot == Some(k) {
        if k !in heap.d { return true; }
        if now < heap.d[k] { return true; }
        FewerFit(View(), k, limits);
        EntryRemove(k);
        return false;
      }
      found := FindLive(k, now);
      hot := if found then Some(k) else None;
    }

    /** The entry with the earliest deadline. */
    method Earliest() returns (k: Bytes)
      requires heap.Valid() && |heap.heap| > 0
      ensures k in heap.d && forall x :: x in heap.d ==> heap.d[k] <= heap.d[x]
    {
      k := heap.heap[0];
      forall x | x in heap.d ensures heap.d[k] <= heap.d[x] {
        ExpireHeap.RootIsLeast(heap.heap, heap.d, heap.slot[x]);
      }
    }

    /** Removes the entry with the earliest deadline if that has passed. */
    method ExpireEarliest(now: nat) returns (k: Option<Bytes>)
      requires Valid() && |heap.heap| > 0
      modifies table, this`index, this`totals, this`hot, lru, heap
      ensures Valid()
      ensures k.None? ==> View() == old(View()) && forall x :: x in heap.d ==> heap.d[x] > now
      ensures k.Some? ==> View() == RemoveKey(old(View()), k.value)
      ensures k.Some? ==> k.value in old(heap.d) && old(heap.d)[k.value] <= now
      ensures k.Some? ==> forall x :: x in old(heap.d) ==> old(heap.d)[k.value] <= old(heap.d)[x]
    {
      var first := Earliest();
      if heap.d[first] > now { return None; }
      FewerFit(View(), first, limits);
      EntryRemove(first);
      k := Some(first);
    }

    /** Removes expired entries, earliest deadline first, within a budget, and moves a rehash on. */
    method Maintain(budget: nat, rehashBudget: nat, now: nat) returns (removed: seq<Bytes>)
      requires Valid()
      modifies table, this`index, this`totals, this`hot, lru, heap
      ensures Valid() && |removed| <= budget && View() == RemoveAll(old(View()), removed)
      ensures InDeadlineOrder(old(heap.d), removed, heap.d, now)
      ensures |removed| < budget ==> forall k :: k in heap.d ==> heap.d[k] > now
    {
      removed := ExpireAll(budget, now);
      Rehash(rehashBudget);
    }

    /** A rehash step changes no entry. */
    method Rehash(budget: nat)
      requires Valid()
      modifies table
      ensures Valid()
    {
      var moved;
      ghost var visited;
      moved, visited := table.RehashStep(budget);
    }

    method ExpireAll(budget: nat, now: nat) returns (removed: seq<Bytes>)
      requires Valid()
      modifies table, this`index, this`totals, this`hot, lru, heap
      ensures Valid() && |removed| <= budget && View() == RemoveAll(old(View()), removed)
      ensures InDeadlineOrder(old(heap.d), removed, heap.d, now)
      ensures |removed| < budget ==> forall k :: k in heap.d ==> heap.d[k] > now
    {
      removed := [];
      ghost var s := View();
      while |removed| < budget && |heap.heap| > 0
        invariant Valid() && |removed| <= budget && View() == RemoveAll(s, removed)
        invariant InDeadlineOrder(s.d, removed, heap.d, now)
        decreases budget - |removed|
      {
        ghost var left := heap.d;
        var k := ExpireEarliest(now);
        if k.None? { return; }
        var all := removed + [k.value];
        OneMoreExpired(s.d, removed, left, now, k.value);
        OneMoreRemoved(s, removed, k.value);
        assert heap.d == left - {k.value};
        removed := all;
      }
    }
  }

  function RemoveAll<O>(s: State<O>, keys: seq<Bytes>): State<O>
    decreases |keys|
  {
    if keys == [] then s else RemoveKey(RemoveAll(s, keys[..|keys| - 1]), keys[|keys| - 1])
  }

  lemma OneMoreRemoved<O>(s: State<O>, keys: seq<Bytes>, k: Bytes)
    ensures RemoveAll(s, keys + [k]) == RemoveKey(RemoveAll(s, keys), k)
  {
    assert (keys + [k])[..|keys|] == keys;
  }

  /** Expired keys by increasing deadline, none later than any deadline that is left. */
  ghost predicate InDeadlineOrder(d: map<Bytes, nat>, removed: seq<Bytes>, left: map<Bytes, nat>, now: nat) {
    && (forall i :: 0 <= i < |removed| ==> removed[i] in d && d[removed[i]] <= now)
    && (forall i, j :: 0 <= i < j < |removed| ==> d[removed[i]] <= d[removed[j]])
    && (forall k :: k in left ==> k in d && d[k] == left[k])
    && forall i, k :: 0 <= i < |removed| && k in left ==> d[removed[i]] <= left[k]
  }

  lemma OneMoreExpired(d: map<Bytes, nat>, removed: seq<Bytes>, left: map<Bytes, nat>, now: nat, k: Bytes)
    requires InDeadlineOrder(d, removed, left, now) && k in left && left[k] <= now
    requires forall x :: x in left ==> left[k] <= left[x]
    ensures InDeadlineOrder(d, removed + [k], left - {k}, now)
  {
  }

  predicate Accepts(limits: Limits, charge: nat) {
    charge < SIZE_MAX && (limits.maxMemory != 0 ==> charge <= limits.maxMemory)
  }

  function DeadlineOf<O>(s: State<O>, k: Bytes): nat { if k in s.d then s.d[k] else 0 }

  /** What a lookup returns: never an entry whose deadline has passed. */
  function Found<O>(s: State<O>, k: Bytes, now: nat): Option<O> {
    if k in s.index && !Expired(s, k, now) then Some(s.index[k].value) else None
  }

  function Used<O>(s: State<O>, k: Bytes, lru: bool): State<O> {
    if k in s.index then s.(order := Touched(s.order, k, lru)) else s
  }

  lemma TouchKeepsJoint<O>(s: State<O>, k: Bytes, lru: bool)
    requires Joint(s, lru) && k in s.index
    ensures Joint(Used(s, k, lru), lru)
  {
    WithoutIs(s.order, k);
    ConsDistinct(k, LruList.Without(s.order, k));
  }

  /** The entry is in place and exactly the evictions that the limits demand were made. */
  ghost predicate Stored<O>(s: State<O>, s': State<O>, k: Bytes, e: Entry<O>, deadline: nat, j: nat, limits: Limits) {
    var t := Put(s, k, e, deadline, LruOn(limits));
    Shortest(t, k, j, limits) && s' == Evicted(t, k, j)
  }

  /** The eviction loop for p seen with e in place. */
  ghost predicate Projecting<O>(s: State<O>, now: State<O>, p: Bytes, e: Entry<O>, deadline: nat, j: nat,
      projected: nat, limits: Limits) {
    && p in s.index && p in now.index && now.index[p] == s.index[p] && now == Evicted(s, p, j)
    && projected == Sum(now.index[p := e]).used && (limits.maxMemory != 0 ==> e.charge <= limits.maxMemory)
    && Trimming(Put(s, p, e, deadline, LruOn(limits)), Put(now, p, e, deadline, LruOn(limits)), p, j, limits)
  }

  lemma ProjectingStart<O>(s: State<O>, p: Bytes, e: Entry<O>, deadline: nat, limits: Limits)
    requires Joint(s, LruOn(limits)) && p in s.index && (limits.maxMemory != 0 ==> e.charge <= limits.maxMemory)
    ensures Projecting(s, s, p, e, deadline, 0, Sum(s.index[p := e]).used, limits)
  {
    PutKeepsJoint(s, p, e, deadline, LruOn(limits));
  }

  lemma ProjectingNext<O>(s: State<O>, now: State<O>, p: Bytes, e: Entry<O>, deadline: nat, j: nat, projected: nat,
      limits: Limits)
    requires Projecting(s, now, p, e, deadline, j, projected, limits) && Joint(now, LruOn(limits))
    requires Exceeded(limits, |now.index|, projected)
    ensures LruOn(limits) && Candidates(now, p) != [] && Victim(now, p) in now.index
    ensures |EvictOne(now, p).index| < |now.index| && projected >= now.index[Victim(now, p)].charge
    ensures Projecting(s, EvictOne(now, p), p, e, deadline, j + 1, projected - now.index[Victim(now, p)].charge, limits)
  {
    Projected(now, p, e, deadline, Put(s, p, e, deadline, LruOn(limits)), j, limits);
  }

  lemma ProjectingEnd<O>(s: State<O>, now: State<O>, p: Bytes, e: Entry<O>, deadline: nat, j: nat, projected: nat,
      limits: Limits)
    requires Projecting(s, now, p, e, deadline, j, projected, limits) && Joint(s, LruOn(limits))
    requires !Exceeded(limits, |now.index|, projected)
    ensures Shortest(Put(s, p, e, deadline, LruOn(limits)), p, j, limits) && j <= |Candidates(s, p)|
  {
    SameCount(now.index, p, e);
    PutCandidates(s, p, e, deadline, LruOn(limits));
    ShortestNow(Put(s, p, e, deadline, LruOn(limits)), Put(now, p, e, deadline, LruOn(limits)), p, j, limits);
  }

  lemma SameCount<O>(m: Index<O>, p: Bytes, e: Entry<O>)
    requires p in m
    ensures |m[p := e]| == |m|
  {
    assert m[p := e].Keys == m.Keys;
    assert |m[p := e].Keys| == |m[p := e]| && |m.Keys| == |m|;
  }

  /** One eviction while p is still to be replaced by e, seen with e in place. */
  lemma Projected<O>(s: State<O>, p: Bytes, e: Entry<O>, deadline: nat, t: State<O>, j: nat, limits: Limits)
    requires Joint(s, LruOn(limits)) && p in s.index && (limits.maxMemory != 0 ==> e.charge <= limits.maxMemory)
    requires Trimming(t, Put(s, p, e, deadline, LruOn(limits)), p, j, limits)
    requires Exceeded(limits, |s.index|, Sum(s.index[p := e]).used)
    ensures LruOn(limits) && Candidates(s, p) != [] && Victim(s, p) != p && Victim(s, p) in s.index
    ensures Trimming(t, Put(EvictOne(s, p), p, e, deadline, LruOn(limits)), p, j + 1, limits)
    ensures var v := Victim(s, p);
      && Sum(s.index[p := e]).used >= s.index[v].charge && |s.index - {v}| < |s.index|
      && Sum((s.index - {v})[p := e]).used == Sum(s.index[p := e]).used - s.index[v].charge
  {
    var on := LruOn(limits);
    var next := Put(s, p, e, deadline, on);
    SameCount(s.index, p, e);
    PutKeepsJoint(s, p, e, deadline, on);
    PutCandidates(s, p, e, deadline, on);
    StillCandidates(t, next, p, j, limits);
    PutEvictOne(s, p, e, deadline, on);
    var v := Victim(s, p);
    OneEvicted(s, p, on);
    ProjectedSum(s.index, p, e, v);
    OneKeyLess(s.index, v);
  }

  lemma ProjectedSum<O>(m: Index<O>, p: Bytes, e: Entry<O>, v: Bytes)
    requires v in m && v != p
    ensures Sum(m[p := e]).used >= m[v].charge && Sum((m - {v})[p := e]).used == Sum(m[p := e]).used - m[v].charge
  {
    SumWithout(m[p := e], v);
    assert m[p := e] - {v} == (m - {v})[p := e];
  }

  lemma ShortestNow<O>(s: State<O>, now: State<O>, p: Bytes, j: nat, limits: Limits)
    requires Trimming(s, now, p, j, limits) && Within(now, limits)
    ensures Shortest(s, p, j, limits)
  {
  }

  /** After j evictions, none of them made within the limits. */
  ghost predicate Trimming<O>(s: State<O>, now: State<O>, p: Bytes, j: nat, limits: Limits) {
    && Joint(s, LruOn(limits)) && j <= |Candidates(s, p)| && now == Evicted(s, p, j)
    && forall i :: 0 <= i < j ==> Over(s, p, i, limits)
  }

  /** As long as a limit is exceeded there is somebody left to evict. */
  lemma SomebodyLeft<O>(now: State<O>, p: Bytes, limits: Limits)
    requires Joint(now, LruOn(limits)) && !Within(now, limits)
    requires p in now.index && (limits.maxMemory != 0 ==> now.index[p].charge <= limits.maxMemory)
    ensures LruOn(limits) && Candidates(now, p) != []
  {
    if Candidates(now, p) == [] { RoomForOne(now, p, limits); }
  }

  lemma MoreCandidates<O>(s: State<O>, now: State<O>, p: Bytes, j: nat, limits: Limits)
    requires Trimming(s, now, p, j, limits) && Candidates(now, p) != []
    ensures j < |Candidates(s, p)|
  {
    EvictedCandidates(s, p, j, LruOn(limits));
  }

  lemma TrimmingNext<O>(s: State<O>, now: State<O>, p: Bytes, j: nat, limits: Limits)
    requires Trimming(s, now, p, j, limits) && !Within(now, limits) && j < |Candidates(s, p)|
    ensures Trimming(s, EvictOne(now, p), p, j + 1, limits)
  {
    assert Over(s, p, j, limits);
  }

  lemma StillCandidates<O>(s: State<O>, now: State<O>, p: Bytes, j: nat, limits: Limits)
    requires Trimming(s, now, p, j, limits) && !Within(now, limits) && Joint(now, LruOn(limits))
    requires p in now.index && (limits.maxMemory != 0 ==> now.index[p].charge <= limits.maxMemory)
    ensures LruOn(limits) && Candidates(now, p) != [] && Victim(now, p) != p && Victim(now, p) in now.index
    ensures Trimming(s, EvictOne(now, p), p, j + 1, limits)
  {
    SomebodyLeft(now, p, limits);
    OneEvicted(now, p, true);
    MoreCandidates(s, now, p, j, limits);
    TrimmingNext(s, now, p, j, limits);
  }

  /** The last of the others: the tail, or the one before it if the tail is p itself. */
  lemma LastWithout(order: seq<Bytes>, p: Bytes)
    requires LruList.Distinct(order) && p in order
    ensures var q, n := LruList.Without(order, p), |order|;
      && (q == [] <==> n == 1)
      && (n > 1 ==> q[|q| - 1] == if order[n - 1] == p then order[n - 2] else order[n - 1])
  {
    var i :| 0 <= i < |order| && order[i] == p;
    LruList.WithoutAt(order, i);
  }

  /** Removing an entry keeps the limits. */
  lemma FewerFit<O>(s: State<O>, k: Bytes, limits: Limits)
    requires k in s.index && Within(s, limits)
    ensures Within(RemoveKey(s, k), limits)
  {
    SumWithout(s.index, k);
    OneKeyLess(s.index, k);
  }
}
