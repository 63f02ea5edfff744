/**
  The order of an ordered set: by score, then by member bytes.
 */
module Order {
  import opened Bytes

  /** A score that is not NaN; both zeros of a double are Finite(0.0). */
  datatype Score = NegInf | Finite(value: real) | PosInf

  datatype Item = Item(score: Score, member: Bytes)

  predicate ScoreLess(a: Score, b: Score) {
    match (a, b)
    case (Finite(x), Finite(y)) => x < y
    case (NegInf, _) => !b.NegInf?
    case (_, PosInf) => !a.PosInf?
    case _ => false
  }

  /** Byte by byte, and the shorter string first when one is a prefix of the other. */
  predicate BytesLess(a: Bytes, b: Bytes) {
    if b == [] then false
    else if a == [] then true
    else if a[0] != b[0] then a[0] < b[0]
    else BytesLess(a[1..], b[1..])
  }

  predicate Less(a: Item, b: Item) {
    ScoreLess(a.score, b.score) || (a.score == b.score && BytesLess(a.member, b.member))
  }

  lemma {:induction false} BytesTotal(a: Bytes, b: Bytes)
    ensures a != b ==> BytesLess(a, b) || BytesLess(b, a)
    ensures !(BytesLess(a, b) && BytesLess(b, a))
    ensures !BytesLess(a, a)
  {
    if a != [] {
      BytesTotal(a[1..], a[1..]);
    }
    if a != [] && b != [] && a[0] == b[0] {
      BytesTotal(a[1..], b[1..]);
      assert a == [a[0]] + a[1..] && b == [b[0]] + b[1..];
    }
  }

  lemma {:induction false} BytesTransitive(a: Bytes, b: Bytes, c: Bytes)
    requires BytesLess(a, b) && BytesLess(b, c)
    ensures BytesLess(a, c)
  {
    if a != [] && a[0] == b[0] == c[0] {
      BytesTransitive(a[1..], b[1..], c[1..]);
    }
  }

  /** `Less` is a strict total order. */
  lemma LessTotal(a: Item, b: Item)
    ensures a != b ==> Less(a, b) || Less(b, a)
    ensures !(Less(a, b) && Less(b, a))
    ensures !Less(a, a)
  {
    BytesTotal(a.member, b.member);
  }

  lemma LessTransitive(a: Item, b: Item, c: Item)
    requires Less(a, b) && Less(b, c)
    ensures Less(a, c)
  {
    if a.score == b.score == c.score {
      BytesTransitive(a.member, b.member, c.member);
    }
  }

  predicate Sorted(s: seq<Item>) {
    forall i, j :: 0 <= i < j < |s| ==> Less(s[i], s[j])
  }

  /** `now` is `was` with n put in at some position. */
  ghost predicate InsertedInto<T>(was: seq<T>, n: T, now: seq<T>) {
    exists k :: 0 <= k <= |was| && now == was[..k] + [n] + was[k..]
  }

  /** `now` is `was` without its n. */
  ghost predicate RemovedFrom<T>(was: seq<T>, n: T, now: seq<T>) {
    exists k :: 0 <= k < |was| && was[k] == n && now == was[..k] + was[k + 1..]
  }
}
