/**
  CRC-64 as in annex B of ECMA-182: polynomial 0x42f0e1eba9ea3693, initial
  value 0, most significant bit first.

  The register is its 64 bits, the most significant one first.
 */
module Crc64 {
  import opened Bytes

  type Register = c: seq<bool> | |c| == 64 witness seq(64, _ => false)

  /** The lowest w bits of a number, the most significant one first. */
  function BitsOf(n: nat, w: nat): (r: seq<bool>)
    ensures |r| == w
    decreases w
  {
    if w == 0 then [] else BitsOf(n / 2, w - 1) + [n % 2 == 1]
  }

  /** The number with these bits. */
  function Value(bits: seq<bool>): nat
    decreases |bits|
  {
    if bits == [] then 0 else 2 * Value(bits[..|bits| - 1]) + if bits[|bits| - 1] then 1 else 0
  }

  const POLYNOMIAL: Register := BitsOf(0x42f0e1eba9ea3693, 64)

  function Zeros(n: nat): (r: seq<bool>)
    ensures |r| == n && forall i :: 0 <= i < n ==> !r[i]
  {
    seq(n, _ => false)
  }

  function Xor(a: Register, b: Register): (r: Register)
    ensures forall i :: 0 <= i < 64 ==> r[i] == (a[i] != b[i])
  {
    seq(64, i requires 0 <= i < 64 => a[i] != b[i])
  }

  /** One bit of input has been taken in: shift, and reduce if the top bit falls out. */
  function Shift(c: Register): Register {
    var moved: Register := c[1..] + [false];
    if c[0] then Xor(moved, POLYNOMIAL) else moved
  }

  function Power(f: Register -> Register, x: Register, n: nat): Register
    decreases n
  {
    if n == 0 then x else Power(f, f(x), n - 1)
  }

  /** The eight bits of a byte. */
  function Eight(c: Register): Register { Power(Shift, c, 8) }

  /** A byte in the top eight bits. */
  function Octet(b: byte): Register { BitsOf(b, 8) + Zeros(56) }

  function Fold(s: Register -> Register, c: Register, data: Bytes): Register
    decreases |data|
  {
    if data == [] then c else Fold(s, s(Xor(c, Octet(data[0]))), data[1..])
  }

  function Update(c: Register, data: Bytes): Register { Fold(Eight, c, data) }

  /** The checksum of a payload. */
  function Checksum(data: Bytes): Register { Update(Zeros(64), data) }

  // ------------------------------------------------------------------ one byte

  ghost predicate Linear(f: Register -> Register) { forall x, y :: f(Xor(x, y)) == Xor(f(x), f(y)) }

  ghost predicate Injective(f: Register -> Register) { forall x, y :: f(x) == f(y) ==> x == y }

  /** The register moved down by one byte. */
  function Down(z: Register): Register { Zeros(8) + z[..56] }

  ghost predicate MovesUp(f: Register -> Register) { forall z: Register :: z[56..] == Zeros(8) ==> f(Down(z)) == z }

  lemma {:induction false} PowerLinear(f: Register -> Register, x: Register, y: Register, n: nat)
    requires Linear(f)
    ensures Power(f, Xor(x, y), n) == Xor(Power(f, x, n), Power(f, y, n))
    decreases n
  {
    if n > 0 { PowerLinear(f, f(x), f(y), n - 1); }
  }

  lemma {:induction false} PowerInjective(f: Register -> Register, x: Register, y: Register, n: nat)
    requires Injective(f) && Power(f, x, n) == Power(f, y, n)
    ensures x == y
    decreases n
  {
    if n > 0 { PowerInjective(f, f(x), f(y), n - 1); }
  }

  lemma ShiftAt(c: Register, i: nat)
    requires i < 64
    ensures Shift(c)[i] == ((i < 63 && c[i + 1]) != (c[0] && POLYNOMIAL[i]))
  {
  }

  lemma ShiftLinear(x: Register, y: Register)
    ensures Shift(Xor(x, y)) == Xor(Shift(x), Shift(y))
  {
    forall i | 0 <= i < 64 ensures Shift(Xor(x, y))[i] == Xor(Shift(x), Shift(y))[i] {
      ShiftAt(x, i);
      ShiftAt(y, i);
      ShiftAt(Xor(x, y), i);
    }
  }

  lemma OddPolynomial()
    ensures POLYNOMIAL[63]
  {
    assert BitsOf(0x42f0e1eba9ea3693, 64)[63] == (0x42f0e1eba9ea3693 % 2 == 1);
  }

  /** Shifting loses nothing: the polynomial's low bit tells whether it was added. */
  lemma ShiftInjective(x: Register, y: Register)
    requires Shift(x) == Shift(y)
    ensures x == y
  {
    OddPolynomial();
    ShiftAt(x, 63);
    ShiftAt(y, 63);
    forall i | 0 < i < 64 ensures x[i] == y[i] {
      ShiftAt(x, i - 1);
      ShiftAt(y, i - 1);
    }
  }

  /** Shifting a register that begins with zeros only moves it. */
  lemma {:induction false} MoveZeros(y: seq<bool>, k: nat, done: nat)
    requires |y| + k + done == 64
    ensures Power(Shift, Zeros(k) + y + Zeros(done), k) == y + Zeros(done + k)
    decreases k
  {
    if k == 0 {
      assert Zeros(0) + y == y;
    } else {
      var c: Register := Zeros(k) + y + Zeros(done);
      assert Shift(c) == Zeros(k - 1) + y + Zeros(done + 1);
      MoveZeros(y, k - 1, done + 1);
    }
  }

  lemma EightIs()
    ensures Linear(Eight) && Injective(Eight) && MovesUp(Eight)
  {
    forall x, y ensures Shift(Xor(x, y)) == Xor(Shift(x), Shift(y)) { ShiftLinear(x, y); }
    assert Linear(Shift);
    forall x, y ensures Eight(Xor(x, y)) == Xor(Eight(x), Eight(y)) { PowerLinear(Shift, x, y, 8); }
    forall x, y | Shift(x) == Shift(y) ensures x == y { ShiftInjective(x, y); }
    assert Injective(Shift);
    forall x, y | Eight(x) == Eight(y) ensures x == y { PowerInjective(Shift, x, y, 8); }
    forall z: Register | z[56..] == Zeros(8) ensures Eight(Down(z)) == z {
      MoveZeros(z[..56], 8, 0);
      assert z == z[..56] + z[56..] && Zeros(8) + z[..56] + Zeros(0) == Down(z);
    }
  }

  // ------------------------------------------------------------ whole messages

  lemma {:induction false} FoldAppend(s: Register -> Register, c: Register, a: Bytes, b: Bytes)
    ensures Fold(s, c, a + b) == Fold(s, Fold(s, c, a), b)
    decreases |a|
  {
    if a == [] {
      assert a + b == b;
    } else {
      assert (a + b)[1..] == a[1..] + b;
      FoldAppend(s, s(Xor(c, Octet(a[0]))), a[1..], b);
    }
  }

  /** The checksum kept piece by piece is the checksum of the whole. */
  lemma Incremental(c: Register, a: Bytes, b: Bytes)
    ensures Update(c, a + b) == Update(Update(c, a), b)
  {
    FoldAppend(Eight, c, a, b);
  }

  lemma XorCancels(a: Register, b: Register, x: Register)
    requires Xor(a, x) == Xor(b, x)
    ensures a == b
  {
    forall i | 0 <= i < 64 ensures a[i] == b[i] {
      assert Xor(a, x)[i] == Xor(b, x)[i];
    }
  }

  /** Equal input cannot bring two different registers together. */
  lemma {:induction false} FoldInjective(s: Register -> Register, c: Register, d: Register, data: Bytes)
    requires Injective(s) && Fold(s, c, data) == Fold(s, d, data)
    ensures c == d
    decreases |data|
  {
    if data != [] {
      var x := Octet(data[0]);
      FoldInjective(s, s(Xor(c, x)), s(Xor(d, x)), data[1..]);
      XorCancels(c, d, x);
    }
  }

  /** Up to eight bytes as one word, the first byte on top. */
  function Word(w: Bytes): Register
    decreases |w|
  {
    if w == [] then Zeros(64) else Xor(Octet(w[0]), Down(Word(w[1..])))
  }

  lemma {:induction false} WordEndsInZeros(w: Bytes)
    requires |w| <= 8
    ensures forall i :: 8 * |w| <= i < 64 ==> !Word(w)[i]
    decreases |w|
  {
    if w != [] {
      WordEndsInZeros(w[1..]);
      forall i | 8 * |w| <= i < 64 ensures !Word(w)[i] {
        assert Down(Word(w[1..]))[i] == Word(w[1..])[i - 8];
      }
    }
  }

  lemma WordIsClean(w: Bytes)
    requires |w| < 8
    ensures Word(w)[56..] == Zeros(8)
  {
    WordEndsInZeros(w);
  }

  lemma XorAssociates(a: Register, b: Register, c: Register)
    ensures Xor(Xor(a, b), c) == Xor(a, Xor(b, c))
  {
  }

  /** Taking in up to eight bytes is adding their word, then shifting. */
  lemma {:induction false} FoldIsWord(s: Register -> Register, c: Register, w: Bytes)
    requires Linear(s) && MovesUp(s) && |w| <= 8
    ensures Fold(s, c, w) == Power(s, Xor(c, Word(w)), |w|)
    decreases |w|
  {
    if w == [] {
      assert Xor(c, Zeros(64)) == c;
    } else {
      var x, rest := Octet(w[0]), Word(w[1..]);
      FoldIsWord(s, s(Xor(c, x)), w[1..]);
      WordIsClean(w[1..]);
      XorAssociates(c, x, Down(rest));
      assert s(Xor(Xor(c, x), Down(rest))) == Xor(s(Xor(c, x)), s(Down(rest)));
    }
  }

  lemma {:induction false} BitsInjective(m: nat, n: nat, w: nat)
    requires BitsOf(m, w) == BitsOf(n, w) && m < Pow2(w) && n < Pow2(w)
    ensures m == n
    decreases w
  {
    if w > 0 {
      var a, b := BitsOf(m, w), BitsOf(n, w);
      assert a[..w - 1] == BitsOf(m / 2, w - 1) && b[..w - 1] == BitsOf(n / 2, w - 1);
      assert a[w - 1] == (m % 2 == 1) && b[w - 1] == (n % 2 == 1);
      BitsInjective(m / 2, n / 2, w - 1);
    }
  }

  function Pow2(w: nat): nat { if w == 0 then 1 else 2 * Pow2(w - 1) }

  lemma BytePower()
    ensures Pow2(8) == 256
  {
  }

  /** A word tells its first byte, and the word of the others. */
  lemma WordSplits(v: Bytes, w: Bytes)
    requires 0 < |v| == |w| <= 8 && Word(v) == Word(w)
    ensures v[0] == w[0] && Word(v[1..]) == Word(w[1..])
  {
    forall i | 0 <= i < 8 ensures BitsOf(v[0], 8)[i] == BitsOf(w[0], 8)[i] {
      assert Word(v)[i] == BitsOf(v[0], 8)[i] && Word(w)[i] == BitsOf(w[0], 8)[i];
    }
    BytePower();
    BitsInjective(v[0], w[0], 8);
    WordEndsInZeros(v[1..]);
    WordEndsInZeros(w[1..]);
    var a, b := Word(v[1..]), Word(w[1..]);
    forall i | 0 <= i < 64 ensures a[i] == b[i] {
      if i < 56 {
        assert Word(v)[i + 8] == a[i] && Word(w)[i + 8] == b[i];
      }
    }
  }

  lemma {:induction false} WordInjective(v: Bytes, w: Bytes)
    requires |v| == |w| <= 8 && Word(v) == Word(w)
    ensures v == w
    decreases |v|
  {
    if v != [] {
      WordSplits(v, w);
      WordInjective(v[1..], w[1..]);
      assert v == [v[0]] + v[1..] && w == [w[0]] + w[1..];
    }
  }

  /** Two different windows of up to eight bytes between the same bytes give different checksums. */
  lemma WindowDetected(a: Bytes, v: Bytes, w: Bytes, z: Bytes)
    requires |v| == |w| <= 8 && v != w
    ensures Checksum(a + v + z) != Checksum(a + w + z)
  {
    EightIs();
    var c := Checksum(a);
    Incremental(Zeros(64), a, v);
    Incremental(Zeros(64), a, w);
    Incremental(Zeros(64), a + v, z);
    Incremental(Zeros(64), a + w, z);
    if Checksum(a + v + z) == Checksum(a + w + z) {
      FoldInjective(Eight, Update(c, v), Update(c, w), z);
      SameWindows(c, v, w);
    }
  }

  lemma SameWindows(c: Register, v: Bytes, w: Bytes)
    requires |v| == |w| <= 8 && Update(c, v) == Update(c, w)
    ensures v == w
  {
    EightIs();
    FoldIsWord(Eight, c, v);
    FoldIsWord(Eight, c, w);
    PowerInjective(Eight, Xor(c, Word(v)), Xor(c, Word(w)), |v|);
    assert Xor(c, Word(v)) == Xor(Word(v), c) && Xor(c, Word(w)) == Xor(Word(w), c);
    XorCancels(Word(v), Word(w), c);
    WordInjective(v, w);
  }

  lemma Thirds(p: Bytes, from: nat, to: nat)
    requires from <= to <= |p|
    ensures p == p[..from] + p[from..to] + p[to..]
  {
  }

  /** Damage within eight consecutive bytes always changes the checksum. */
  lemma BurstDetected(p: Bytes, q: Bytes, from: nat)
    requires |p| == |q| && p != q && from <= |p|
    requires p[..from] == q[..from]
    requires from + 8 <= |p| ==> p[from + 8..] == q[from + 8..]
    ensures Checksum(p) != Checksum(q)
  {
    var to := if from + 8 <= |p| then from + 8 else |p|;
    Thirds(p, from, to);
    Thirds(q, from, to);
    assert p[to..] == q[to..];
    WindowDetected(p[..from], p[from..to], q[from..to], p[to..]);
  }

  // -------------------------------------------------------------- the program

  /** The loops over bytes and bits. */
  method Crc64Update(crc: Register, data: Bytes) returns (r: Register)
    ensures r == Update(crc, data)
  {
    r := crc;
    var index := 0;
    assert data[0..] == data;
    while index < |data|
      invariant 0 <= index <= |data| && Update(r, data[index..]) == Update(crc, data)
    {
      assert data[index..][1..] == data[index + 1..];
      r := Xor(r, Octet(data[index]));
      ghost var start := r;
      var bit := 0;
      while bit < 8
        invariant 0 <= bit <= 8 && Power(Shift, r, 8 - bit) == Power(Shift, start, 8)
      {
        r := Shift(r);
        bit := bit + 1;
      }
      index := index + 1;
    }
  }
}
