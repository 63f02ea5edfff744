/**
  Scores as eight bytes: the binary64 format of IEEE 754, section 3.4, over the
  reals.  Both zeros are the number 0.
 */
module Double {
  import opened Bytes
  import opened Order

  const U64: nat := 0x1_0000_0000_0000_0000
  const SIGN: nat := 0x8000_0000_0000_0000
  const UNIT: nat := 0x10_0000_0000_0000
  const EXPONENTS: nat := 2048
  const BIAS: nat := 1075

  /** m times two to the power of e - BIAS. */
  function Scaled(m: nat, e: nat): real {
    if e >= BIAS then m as real * Power(e - BIAS) else m as real / Power(BIAS - e)
  }

  function Power(n: nat): (r: real)
    ensures r > 0.0
  {
    if n == 0 then 1.0 else 2.0 * Power(n - 1)
  }

  /** The score that a pattern stands for; None for a pattern that is not a number. */
  function Decode(bits: nat): Option<Score> {
    var exponent, fraction := (bits / UNIT) % EXPONENTS, bits % UNIT;
    var negative := bits >= SIGN;
    if bits >= U64 then None
    else if exponent == EXPONENTS - 1 then
      if fraction != 0 then None else Some(if negative then NegInf else PosInf)
    else
      var x := if exponent == 0 then Scaled(fraction, 1) else Scaled(UNIT + fraction, exponent);
      Some(Finite(if negative then -x else x))
  }

  /** The scores that there are. */
  ghost predicate IsDouble(s: Score) { exists bits: nat :: bits < U64 && Decode(bits) == Some(s) }

  function Negated(s: Score): Score {
    match s
    case NegInf => PosInf
    case PosInf => NegInf
    case Finite(x) => Finite(-x)
  }

  /** The first bit is the sign, and nothing else depends on it. */
  lemma SignFlips(bits: nat)
    requires bits < SIGN
    ensures Decode(bits).None? <==> Decode(bits + SIGN).None?
    ensures Decode(bits).Some? ==> Decode(bits + SIGN) == Some(Negated(Decode(bits).value))
  {
    HighBits(bits);
  }

  lemma HighBits(bits: nat)
    ensures ((bits + SIGN) / UNIT) % EXPONENTS == (bits / UNIT) % EXPONENTS && (bits + SIGN) % UNIT == bits % UNIT
  {
    assert SIGN == EXPONENTS * UNIT;
    assert (bits + SIGN) / UNIT == bits / UNIT + EXPONENTS && (bits + SIGN) % UNIT == bits % UNIT;
  }

  ghost function BitsOf(s: Score): (bits: nat)
    requires IsDouble(s)
    ensures bits < U64 && Decode(bits) == Some(s)
  {
    var bits: nat :| bits < U64 && Decode(bits) == Some(s);
    bits
  }
}
