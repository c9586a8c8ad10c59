/**
 * The Rust type `u64` and the bitwise operators `!`, `&`, `|` and `^` on it.
 *
 * A `u64` is an integer in [0, 2^64). The bitwise operators are defined bit by
 * bit over the 64 low bits, least significant bit first; what each of them
 * means for the numeric value is proved below.
 */
module Words {

  const LIMIT: nat := 0x1_0000_0000_0000_0000

  /** `u64::MAX` */
  const MAX: nat := LIMIT - 1

  newtype u64 = x: int | 0 <= x < 0x1_0000_0000_0000_0000

  const WIDTH: nat := 64

  function Pow2(n: nat): nat
  {
    if n == 0 then 1 else 2 * Pow2(n - 1)
  }

  lemma {:induction false} Pow2Add(m: nat, n: nat)
    ensures Pow2(m + n) == Pow2(m) * Pow2(n)
  {
    if m > 0 {
      Pow2Add(m - 1, n);
      assert Pow2(m + n) == 2 * Pow2(m - 1 + n);
    }
  }

  lemma Pow2Width()
    ensures Pow2(WIDTH) == LIMIT
  {
    assert Pow2(4) == 16;
    Pow2Add(4, 4);
    Pow2Add(8, 8);
    Pow2Add(16, 16);
    Pow2Add(32, 32);
  }

  /** The two-input gates that `&`, `|` and `^` apply to each pair of bits. */
  datatype Gate = AndGate | OrGate | XorGate

  function GateBit(g: Gate, x: bool, y: bool): bool
  {
    match g
    case AndGate => x && y
    case OrGate => x || y
    case XorGate => x != y
  }

  /** Bit `i` of `a`, bit 0 being the least significant. */
  function Bit(a: nat, i: nat): bool
  {
    if i == 0 then a % 2 == 1 else Bit(a / 2, i - 1)
  }

  /** Bit `i` of a `u64`. */
  function BitAt(a: u64, i: nat): bool
  {
    Bit(a as nat, i)
  }

  /** The low `n` bits of `a`, each one flipped. */
  function Flip(a: nat, n: nat): (r: nat)
    ensures r < Pow2(n)
  {
    if n == 0 then 0 else 2 * Flip(a / 2, n - 1) + (if a % 2 == 1 then 0 else 1)
  }

  /** The low `n` bits of `a` and `b`, combined pairwise by gate `g`. */
  function Combine(g: Gate, a: nat, b: nat, n: nat): (r: nat)
    ensures r < Pow2(n)
  {
    if n == 0 then 0
    else 2 * Combine(g, a / 2, b / 2, n - 1) + (if GateBit(g, a % 2 == 1, b % 2 == 1) then 1 else 0)
  }

  /** Bit 0 of `2 * rest + low` is `low`; the higher bits are those of `rest`. */
  lemma BitOfDouble(rest: nat, low: nat, i: nat)
    requires low < 2
    ensures Bit(2 * rest + low, i) == if i == 0 then low == 1 else Bit(rest, i - 1)
  {
    assert (2 * rest + low) % 2 == low && (2 * rest + low) / 2 == rest;
  }

  lemma {:induction false} CombineBit(g: Gate, a: nat, b: nat, n: nat, i: nat)
    requires i < n
    ensures Bit(Combine(g, a, b, n), i) == GateBit(g, Bit(a, i), Bit(b, i))
  {
    var rest := Combine(g, a / 2, b / 2, n - 1);
    var low := if GateBit(g, a % 2 == 1, b % 2 == 1) then 1 else 0;
    assert Combine(g, a, b, n) == 2 * rest + low;
    BitOfDouble(rest, low, i);
    if i > 0 {
      CombineBit(g, a / 2, b / 2, n - 1, i - 1);
    }
  }

  lemma {:induction false} FlipBit(a: nat, n: nat, i: nat)
    requires i < n
    ensures Bit(Flip(a, n), i) == !Bit(a, i)
  {
    var rest := Flip(a / 2, n - 1);
    var low := if a % 2 == 1 then 0 else 1;
    assert Flip(a, n) == 2 * rest + low;
    BitOfDouble(rest, low, i);
    if i > 0 {
      FlipBit(a / 2, n - 1, i - 1);
    }
  }

  /** Flipping every bit of an `n`-bit number subtracts it from 2^n - 1. */
  lemma {:induction false} FlipValue(a: nat, n: nat)
    requires a < Pow2(n)
    ensures Flip(a, n) == Pow2(n) - 1 - a
  {
    if n > 0 {
      FlipValue(a / 2, n - 1);
    }
  }

  /** An AND keeps only bits of its first input, so it is at most that input. */
  lemma {:induction false} CombineAndBelow(a: nat, b: nat, n: nat)
    requires a < Pow2(n)
    ensures Combine(AndGate, a, b, n) <= a
  {
    if n > 0 {
      CombineAndBelow(a / 2, b / 2, n - 1);
    }
  }

  /** An OR keeps every bit of its first input, so it is at least that input. */
  lemma {:induction false} CombineOrAbove(a: nat, b: nat, n: nat)
    requires a < Pow2(n)
    ensures a <= Combine(OrGate, a, b, n)
  {
    if n > 0 {
      CombineOrAbove(a / 2, b / 2, n - 1);
    }
  }

  /** Every gate is symmetric in its two inputs. */
  lemma {:induction false} CombineCommutes(g: Gate, a: nat, b: nat, n: nat)
    ensures Combine(g, a, b, n) == Combine(g, b, a, n)
  {
    if n > 0 {
      CombineCommutes(g, a / 2, b / 2, n - 1);
    }
  }

  /** XOR with the same mask twice gives back the input. */
  lemma {:induction false} CombineXorTwice(a: nat, b: nat, n: nat)
    requires a < Pow2(n)
    ensures Combine(XorGate, Combine(XorGate, a, b, n), b, n) == a
  {
    if n > 0 {
      var c := Combine(XorGate, a, b, n);
      assert c / 2 == Combine(XorGate, a / 2, b / 2, n - 1);
      CombineXorTwice(a / 2, b / 2, n - 1);
    }
  }

  lemma FlipBits(a: nat)
    ensures forall i: nat :: i < WIDTH ==> Bit(Flip(a, WIDTH), i) == !Bit(a, i)
  {
    forall i: nat | i < WIDTH
      ensures Bit(Flip(a, WIDTH), i) == !Bit(a, i)
    {
      FlipBit(a, WIDTH, i);
    }
  }

  lemma CombineBits(g: Gate, a: nat, b: nat)
    ensures forall i: nat :: i < WIDTH ==> Bit(Combine(g, a, b, WIDTH), i) == GateBit(g, Bit(a, i), Bit(b, i))
  {
    forall i: nat | i < WIDTH
      ensures Bit(Combine(g, a, b, WIDTH), i) == GateBit(g, Bit(a, i), Bit(b, i))
    {
      CombineBit(g, a, b, WIDTH, i);
    }
  }

  /** `!a`: every bit flipped, which for a `u64` is `u64::MAX - a`. */
  function Not(a: u64): (r: u64)
    ensures r as int == MAX - a as int
    ensures forall i: nat :: i < WIDTH ==> BitAt(r, i) == !BitAt(a, i)
  {
    Pow2Width();
    FlipValue(a as nat, WIDTH);
    FlipBits(a as nat);
    Flip(a as nat, WIDTH) as u64
  }

  /** `a & b` */
  function And(a: u64, b: u64): (r: u64)
    ensures forall i: nat :: i < WIDTH ==> BitAt(r, i) == (BitAt(a, i) && BitAt(b, i))
    ensures r <= a && r <= b
  {
    Pow2Width();
    CombineBits(AndGate, a as nat, b as nat);
    CombineAndBelow(a as nat, b as nat, WIDTH);
    CombineAndBelow(b as nat, a as nat, WIDTH);
    CombineCommutes(AndGate, a as nat, b as nat, WIDTH);
    Combine(AndGate, a as nat, b as nat, WIDTH) as u64
  }

  /** `a | b` */
  function Or(a: u64, b: u64): (r: u64)
    ensures forall i: nat :: i < WIDTH ==> BitAt(r, i) == (BitAt(a, i) || BitAt(b, i))
    ensures a <= r && b <= r
  {
    Pow2Width();
    CombineBits(OrGate, a as nat, b as nat);
    CombineOrAbove(a as nat, b as nat, WIDTH);
    CombineOrAbove(b as nat, a as nat, WIDTH);
    CombineCommutes(OrGate, a as nat, b as nat, WIDTH);
    Combine(OrGate, a as nat, b as nat, WIDTH) as u64
  }

  /** `a ^ b` */
  function Xor(a: u64, b: u64): (r: u64)
    ensures forall i: nat :: i < WIDTH ==> BitAt(r, i) == (BitAt(a, i) != BitAt(b, i))
  {
    Pow2Width();
    CombineBits(XorGate, a as nat, b as nat);
    Combine(XorGate, a as nat, b as nat, WIDTH) as u64
  }

  /** `(a ^ b) ^ b == a` */
  lemma XorInvolution(a: u64, b: u64)
    ensures Xor(Xor(a, b), b) == a
  {
    Pow2Width();
    CombineXorTwice(a as nat, b as nat, WIDTH);
  }

  /** `!!a == a` */
  lemma NotInvolution(a: u64)
    ensures Not(Not(a)) == a
  {
  }
}
