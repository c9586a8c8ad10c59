/**
 * The operator closures handed to `f1` and `f2` in `main` (src/main.rs:48-57).
 *
 * Rust checks `+`, `-` and `*` on `u64` for overflow in a debug build (the
 * closure panics) and wraps modulo 2^64 in a release build; the build profile
 * is therefore a parameter. Division and remainder by zero panic in both.
 */
module Ops {
  import opened Wrappers
  import opened Words

  datatype Profile = Debug | Release

  /** Why a closure, the swap or the literal parse panicked. */
  datatype Panic =
    | AddOverflow        // attempt to add with overflow
    | SubOverflow        // attempt to subtract with overflow
    | MulOverflow        // attempt to multiply with overflow
    | DivideByZero       // attempt to divide by zero
    | RemainderByZero    // attempt to calculate the remainder with a divisor of zero
    | SwapOutOfBounds    // index out of bounds in `Vec::swap(0, 1)`
    | ParseIntError      // `unwrap` on the `Err` of `str::parse::<u64>`

  /** An exact result, or what the build profile does when it does not fit in 64 bits. */
  function Checked(p: Profile, exact: int, overflow: Panic): (r: Result<u64, Panic>)
    ensures r.Success? ==> (r.value as int - exact) % LIMIT == 0
    ensures r.Failure? <==> p == Debug && !(0 <= exact < LIMIT)
    ensures r.Failure? ==> r.error == overflow
  {
    if 0 <= exact < LIMIT then Success(exact as u64)
    else if p == Debug then Failure(overflow)
    else Success((exact % LIMIT) as u64)
  }

  /** `|a, b| a + b` */
  function Add(p: Profile, a: u64, b: u64): (r: Result<u64, Panic>)
    ensures r.Success? ==> (r.value as int - a as int - b as int) % LIMIT == 0
    ensures r.Failure? <==> p == Debug && a as int + b as int > MAX
    ensures r.Failure? ==> r.error == AddOverflow
  {
    Checked(p, a as int + b as int, AddOverflow)
  }

  /** `|a, b| a - b`: `a` is the left operand. */
  function Sub(p: Profile, a: u64, b: u64): (r: Result<u64, Panic>)
    ensures r.Success? ==> (r.value as int + b as int - a as int) % LIMIT == 0
    ensures r.Failure? <==> p == Debug && a < b
    ensures r.Failure? ==> r.error == SubOverflow
  {
    Checked(p, a as int - b as int, SubOverflow)
  }

  /** `|a, b| a * b` */
  function Mul(p: Profile, a: u64, b: u64): (r: Result<u64, Panic>)
    ensures r.Success? ==> (r.value as int - a as int * b as int) % LIMIT == 0
    ensures r.Failure? <==> p == Debug && a as int * b as int > MAX
    ensures r.Failure? ==> r.error == MulOverflow
  {
    Checked(p, a as int * b as int, MulOverflow)
  }

  /** `|a, b| a / b`: the quotient rounded down; panics when `b` is 0. */
  function Div(a: u64, b: u64): (r: Result<u64, Panic>)
    ensures r.Failure? <==> b == 0
    ensures r.Failure? ==> r.error == DivideByZero
    ensures r.Success? ==> r.value as int * b as int <= a as int < (r.value as int + 1) * b as int
  {
    if b == 0 then Failure(DivideByZero) else Success(a / b)
  }

  /** `|a, b| a % b`: panics when `b` is 0; with `/` it splits `a` into `b`s and a rest. */
  function Rem(a: u64, b: u64): (r: Result<u64, Panic>)
    ensures r.Failure? <==> b == 0
    ensures r.Failure? ==> r.error == RemainderByZero
    ensures r.Success? ==> r.value < b && Div(a, b).value as int * b as int + r.value as int == a as int
  {
    if b == 0 then Failure(RemainderByZero) else Success(a % b)
  }

  /** `x - y` below zero: a debug build panics, a release build wraps to `2^64 + x - y`. */
  lemma SubWraps(p: Profile, x: u64, y: u64)
    ensures Sub(p, x, y) == if x >= y then Success(x - y)
                            else if p == Debug then Failure(SubOverflow)
                            else Success((LIMIT + x as int - y as int) as u64)
  {
    if x < y && p == Release {
      var d := x as int - y as int;
      assert d % LIMIT == LIMIT + d;
    }
  }

  /** Under either profile, subtracting what was added gives the input back. */
  lemma SubUndoesAdd(p: Profile, a: u64, b: u64)
    requires Add(p, a, b).Success?
    ensures Sub(p, Add(p, a, b).value, b) == Success(a)
  {
    var s := Add(p, a, b).value;
    var d := Sub(p, s, b);
    assert d.Success? by {
      if p == Debug {
        assert s as int == a as int + b as int;
      }
    }
    var k := (d.value as int + b as int - s as int) / LIMIT;
    var j := (s as int - a as int - b as int) / LIMIT;
    assert d.value as int - a as int == (k + j) * LIMIT;
  }
}
