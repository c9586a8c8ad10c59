# hc: a reverse-Polish stack machine over `u64`, modelled in Dafny

`hc` is a one-file Rust program (`src/main.rs`). It has a `Stack` that wraps a
`Vec<u64>` with `push` and `pop`, and two combinators: `f2` applies a
two-operand closure and `f1` a one-operand closure to the top of the stack.
`main` splits the fixed program `"100 200 + 5 * 10 / 90 gcd"` on single
spaces and dispatches each token:

- an arithmetic, bitwise or `gcd` operator goes through `f2`, or through `f1` for `not`;
- `swp`, `clr` and `rand` act on the vector directly;
- any other token is parsed as a decimal `u64` and pushed.

At the end `main` prints the value it pops. `gcd` is Euclid's algorithm as a
`while` loop.

The model has these modules:

- `Words` (words.dfy): `u64` as a newtype over `[0, 2^64)`.
  - `!`, `&`, `|` and `^` are defined bit by bit over the 64 low bits.
  - Their numeric meaning is proved (`!a == u64::MAX - a`, `a & b <= a`, and so on).
- `Ops` (ops.dfy): the operator closures.
  - `+`, `-` and `*` depend on the build profile, which is a parameter. A debug build panics on overflow; a release build wraps modulo 2^64.
  - `/` and `%` panic on a zero divisor.
- `Euclid` (euclid.dfy): divisibility and the gcd.
  - `GcdOf` is, by recursion, the value `fn gcd` returns when `f2` calls it.
  - `Gcd` is the loop of `fn gcd`, proved equal to `GcdOf` and to be the greatest common divisor.
- `Decimal` (decimal.dfy): the two library calls `main` relies on, as specification functions, and the `{}` formatting of the printed value.
  - `str::split(' ')` keeps the empty pieces and is proved to round-trip with `Join`.
  - `str::parse::<u64>` accepts an optional `+` and then decimal digits whose value fits in 64 bits.
- `Machine` (machine.dfy): the machine as functions on values.
  - A state is `Running(stack)` or `Halted(fault)`. The fault is the underflow `exit(1)` or a named panic.
  - `Step` is one arm of the `match`, `Run` the `for` loop, and `Evaluate` the whole of `main`.
  - The properties of single tokens and of runs are stated here.
- `Rpn` (stack.dfy): the imperative code.
  - The class `Stack` has a `seq<u64>` field whose last element is the top. Its methods `Push`, `Pop`, `F1` and `F2` each correspond to the Rust method of the same name.
  - `Exec` is the `match` and `Evaluate` is `main`'s loop.
  - `Push` and `Pop` state their new stack and result directly. `F1`, `F2`, `Exec` and `Evaluate` are each proved equal to a `Machine` function (`Apply1`, `Apply2`, `Step`, `Evaluate`).
- `Program` (program.dfy): the fixed program splits into nine tokens and evaluates to 30 under either build profile.

In this program:

- literals are decimal;
- `swp` exchanges the two bottom entries (`Vec::swap(0, 1)`) and panics on fewer than two items;
- underflow always ends the program with status 1;
- division or remainder by zero panics;
- `rand` pushes the constant 42;
- there are no shift or rotate operators.

## Model

| member | source | states |
|---|---|---|
| Rpn.Stack.constructor | src/main.rs:7-11 | a new stack is empty |
| Rpn.Stack.Push | src/main.rs:26-28 | `x` becomes the new top, the length grows by one and every earlier element is unchanged |
| Rpn.Stack.Pop | src/main.rs:30-37 | on a non-empty stack, returns the last element and removes exactly it; on an empty stack, fails with StackUnderflow and leaves the stack empty |
| Rpn.Stack.F2 | src/main.rs:13-18 | the new state is `Apply2` of the old stack: `func(second-from-top, top)` replaces the top two, fewer than two items underflow, a panicking closure halts |
| Rpn.Stack.F1 | src/main.rs:20-24 | the new state is `Apply1` of the old stack: `func(top)` replaces the top, an empty stack underflows |
| Rpn.Exec | src/main.rs:47-65 | executing one token on the stack yields exactly the state `Machine.Step` gives |
| Rpn.Evaluate | src/main.rs:41-69 | the loop over the split tokens followed by the final pop returns exactly `Machine.Evaluate`; the invariant is that the stack equals the run of the tokens so far |
| Euclid.Gcd | src/main.rs:71-79 | the loop terminates (`b` decreases) and returns the greatest common divisor of `a` and `b`, equal to `GcdOf(a, b)` |
| Euclid.GcdOf | src/main.rs:71-79 | the value `gcd` returns, by recursion on `b` (no contract of its own; `GcdOfIsGcd`, `GcdWithZero` and `Gcd` state it) |
| Euclid.GcdOfIsGcd | src/main.rs:71-79 | the recursive gcd divides both inputs, and every common divisor divides it |
| Euclid.GcdWithZero | src/main.rs:71-79 | `gcd(a, 0) == a` and `gcd(0, b) == b` |
| Euclid.GcdUnique | src/main.rs:71-79 | two greatest common divisors of the same pair are equal |
| Ops.Checked | src/main.rs:48-50 | an exact result below 2^64 is returned; otherwise a debug build panics and a release build wraps modulo 2^64 |
| Ops.Add | src/main.rs:48 | `a + b` is congruent to the sum modulo 2^64 and panics exactly when the build is debug and the sum exceeds `u64::MAX` |
| Ops.Sub | src/main.rs:49 | `a - b` is congruent to the difference modulo 2^64 and panics exactly when the build is debug and `a < b` |
| Ops.Mul | src/main.rs:50 | `a * b` is congruent to the product modulo 2^64 and panics exactly when the build is debug and the product exceeds `u64::MAX` |
| Ops.Div | src/main.rs:51 | panics exactly when `b == 0`; otherwise the result `q` satisfies `q*b <= a < (q+1)*b` |
| Ops.Rem | src/main.rs:56 | panics exactly when `b == 0`; otherwise the result is below `b` and `quotient*b + remainder == a` |
| Ops.SubWraps | src/main.rs:49 | `x - y` is `x - y` when `x >= y`; below zero a debug build panics and a release build wraps to `2^64 + x - y` |
| Ops.SubUndoesAdd | src/main.rs:48-49 | under either profile, when `a + b` does not panic, subtracting `b` from it gives back `a` |
| Words.Not | src/main.rs:52 | `!a` flips each of the 64 bits and equals `u64::MAX - a` |
| Words.And | src/main.rs:53 | bit `i` of `a & b` is set exactly when it is set in both; the result is at most `a` and at most `b` |
| Words.Or | src/main.rs:54 | bit `i` of the bitwise or of `a` and `b` is set exactly when it is set in either; the result is at least `a` and at least `b` |
| Words.Xor | src/main.rs:55 | bit `i` of `a ^ b` is set exactly when the inputs differ there |
| Words.XorInvolution | src/main.rs:55 | `(a ^ b) ^ b == a` |
| Words.NotInvolution | src/main.rs:52 | `!!a == a` |
| Words.FlipValue | src/main.rs:52 | flipping the low `n` bits of `a < 2^n` gives `2^n - 1 - a` |
| Words.CombineXorTwice | src/main.rs:55 | xor-ing twice with the same value over `n` bits restores the value |
| Words.CombineCommutes | src/main.rs:53-55 | the bitwise and, or and xor are commutative |
| Machine.ExitStatus | src/main.rs:30-37 | a halted run never exits with 0, and exits with 1 exactly on underflow (the `exit(1)` in `pop`); every panic exits with 101 |
| Machine.Classify | src/main.rs:47-65 | a token that takes the literal arm is carried along unchanged; which tokens do so is stated by `ClassifyLiteral` and `ClassifyBinary` |
| Machine.ClassifyLiteral | src/main.rs:47-65 | a token reaches the literal arm exactly when it is not one of the thirteen operator names, and it is carried along unchanged |
| Machine.ClassifyBinary | src/main.rs:48-57 | a token selects a two-operand operator exactly when it is that operator's name |
| Machine.Operator | src/main.rs:48-57 | the closure of each two-operand token (no contract of its own; its meaning is stated by `OperandOrder`, `SubtractsTopFromBelow`, `DividesBelowByTop`, `RemainderOfBelowByTop` and the `Ops` and `Words` functions it calls) |
| Machine.Apply2 | src/main.rs:13-18 | `f2` on a value stack (no contract of its own; `Apply2Pair`, `BinaryUnderflow` and `Rpn.Stack.F2` state it) |
| Machine.Apply1 | src/main.rs:20-24 | `f1` on a value stack (no contract of its own; `NotComplementsTop`, `BinaryUnderflow` and `Rpn.Stack.F1` state it) |
| Machine.SwapBottomTwo | src/main.rs:58 | `Vec::swap(0, 1)` (no contract of its own; `SwapExchangesBottom` and `SwapTwice` state it) |
| Machine.PushLiteral | src/main.rs:61-64 | `cmd.parse().unwrap()` then `push` (no contract of its own; `LiteralArm` states it for every token) |
| Machine.LiteralArm | src/main.rs:61-64 | every token that names no operator is parsed as a `u64` and pushed, or panics in `unwrap` when it does not parse |
| Machine.Step | src/main.rs:47-65 | one arm of the `match` (no contract of its own; the single-token lemmas below and `Rpn.Exec` state it) |
| Machine.Run | src/main.rs:46-66 | the `for` loop (no contract of its own; `HaltedStays`, `RunAppend`, `RunOneMore`, `RunFirst`, `RunTwo` and `Rpn.Evaluate` state it) |
| Machine.Evaluate | src/main.rs:41-69 | `main` for any program text (no contract of its own; `EvaluateRunning`, `EvaluateHalted`, `Rpn.Evaluate` and `Program.ProgramPrints30` state it) |
| Machine.EvaluateRunning | src/main.rs:68 | after a run that leaves the machine running, `main` prints the top, or ends in underflow on an empty stack |
| Machine.EvaluateHalted | src/main.rs:33-36 | after a run that halts, the fault is the outcome of `main` |
| Machine.HaltedStays | src/main.rs:33-36 | once the process has exited, later tokens change nothing |
| Machine.RunAppend | src/main.rs:46 | running `a + b` is running `a`, then `b` from where `a` left off |
| Machine.RunHaltsEarly | src/main.rs:33-36 | a run that halts on a prefix of the tokens halts with the same fault |
| Machine.RunOneMore | src/main.rs:46-66 | one more iteration of the loop: when token `i` takes the machine to a new stack, the run of the first `i + 1` tokens ends there; when it faults, the whole run halts with that fault |
| Machine.RunFirst | src/main.rs:46 | the first token is executed first |
| Machine.RunTwo | src/main.rs:46 | a two-token run is two steps in order |
| Machine.LiteralPushes | src/main.rs:61-64 | the decimal rendering of any `u64` is no operator name and pushes exactly that value |
| Machine.UnparsableTokensPanic | src/main.rs:61-64 | the empty piece two adjacent spaces produce, and `-1`, panic in `unwrap` |
| Machine.StepBinary | src/main.rs:48-57 | each operator's token reaches the `f2` arm with that operator's closure |
| Machine.Apply2Pair | src/main.rs:13-18 | on a stack ending `x, y`, `f2` applies `func(x, y)` and keeps everything below |
| Machine.PushThenApply | src/main.rs:13-18 | with `x` on top, pushing `y` and applying an operator computes `func(x, y)` |
| Machine.OperandOrder | src/main.rs:13-18 | after pushing `x` and then `y`, an operator yields `func(x, y)`: the first pushed value is the left operand |
| Machine.SubtractsTopFromBelow | src/main.rs:49 | `x y -` leaves `x - y`; when `x < y` a debug build panics and a release build leaves `2^64 + x - y` |
| Machine.DividesBelowByTop | src/main.rs:51 | `x y /` leaves `x / y`, and panics when `y` is 0 |
| Machine.RemainderOfBelowByTop | src/main.rs:56 | `x y mod` leaves `x % y`, and panics when `y` is 0 |
| Machine.BinaryUnderflow | src/main.rs:13-24 | a two-operand token on fewer than two items halts with underflow, exit status 1; `not` on an empty stack underflows too |
| Machine.NotComplementsTop | src/main.rs:52 | `not` replaces only the top, by `u64::MAX - top` |
| Machine.SwapExchangesBottom | src/main.rs:58 | `swp` exchanges the entries at indices 0 and 1 (the bottom two), keeps every other entry and the length, and panics on fewer than two items |
| Machine.SwapTwice | src/main.rs:58 | `swp swp` restores any stack of two or more items |
| Machine.ClearAndRand | src/main.rs:59-60 | `clr` empties any stack; `rand` pushes 42 onto any stack |
| Decimal.Split | src/main.rs:46 | splitting always yields at least one piece |
| Decimal.SplitPiecesLackSeparator | src/main.rs:46 | no piece of a split contains the separator |
| Decimal.JoinSplit | src/main.rs:46 | joining the pieces with the separator gives back the text |
| Decimal.SplitJoin | src/main.rs:46 | pieces without the separator, joined, split back into the same pieces |
| Decimal.SplitWithoutSeparator | src/main.rs:46 | text without a separator is one piece |
| Decimal.SplitAtFirst | src/main.rs:46 | the text is cut at the first separator |
| Decimal.SplitAtLast | src/main.rs:46 | the text is cut at the last separator |
| Decimal.JoinCons | src/main.rs:46 | the joined text is the first piece, a separator, then the rest joined |
| Decimal.ParseU64 | src/main.rs:62 | `str::parse::<u64>` (no contract of its own; `ParseAccepts`, `ParseDigits`, `ParsePlus` and `ParseToDecimal` state it) |
| Decimal.ParseAccepts | src/main.rs:62 | a successful parse means a non-empty text of digits after an optional leading `+`, read as the decimal value of those digits |
| Decimal.ParsePlus | src/main.rs:62 | a leading `+` before digits is accepted and gives the same result as the digits alone |
| Decimal.ParseDigits | src/main.rs:62 | a non-empty digit string parses exactly when its value fits in 64 bits, and to that value |
| Decimal.ToDecimal | src/main.rs:68 | the `{}` rendering of a number is a non-empty string of digits with no leading zero: it starts with `0` exactly when the number is 0, and then it is the single digit `0` |
| Decimal.ValueToDecimal | src/main.rs:68 | the digits of the rendering denote the number |
| Decimal.ParseToDecimal | src/main.rs:62 | every `u64`, written in decimal, parses back to itself |
| Program.JoinTokens | src/main.rs:44 | the nine tokens joined with single spaces are the program text |
| Program.ProgramTokens | src/main.rs:44-46 | splitting the program text on single spaces gives exactly its nine tokens |
| Program.ApplyStage | src/main.rs:13-18 | with `x` alone on the stack, a literal `y` and an operator leave only the closure's value |
| Program.Stage1 | src/main.rs:48 | `100 200 +` leaves 300 under either profile |
| Program.Stage2 | src/main.rs:50 | `5 *` turns 300 into 1500 |
| Program.Stage3 | src/main.rs:51 | `10 /` turns 1500 into 150 |
| Program.Stage4 | src/main.rs:57 | `90 gcd` turns 150 into 30 |
| Program.ProgramRun | src/main.rs:44-66 | the nine tokens run from an empty stack leave exactly `[30]` |
| Program.ProgramPrints30 | src/main.rs:41-69 | under either build profile the program pops and prints 30 without a fault |
| Machine.Output | src/main.rs:68 | `println!` writes nothing when the run stopped early; otherwise one line holding the canonical decimal digits of the popped value (no sign, no leading zero), which parse back to it |
| Program.ProgramOutput | src/main.rs:68 | the fixed program writes exactly `30` and a newline to standard output |
| Program.RunMain | src/main.rs:41-69 | the imperative `main` returns 30 |

## Left out

- Process termination is not modelled. `std::process::exit(1)` and a Rust panic become a `Halted` state; `ExitStatus` gives its exit status.
- What the stack holds after a fault is not modelled. For example, `f2` may already have popped one operand; the process ends there anyway.
- `str::split` and `str::parse::<u64>` are standard-library calls. They are modelled as specification functions (`Decimal.Split`, `Decimal.ParseU64`), not as their library code. `Rpn.Evaluate` splits the whole text at once, whereas the library iterates lazily; the resulting token sequence is the same.
- The messages `eprintln!` and a panic write to standard error are not modelled; `Machine.Output` models only the text `println!` writes, not the stream itself.
- Machine.ExitStatus: status 101 for a panic assumes Cargo's default `panic = "unwind"`; a build with `panic = "abort"` aborts the process instead.
- The build profile is not fixed. It is a parameter, so `+`, `-` and `*` are modelled both ways: a debug build panics on overflow and a release build wraps.
- The bitwise operators are modelled as arithmetic over the 64 low bits, not as machine bit-vector operations.
- `Rpn.Exec`: `swp`, `clr` and `rand` reassign the sequence field instead of calling `Vec::swap`, `Vec::clear` and `Vec::push`. The effect on the contents is the same; vector capacity is not modelled.
- `rand` is the constant 42 in this program, so there is no randomness to model.
