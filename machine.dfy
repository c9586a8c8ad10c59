/**
 * The stack machine of src/main.rs as functions on values: the outcome of a
 * run, the token dispatch of `main`, and what `f1`, `f2`, `swp`, `clr`, `rand`
 * and a literal do to the stack. The stack is a sequence whose last element
 * is the top (a `Vec<u64>` pushed and popped at its end).
 */
module Machine {
  import opened Wrappers
  import opened Words
  import opened Ops
  import Decimal
  import Euclid

  /** Why the program stopped early: `pop` on an empty stack exits, anything else panics. */
  datatype Fault = StackUnderflow | Panicked(reason: Panic)

  /** The process exit status: `exit(1)` on underflow, 101 for a Rust panic. */
  function ExitStatus(f: Fault): (code: int)
    ensures code != 0
    ensures code == 1 <==> f == StackUnderflow
    ensures f.Panicked? ==> code == 101
  {
    match f
    case StackUnderflow => 1
    case Panicked(_) => 101
  }

  /** The machine is still running with a stack, or it has halted. */
  datatype State = Running(stack: seq<u64>) | Halted(fault: Fault)

  /** The state a method leaves behind: its stack, unless it reported a fault. */
  function Settle(stack: seq<u64>, fault: Option<Fault>): State
  {
    if fault.Some? then Halted(fault.value) else Running(stack)
  }

  /** The two-operand tokens, each handed to `f2` with its own closure. */
  datatype BinOp = Plus | Minus | Times | Quotient | BitAnd | BitOr | BitXor | Remainder | GcdOp

  /** The arms of the `match cmd` in `main`. */
  datatype Command =
    | Binary(op: BinOp)   // `stack.f2(..)`
    | Complement          // `not`: `stack.f1(|a| !a)`
    | SwapBottom          // `swp`: `stack.stack.swap(0, 1)`
    | ClearAll            // `clr`: `stack.stack.clear()`
    | Rand                // `rand`: `stack.stack.push(42)`
    | Literal(text: string)

  /** The token each two-operand operator is written as. */
  function Token(op: BinOp): string
  {
    match op
    case Plus => "+"
    case Minus => "-"
    case Times => "*"
    case Quotient => "/"
    case BitAnd => "and"
    case BitOr => "or"
    case BitXor => "xor"
    case Remainder => "mod"
    case GcdOp => "gcd"
  }

  /** Which arm of the `match` a token takes; anything unlisted is a literal. */
  function Classify(tok: string): (c: Command)
    ensures c.Literal? ==> c.text == tok
  {
    if tok == "+" then Binary(Plus)
    else if tok == "-" then Binary(Minus)
    else if tok == "*" then Binary(Times)
    else if tok == "/" then Binary(Quotient)
    else if tok == "not" then Complement
    else if tok == "and" then Binary(BitAnd)
    else if tok == "or" then Binary(BitOr)
    else if tok == "xor" then Binary(BitXor)
    else if tok == "mod" then Binary(Remainder)
    else if tok == "gcd" then Binary(GcdOp)
    else if tok == "swp" then SwapBottom
    else if tok == "clr" then ClearAll
    else if tok == "rand" then Rand
    else Literal(tok)
  }

  /** The thirteen operator names the `match` lists before its catch-all arm. */
  const OPERATOR_NAMES: set<string> :=
    {"+", "-", "*", "/", "not", "and", "or", "xor", "mod", "gcd", "swp", "clr", "rand"}

  /** Exactly the tokens outside the thirteen operator names reach the literal arm. */
  lemma ClassifyLiteral(tok: string)
    ensures Classify(tok).Literal? <==> tok !in OPERATOR_NAMES
    ensures Classify(tok).Literal? ==> Classify(tok).text == tok
  {
  }

  /** Each operator's token, and only it, names that operator. */
  lemma ClassifyBinary(tok: string, op: BinOp)
    ensures Classify(tok) == Binary(op) <==> tok == Token(op)
  {
  }

  /** The closure each operator hands to `f2`: `x` is the lower operand, `y` the top. */
  function Operator(op: BinOp, p: Profile): (u64, u64) -> Result<u64, Panic>
  {
    match op
    case Plus => (x, y) => Add(p, x, y)
    case Minus => (x, y) => Sub(p, x, y)
    case Times => (x, y) => Mul(p, x, y)
    case Quotient => (x, y) => Div(x, y)
    case BitAnd => (x, y) => Success(And(x, y))
    case BitOr => (x, y) => Success(Or(x, y))
    case BitXor => (x, y) => Success(Xor(x, y))
    case Remainder => (x, y) => Rem(x, y)
    case GcdOp => (x, y) => Success(Euclid.GcdOf(x, y))
  }

  /** `f1`: the top is replaced by `func(top)`; an empty stack underflows. */
  function Apply1(s: seq<u64>, func: u64 -> u64): State
  {
    if s == [] then Halted(StackUnderflow)
    else Running(s[..|s| - 1] + [func(s[|s| - 1])])
  }

  /**
   * `f2`: the top two are replaced by `func(second-from-top, top)`; fewer
   * than two items underflow, and a panicking `func` halts.
   */
  function Apply2(s: seq<u64>, func: (u64, u64) -> Result<u64, Panic>): State
  {
    if |s| < 2 then Halted(StackUnderflow)
    else
      match func(s[|s| - 2], s[|s| - 1])
      case Failure(e) => Halted(Panicked(e))
      case Success(v) => Running(s[..|s| - 2] + [v])
  }

  /** `Vec::swap(0, 1)`: the two BOTTOM entries change places. */
  function SwapBottomTwo(s: seq<u64>): State
  {
    if |s| < 2 then Halted(Panicked(SwapOutOfBounds))
    else Running(s[0 := s[1]][1 := s[0]])
  }

  /** `cmd.parse().unwrap()` then `push`: a literal that does not parse panics. */
  function PushLiteral(s: seq<u64>, text: string): State
  {
    match Decimal.ParseU64(text)
    case None => Halted(Panicked(ParseIntError))
    case Some(x) => Running(s + [x])
  }

  /** One iteration of the `for` loop of `main`; a halted machine stays halted. */
  function Step(st: State, tok: string, p: Profile): State
  {
    match st
    case Halted(_) => st
    case Running(s) =>
      match Classify(tok)
      case Binary(op) => Apply2(s, Operator(op, p))
      case Complement => Apply1(s, Not)
      case SwapBottom => SwapBottomTwo(s)
      case ClearAll => Running([])
      case Rand => Running(s + [42])
      case Literal(text) => PushLiteral(s, text)
  }

  /**
   * The catch-all arm for every token that names no operator: parse it as a
   * `u64` and push it, or panic in `unwrap` when it does not parse.
   */
  lemma LiteralArm(s: seq<u64>, tok: string, p: Profile)
    requires tok !in OPERATOR_NAMES
    ensures Step(Running(s), tok, p) ==
      match Decimal.ParseU64(tok)
      case None => Halted(Panicked(ParseIntError))
      case Some(x) => Running(s + [x])
  {
    ClassifyLiteral(tok);
  }

  /** The tokens run in order, the last one last. */
  function Run(st: State, toks: seq<string>, p: Profile): State
    decreases |toks|
  {
    if toks == [] then st else Step(Run(st, toks[..|toks| - 1], p), toks[|toks| - 1], p)
  }

  /** `main`: split on single spaces, run from an empty stack, then pop the value it prints. */
  function Evaluate(program: string, p: Profile): Result<u64, Fault>
  {
    match Run(Running([]), Decimal.Split(program, ' '), p)
    case Halted(f) => Failure(f)
    case Running(s) => if s == [] then Failure(StackUnderflow) else Success(s[|s| - 1])
  }

  /**
   * What `println!` writes to standard output: the popped value in decimal and a
   * newline, or nothing when the run stopped early (its message goes to stderr).
   */
  function Output(r: Result<u64, Fault>): (out: string)
    ensures r.Failure? <==> out == []
    ensures r.Success? ==> out[|out| - 1] == '\n' && Decimal.ParseU64(out[..|out| - 1]) == Some(r.value)
    ensures r.Success? ==>
      var t := out[..|out| - 1];
      t != [] && Decimal.AllDigits(t) && (t[0] == '0' ==> |t| == 1) && Decimal.Value(t) == r.value as nat
  {
    match r
    case Failure(_) => []
    case Success(v) =>
      Decimal.ParseToDecimal(v);
      Decimal.ValueToDecimal(v as nat);
      assert (Decimal.ToDecimal(v as nat) + ['\n'])[..|Decimal.ToDecimal(v as nat)|] == Decimal.ToDecimal(v as nat);
      Decimal.ToDecimal(v as nat) + ['\n']
  }

  /** `main` once the loop has left the machine running: pop the top, or underflow. */
  lemma EvaluateRunning(program: string, p: Profile, s: seq<u64>)
    requires Run(Running([]), Decimal.Split(program, ' '), p) == Running(s)
    ensures s == [] ==> Evaluate(program, p) == Failure(StackUnderflow)
    ensures s != [] ==> Evaluate(program, p) == Success(s[|s| - 1])
  {
  }

  /** `main` once the loop has halted: the fault is the outcome. */
  lemma EvaluateHalted(program: string, p: Profile, f: Fault)
    requires Run(Running([]), Decimal.Split(program, ' '), p) == Halted(f)
    ensures Evaluate(program, p) == Failure(f)
  {
  }

  // ---------------------------------------------------------------------------
  // Properties of a run

  /** Once halted, later tokens change nothing: the process has exited. */
  lemma {:induction false} HaltedStays(f: Fault, toks: seq<string>, p: Profile)
    ensures Run(Halted(f), toks, p) == Halted(f)
    decreases |toks|
  {
    if toks != [] {
      HaltedStays(f, toks[..|toks| - 1], p);
    }
  }

  /** Running `a + b` is running `a`, then `b` from where `a` left off. */
  lemma {:induction false} RunAppend(st: State, a: seq<string>, b: seq<string>, p: Profile)
    ensures Run(st, a + b, p) == Run(Run(st, a, p), b, p)
    decreases |b|
  {
    if b == [] {
      assert a + b == a;
    } else {
      assert (a + b)[..|a + b| - 1] == a + b[..|b| - 1];
      RunAppend(st, a, b[..|b| - 1], p);
    }
  }

  /** The run of a prefix one token longer: one more step. */
  lemma RunExtend(st: State, toks: seq<string>, i: nat, p: Profile)
    requires i < |toks|
    ensures Run(st, toks[..i + 1], p) == Step(Run(st, toks[..i], p), toks[i], p)
  {
    assert toks[..i + 1][..i] == toks[..i];
  }

  /** A run that halts on a prefix halts with the same fault. */
  lemma RunHaltsEarly(st: State, toks: seq<string>, i: nat, f: Fault, p: Profile)
    requires i <= |toks| && Run(st, toks[..i], p) == Halted(f)
    ensures Run(st, toks, p) == Halted(f)
  {
    var done, rest := toks[..i], toks[i..];
    assert done + rest == toks;
    RunAppend(st, done, rest, p);
    HaltedStays(f, rest, p);
  }

  /**
   * One more iteration of the loop of `main`: when token `i` takes the
   * machine from `s` to what `t` and `fault` describe, the run of the first
   * `i + 1` tokens is `t`, or the whole run halts with that fault.
   */
  lemma RunOneMore(toks: seq<string>, i: nat, s: seq<u64>, t: seq<u64>, fault: Option<Fault>, p: Profile)
    requires i < |toks|
    requires Run(Running([]), toks[..i], p) == Running(s)
    requires Settle(t, fault) == Step(Running(s), toks[i], p)
    ensures fault.None? ==> Run(Running([]), toks[..i + 1], p) == Running(t)
    ensures fault.Some? ==> Run(Running([]), toks, p) == Halted(fault.value)
  {
    RunExtend(Running([]), toks, i, p);
    if fault.Some? {
      RunHaltsEarly(Running([]), toks, i + 1, fault.value, p);
    }
  }

  /** The first token is run first. */
  lemma RunFirst(st: State, tok: string, rest: seq<string>, p: Profile)
    ensures Run(st, [tok] + rest, p) == Run(Step(st, tok, p), rest, p)
  {
    RunAppend(st, [tok], rest, p);
    assert [tok][..0] == [];
  }

  // ---------------------------------------------------------------------------
  // Properties of single tokens

  /** A decimal rendering is never an operator name, and it pushes its own value. */
  lemma {:induction false} LiteralPushes(s: seq<u64>, x: u64, p: Profile)
    ensures Step(Running(s), Decimal.ToDecimal(x as nat), p) == Running(s + [x])
  {
    var t := Decimal.ToDecimal(x as nat);
    assert Decimal.IsDigit(t[0]);
    assert Classify(t) == Literal(t);
    Decimal.ParseToDecimal(x);
  }

  /** Each operator's token reaches its `f2` arm. */
  lemma StepBinary(t: seq<u64>, op: BinOp, p: Profile)
    ensures Step(Running(t), Token(op), p) == Apply2(t, Operator(op, p))
  {
    assert Classify(Token(op)) == Binary(op);
  }

  /** `f2` on a stack ending in `x, y` applies `func(x, y)` and keeps what lies below. */
  lemma Apply2Pair(s: seq<u64>, x: u64, y: u64, func: (u64, u64) -> Result<u64, Panic>)
    ensures Apply2(s + [x, y], func)
         == match func(x, y)
            case Success(v) => Running(s + [v])
            case Failure(e) => Halted(Panicked(e))
  {
    var t := s + [x, y];
    assert t[..|t| - 2] == s && t[|t| - 2] == x && t[|t| - 1] == y;
  }

  /** The last token is run last. */
  lemma RunSnoc(st: State, toks: seq<string>, tok: string, p: Profile)
    ensures Run(st, toks + [tok], p) == Step(Run(st, toks, p), tok, p)
  {
    assert (toks + [tok])[..|toks|] == toks;
  }

  /** Run two tokens one after the other. */
  lemma RunTwo(st: State, a: string, b: string, p: Profile)
    ensures Run(st, [a, b], p) == Step(Step(st, a, p), b, p)
  {
    RunSnoc(st, [], a, p);
    RunSnoc(st, [a], b, p);
    assert [] + [a] == [a] && [a] + [b] == [a, b];
  }

  /** With `x` on top, pushing `y` and applying an operator computes `func(x, y)`. */
  lemma PushThenApply(s: seq<u64>, x: u64, y: u64, op: BinOp, p: Profile)
    ensures Run(Running(s + [x]), [Decimal.ToDecimal(y as nat), Token(op)], p)
         == match Operator(op, p)(x, y)
            case Success(v) => Running(s + [v])
            case Failure(e) => Halted(Panicked(e))
  {
    RunTwo(Running(s + [x]), Decimal.ToDecimal(y as nat), Token(op), p);
    LiteralPushes(s + [x], y, p);
    assert s + [x] + [y] == s + [x, y];
    StepBinary(s + [x, y], op, p);
    Apply2Pair(s, x, y, Operator(op, p));
  }

  /**
   * Operand order: after pushing `x` and then `y`, a two-operand token
   * applies its closure as `func(x, y)`, the first pushed value on the left.
   */
  lemma OperandOrder(s: seq<u64>, x: u64, y: u64, op: BinOp, p: Profile)
    ensures Run(Running(s), [Decimal.ToDecimal(x as nat), Decimal.ToDecimal(y as nat), Token(op)], p)
         == match Operator(op, p)(x, y)
            case Success(v) => Running(s + [v])
            case Failure(e) => Halted(Panicked(e))
  {
    var dx := Decimal.ToDecimal(x as nat);
    var rest := [Decimal.ToDecimal(y as nat), Token(op)];
    RunFirst(Running(s), dx, rest, p);
    assert [dx] + rest == [dx, Decimal.ToDecimal(y as nat), Token(op)];
    LiteralPushes(s, x, p);
    PushThenApply(s, x, y, op, p);
  }

  /** `x y -` leaves `x - y`, never `y - x`; in a debug build `x < y` panics. */
  lemma SubtractsTopFromBelow(s: seq<u64>, x: u64, y: u64, p: Profile)
    ensures Run(Running(s), [Decimal.ToDecimal(x as nat), Decimal.ToDecimal(y as nat), "-"], p)
         == if x >= y then Running(s + [x - y])
            else if p == Debug then Halted(Panicked(SubOverflow))
            else Running(s + [(LIMIT + x as int - y as int) as u64])
  {
    OperandOrder(s, x, y, Minus, p);
    SubWraps(p, x, y);
  }

  /** `x y /` leaves the quotient `x / y`; a zero top panics. */
  lemma DividesBelowByTop(s: seq<u64>, x: u64, y: u64, p: Profile)
    ensures Run(Running(s), [Decimal.ToDecimal(x as nat), Decimal.ToDecimal(y as nat), "/"], p)
         == if y == 0 then Halted(Panicked(DivideByZero)) else Running(s + [Div(x, y).value])
    ensures y != 0 ==> Div(x, y).value as int == x as int / y as int
  {
    OperandOrder(s, x, y, Quotient, p);
  }

  /** `x y mod` leaves the remainder `x % y`; a zero top panics. */
  lemma RemainderOfBelowByTop(s: seq<u64>, x: u64, y: u64, p: Profile)
    ensures Run(Running(s), [Decimal.ToDecimal(x as nat), Decimal.ToDecimal(y as nat), "mod"], p)
         == if y == 0 then Halted(Panicked(RemainderByZero)) else Running(s + [x % y])
  {
    OperandOrder(s, x, y, Remainder, p);
  }

  /**
   * A two-operand token on fewer than two items exits with status 1, and
   * so does `not` (`f1`) on an empty stack.
   */
  lemma BinaryUnderflow(s: seq<u64>, op: BinOp, p: Profile)
    requires |s| < 2
    ensures Step(Running(s), Token(op), p) == Halted(StackUnderflow)
    ensures ExitStatus(Step(Running(s), Token(op), p).fault) == 1
    ensures Step(Running([]), "not", p) == Halted(StackUnderflow)
  {
  }

  /** `not` replaces only the top, by its complement `u64::MAX - top`. */
  lemma NotComplementsTop(s: seq<u64>, x: u64, p: Profile)
    ensures Step(Running(s + [x]), "not", p) == Running(s + [Not(x)])
    ensures Not(x) as int == MAX - x as int
  {
    assert (s + [x])[..|s|] == s;
  }

  /**
   * `swp` exchanges the two BOTTOM entries and keeps every other one; with
   * fewer than two items it panics.
   */
  lemma SwapExchangesBottom(s: seq<u64>, p: Profile)
    ensures |s| < 2 ==> Step(Running(s), "swp", p) == Halted(Panicked(SwapOutOfBounds))
    ensures |s| >= 2 ==> Step(Running(s), "swp", p).Running?
    ensures |s| >= 2 ==> var t := Step(Running(s), "swp", p).stack;
      && |t| == |s| && t[0] == s[1] && t[1] == s[0]
      && forall i :: 2 <= i < |s| ==> t[i] == s[i]
  {
  }

  /** `swp swp` restores any stack of two or more items. */
  lemma SwapTwice(s: seq<u64>, p: Profile)
    requires |s| >= 2
    ensures Run(Running(s), ["swp", "swp"], p) == Running(s)
  {
    SwapExchangesBottom(s, p);
    var t := Step(Running(s), "swp", p).stack;
    SwapExchangesBottom(t, p);
    var u := Step(Running(t), "swp", p).stack;
    assert u == s;
    RunTwo(Running(s), "swp", "swp", p);
  }

  /**
   * A token that is no operator and no `u64` literal panics in `unwrap`:
   * the empty piece two adjacent spaces produce, and a negative number.
   */
  lemma UnparsableTokensPanic(s: seq<u64>, p: Profile)
    ensures Step(Running(s), "", p) == Halted(Panicked(ParseIntError))
    ensures Step(Running(s), "-1", p) == Halted(Panicked(ParseIntError))
  {
    assert Classify("-1") == Literal("-1");
    assert !Decimal.IsDigit("-1"[0]);
  }

  /** `clr` empties any stack; `rand` always pushes 42. */
  lemma ClearAndRand(s: seq<u64>, p: Profile)
    ensures Step(Running(s), "clr", p) == Running([])
    ensures Step(Running(s), "rand", p) == Running(s + [42])
  {
  }
}
