/** The program text hard-wired into `main` and the value it prints. */
module Program {
  import opened Wrappers
  import opened Words
  import opened Ops
  import opened Machine
  import Decimal
  import Euclid
  import Rpn

  const PROGRAM: string := "100 200 + 5 * 10 / 90 gcd"

  const TOKENS: seq<string> := ["100", "200", "+", "5", "*", "10", "/", "90", "gcd"]

  /** The nine tokens joined with single spaces are the program text. */
  lemma JoinTokens()
    ensures Decimal.Join(TOKENS, ' ') == PROGRAM
  {
    assert Decimal.Join(TOKENS[..1], ' ') == "100";
    assert TOKENS[..2][..1] == TOKENS[..1];
    assert Decimal.Join(TOKENS[..2], ' ') == "100 200";
    assert TOKENS[..3][..2] == TOKENS[..2];
    assert Decimal.Join(TOKENS[..3], ' ') == "100 200 +";
    assert TOKENS[..4][..3] == TOKENS[..3];
    assert Decimal.Join(TOKENS[..4], ' ') == "100 200 + 5";
    assert TOKENS[..5][..4] == TOKENS[..4];
    assert Decimal.Join(TOKENS[..5], ' ') == "100 200 + 5 *";
    assert TOKENS[..6][..5] == TOKENS[..5];
    assert Decimal.Join(TOKENS[..6], ' ') == "100 200 + 5 * 10";
    assert TOKENS[..7][..6] == TOKENS[..6];
    assert Decimal.Join(TOKENS[..7], ' ') == "100 200 + 5 * 10 /";
    assert TOKENS[..8][..7] == TOKENS[..7];
    assert Decimal.Join(TOKENS[..8], ' ') == "100 200 + 5 * 10 / 90";
    assert TOKENS[..8] == TOKENS[..|TOKENS| - 1];
  }

  /** Splitting the program on single spaces gives its nine tokens. */
  lemma ProgramTokens()
    ensures Decimal.Split(PROGRAM, ' ') == TOKENS
  {
    JoinTokens();
    Decimal.SplitJoin(TOKENS, ' ');
  }

  /** `y op` on top of `x` alone leaves `v` when the operator's closure yields `v`. */
  lemma ApplyStage(x: u64, y: u64, text: string, op: BinOp, v: u64, p: Profile)
    requires text == Decimal.ToDecimal(y as nat)
    requires Operator(op, p)(x, y) == Success(v)
    ensures Run(Running([x]), [text, Token(op)], p) == Running([v])
  {
    PushThenApply([], x, y, op, p);
    assert [] + [x] == [x] && [] + [v] == [v];
  }

  /** `100 200 +` leaves 300. */
  lemma Stage1(p: Profile)
    ensures Run(Running([]), ["100", "200", "+"], p) == Running([300])
  {
    assert Decimal.ToDecimal(100) == "100" && Decimal.ToDecimal(200) == "200";
    assert Operator(Plus, p)(100, 200) == Success(300);
    OperandOrder([], 100, 200, Plus, p);
  }

  /** `5 *` turns 300 into 1500. */
  lemma Stage2(p: Profile)
    ensures Run(Running([300]), ["5", "*"], p) == Running([1500])
  {
    assert Decimal.ToDecimal(5) == "5";
    assert Operator(Times, p)(300, 5) == Success(1500);
    ApplyStage(300, 5, "5", Times, 1500, p);
  }

  /** `10 /` turns 1500 into 150. */
  lemma Stage3(p: Profile)
    ensures Run(Running([1500]), ["10", "/"], p) == Running([150])
  {
    assert Decimal.ToDecimal(10) == "10";
    assert Operator(Quotient, p)(1500, 10) == Success(150);
    ApplyStage(1500, 10, "10", Quotient, 150, p);
  }

  /** `90 gcd` turns 150 into 30. */
  lemma Stage4(p: Profile)
    ensures Run(Running([150]), ["90", "gcd"], p) == Running([30])
  {
    assert Decimal.ToDecimal(90) == "90";
    assert Euclid.GcdOf(150, 90) == 30;
    ApplyStage(150, 90, "90", GcdOp, 30, p);
  }

  /** The nine tokens, run from an empty stack, leave just 30. */
  lemma ProgramRun(p: Profile)
    ensures Run(Running([]), TOKENS, p) == Running([30])
  {
    var a, b, c, d := ["100", "200", "+"], ["5", "*"], ["10", "/"], ["90", "gcd"];
    assert TOKENS == a + b + c + d;
    RunAppend(Running([]), a + b + c, d, p);
    RunAppend(Running([]), a + b, c, p);
    RunAppend(Running([]), a, b, p);
    Stage1(p);
    Stage2(p);
    Stage3(p);
    Stage4(p);
  }

  /**
   * Under either build profile the program computes ((100 + 200) * 5 / 10)
   * gcd 90 = 30 without a fault, and 30 is the value popped and printed.
   */
  lemma ProgramPrints30(p: Profile)
    ensures Machine.Evaluate(PROGRAM, p) == Success(30)
  {
    ProgramTokens();
    ProgramRun(p);
  }

  /** The text the fixed program writes to standard output is "30" and a newline. */
  lemma ProgramOutput(p: Profile)
    ensures Machine.Output(Machine.Evaluate(PROGRAM, p)) == "30\n"
  {
    ProgramPrints30(p);
    ThirtyText();
  }

  /** Thirty is written as the digits 3 and 0. */
  lemma ThirtyText()
    ensures Machine.Output(Success(30)) == "30\n"
  {
    assert Decimal.ToDecimal(3) == "3";
    assert Decimal.ToDecimal(30) == Decimal.ToDecimal(3) + "0";
  }

  /** `main` itself: the fixed program prints 30 and exits normally. */
  method RunMain(p: Profile) returns (printed: Result<u64, Fault>)
    ensures printed == Success(30)
  {
    printed := Rpn.Evaluate(PROGRAM, p);
    ProgramPrints30(p);
  }
}
