/**
 * The `Stack` struct of src/main.rs and the loop of `main`, as imperative
 * code: the `Vec<u64>` is a sequence field that the methods reassign, its
 * last element the top. `Push` and `Pop` state their new stack and
 * result directly; `F1`, `F2`, `Exec` and `Evaluate` are each proved equal
 * to a function of module Machine.
 */
module Rpn {
  import opened Wrappers
  import opened Words
  import opened Ops
  import opened Machine
  import Decimal

  class Stack {
    var stack: seq<u64>

    /** `Stack::new()` */
    constructor ()
      ensures stack == []
    {
      stack := [];
    }

    /** `push`: `x` becomes the new top; everything below is unchanged. */
    method Push(x: u64)
      modifies this
      ensures |stack| == |old(stack)| + 1
      ensures stack[|stack| - 1] == x
      ensures stack[..|old(stack)|] == old(stack)
    {
      stack := stack + [x];
    }

    /**
     * `pop`: removes and returns the top. On an empty stack the Rust
     * `pop` prints an error and exits with status 1; here that is StackUnderflow.
     */
    method Pop() returns (r: Result<u64, Fault>)
      modifies this
      ensures old(stack) == [] ==> r == Failure(StackUnderflow) && stack == []
      ensures old(stack) != [] ==> r == Success(old(stack)[|old(stack)| - 1])
      ensures old(stack) != [] ==> stack == old(stack)[..|old(stack)| - 1]
    {
      if stack == [] {
        return Failure(StackUnderflow);
      }
      r := Success(stack[|stack| - 1]);
      stack := stack[..|stack| - 1];
    }

    /** `f2`: pops the top as `y`, then `x`, and pushes `func(x, y)`. */
    method F2(func: (u64, u64) -> Result<u64, Panic>) returns (fault: Option<Fault>)
      modifies this
      ensures Settle(stack, fault) == Apply2(old(stack), func)
    {
      var y := Pop();
      if y.Failure? {
        return Some(y.error);
      }
      var x := Pop();
      if x.Failure? {
        return Some(x.error);
      }
      var v := func(x.value, y.value);
      if v.Failure? {
        return Some(Panicked(v.error));
      }
      Push(v.value);
      fault := None;
      assert old(stack)[..|old(stack)| - 2] + [v.value] == stack;
    }

    /** `f1`: pops the top and pushes `func(top)`. */
    method F1(func: u64 -> u64) returns (fault: Option<Fault>)
      modifies this
      ensures Settle(stack, fault) == Apply1(old(stack), func)
    {
      var x := Pop();
      if x.Failure? {
        return Some(x.error);
      }
      Push(func(x.value));
      fault := None;
      assert old(stack)[..|old(stack)| - 1] + [func(x.value)] == stack;
    }
  }

  /** One arm of the `match cmd` in `main`, applied to `st`. */
  method Exec(st: Stack, cmd: string, p: Profile) returns (fault: Option<Fault>)
    modifies st
    ensures Settle(st.stack, fault) == Step(Running(old(st.stack)), cmd, p)
  {
    fault := None;
    match Classify(cmd)
    case Binary(op) =>
      fault := st.F2(Operator(op, p));
    case Complement =>
      fault := st.F1(Not);
    case SwapBottom =>
      if |st.stack| < 2 {
        fault := Some(Panicked(SwapOutOfBounds));
      } else {
        st.stack := st.stack[0 := st.stack[1]][1 := st.stack[0]];
      }
    case ClearAll =>
      st.stack := [];
    case Rand =>
      st.stack := st.stack + [42];
    case Literal(text) =>
      var x := Decimal.ParseU64(text);
      if x.None? {
        fault := Some(Panicked(ParseIntError));
      } else {
        st.Push(x.value);
        assert st.stack == old(st.stack) + [x.value];
      }
  }

  /**
   * `main` for any program text: split on single spaces, run each token on
   * a fresh stack, and pop the value that is printed.
   */
  method Evaluate(program: string, p: Profile) returns (out: Result<u64, Fault>)
    ensures out == Machine.Evaluate(program, p)
  {
    var st := new Stack();
    var cmds := Decimal.Split(program, ' ');
    var i := 0;
    while i < |cmds|
      invariant 0 <= i <= |cmds|
      invariant Run(Running([]), cmds[..i], p) == Running(st.stack)
    {
      ghost var before := st.stack;
      var fault := Exec(st, cmds[i], p);
      RunOneMore(cmds, i, before, st.stack, fault, p);
      if fault.Some? {
        EvaluateHalted(program, p, fault.value);
        return Failure(fault.value);
      }
      i := i + 1;
    }
    assert cmds[..i] == cmds;
    EvaluateRunning(program, p, st.stack);
    out := st.Pop();
  }
}
