/** The interpreter of main.cpp (`get` and `interpret`) as functions on
    values: one instruction cycle `Step` and a run of at most `fuel`
    cycles, `Run`. The imperative interpreter in `Interpreter` is proved to
    compute exactly these. */
module Semantics {
  import opened Errors
  import opened Instructions
  import opened StackModel

  /** The dispatcher's registers and the stack: `pc` is the offset of `cp`
      from `code_begin`, `ref` the current frame base. */
  datatype Machine = Machine(pc: int, ref: int, st: StackState)

  /** What one cycle, or a run, ends in. `Continue` means the loop goes on
      (for `Run`: the fuel ran out); `Halted` means the stack became empty
      after an instruction; `Error` is an exception with the stack as it
      was left. */
  datatype Status =
    | Continue(m: Machine)
    | Halted(st: StackState)
    | Error(fault: Fault, st: StackState)
  {
    function State(): StackState {
      match this
      case Continue(m) => m.st
      case Halted(s) => s
      case Error(_, s) => s
    }
  }

  /** The frame base reached from `ref` by following `level` saved-frame
      links: the loop `for (; level; --level) { ref = stack[ref]; }`. Every
      link read is a bounds-checked `operator[]`. */
  function Links(s: StackState, ref: int, level: nat): (r: Result<int>)
    requires s.Valid()
    ensures r.Err? ==> r.fault == IndexOutOfBounds
    decreases level
  {
    if level == 0 then Ok(ref)
    else
      match At(s, ref)
      case Ok(next) => Links(s, next, level - 1)
      case Err(f) => Err(f)
  }

  /** Following `a + b` links is following `a` links and then `b` more:
      each level is exactly one more link read. */
  lemma {:induction false} LinksSplit(s: StackState, ref: int, a: nat, b: nat)
    requires s.Valid()
    ensures Links(s, ref, a + b) ==
      match Links(s, ref, a)
      case Ok(base) => Links(s, base, b)
      case Err(f) => Err(f)
    decreases a
  {
    if a > 0 {
      match At(s, ref)
      case Ok(next) => LinksSplit(s, next, a - 1, b);
      case Err(_) =>
    }
  }

  /** `get(stack, ref, idx, level)`: the slot its returned reference
      designates, `stack[base + idx]` with `base` reached through `level`
      links. */
  function Resolve(s: StackState, ref: int, idx: int, level: nat): (r: Result<int>)
    requires s.Valid()
    ensures r.Ok? ==> 0 <= r.value < s.size
    ensures r.Err? ==> r.fault == IndexOutOfBounds
    ensures r.Ok? <==> Links(s, ref, level).Ok? && 0 <= Links(s, ref, level).value + idx < s.size
    ensures r.Ok? ==> r.value == Links(s, ref, level).value + idx
  {
    match Links(s, ref, level)
    case Ok(base) => if 0 <= base + idx < s.size then Ok(base + idx) else Err(IndexOutOfBounds)
    case Err(f) => Err(f)
  }

  /** Level 0 addresses the current frame with no link read; level n + 1
      addresses from the frame whose base is stored at slot `ref`. */
  lemma ResolveLevels(s: StackState, ref: int, idx: int, n: nat)
    requires s.Valid()
    ensures Resolve(s, ref, idx, 0) ==
      (if 0 <= ref + idx < s.size then Ok(ref + idx) else Err(IndexOutOfBounds))
    ensures Resolve(s, ref, idx, n + 1) ==
      (if 0 <= ref < s.size then Resolve(s, s.buf[ref], idx, n) else Err(IndexOutOfBounds))
  {
  }

  function Proceed(e: Effect<()>, pc: int, ref: int): Status {
    match e
    case Done(_, t) => Continue(Machine(pc, ref, t))
    case Threw(f, t) => Error(f, t)
  }

  /** `opr retrn`: shrink (or grow) the stack to `ref + 1` elements, pop the
      saved frame base into `ref`, then pop the return address into `pc`. */
  function Return(ref: int, s: StackState): (r: Status)
    requires s.Valid()
    ensures r.State().Valid() && r.State().Capacity() == s.Capacity()
  {
    match Resize(s, ref + 1 - s.size)
    case Threw(f, t) => Error(f, t)
    case Done(_, t) => (
      match Pop(t)
      case Threw(f, u) => Error(f, u)
      case Done(savedRef, u) => (
        match Pop(u)
        case Threw(f, w) => Error(f, w)
        case Done(returnAddress, w) => Continue(Machine(returnAddress, savedRef, w))))
  }

  /** The body of the `switch`, for an instruction fetched at `next - 1`.
      `sto` pops before it resolves its slot: in `get(...) = stack.pop()`
      C++17 evaluates the right operand first. */
  function Execute(inst: Instruction, next: int, ref: int, s: StackState): (r: Status)
    requires s.Valid() && inst.level >= 0
    ensures r.State().Valid() && r.State().Capacity() == s.Capacity()
    ensures !r.Halted?
  {
    match inst.command
    case Lit => Proceed(Push(s, inst.value), next, ref)
    case Opr => (
      match ToOp(inst.value)
      case Err(f) => Error(f, s)
      case Ok(op) =>
        if op.Retrn? then Return(ref, s)
        else if op.IsUnary() then Proceed(Apply1(s, op), next, ref)
        else Proceed(Apply2(s, op), next, ref))
    case Lod => (
      match Resolve(s, ref, inst.value, inst.level)
      case Err(f) => Error(f, s)
      case Ok(i) => Proceed(Push(s, s.buf[i]), next, ref))
    case Sto => (
      match Pop(s)
      case Threw(f, t) => Error(f, t)
      case Done(v, t) => (
        match Resolve(t, ref, inst.value, inst.level)
        case Err(f) => Error(f, t)
        case Ok(i) => Proceed(Store(t, i, v), next, ref)))
    case Cal => (
      match Push(s, next)
      case Threw(f, t) => Error(f, t)
      case Done(_, t) => (
        match Push(t, ref)
        case Threw(f, u) => Error(f, u)
        case Done(_, u) => Continue(Machine(inst.value, u.size - 1, u))))
    case Inc => Proceed(Resize(s, inst.value), next, ref)
    case Jpc => (
      match Pop(s)
      case Threw(f, t) => Error(f, t)
      case Done(c, t) => Continue(Machine(if c == 0 then next else inst.value, ref, t)))
    case Jmp => Continue(Machine(inst.value, ref, s))
  }

  /** The loop condition `! stack.empty()`, tested after every instruction:
      a cycle that leaves the stack empty halts the machine. */
  function AfterCycle(r: Status): (h: Status)
    ensures h.State() == r.State()
    ensures !r.Halted? ==> (h.Halted? <==> r.Continue? && r.m.st.size == 0)
    ensures !h.Halted? ==> h == r
  {
    if r.Continue? && r.m.st.size == 0 then Halted(r.m.st) else r
  }

  /** One turn of the do-while loop: the code-segment check, fetch and
      decode, execution, and the `! stack.empty()` test. A negative `pc` is
      rejected like one past the end. */
  function Step(code: seq<int>, m: Machine): (r: Status)
    requires m.st.Valid()
    ensures r.State().Valid() && r.State().Capacity() == m.st.Capacity()
    ensures r.Halted? ==> r.st.size == 0
    ensures r.Continue? ==> r.m.st.size > 0
    ensures !(0 <= m.pc < |code|) ==> r == Error(OutOfCodeSegment, m.st)
  {
    if m.pc < 0 || m.pc >= |code| then Error(OutOfCodeSegment, m.st)
    else
      match Decode(code[m.pc])
      case Err(f) => Error(f, m.st)
      case Ok(inst) =>
        AfterCycle(Execute(inst, m.pc + 1, m.ref, m.st))
  }

  /** `interpret` cut off after `fuel` cycles: at least one instruction
      runs before the stack is tested, and the machine halts only on an
      empty stack. */
  function Run(code: seq<int>, m: Machine, fuel: nat): (r: Status)
    requires m.st.Valid()
    ensures r.State().Valid() && r.State().Capacity() == m.st.Capacity()
    ensures r.Halted? ==> r.st.size == 0
    ensures r.Continue? ==> r.m.st.size > 0 || (fuel == 0 && r.m == m)
    decreases fuel
  {
    if fuel == 0 then Continue(m)
    else
      match Step(code, m)
      case Continue(next) => Run(code, next, fuel - 1)
      case Halted(s) => Halted(s)
      case Error(f, s) => Error(f, s)
  }

  /** Running `a + b` cycles is running `a` and then `b` more. */
  lemma {:induction false} RunSplit(code: seq<int>, m: Machine, a: nat, b: nat)
    requires m.st.Valid()
    ensures Run(code, m, a + b) ==
      match Run(code, m, a)
      case Continue(mid) => Run(code, mid, b)
      case other => other
    decreases a
  {
    hide Execute;
    if a > 0 {
      match Step(code, m)
      case Continue(next) => RunSplit(code, next, a - 1, b);
      case Halted(_) =>
      case Error(_, _) =>
    }
  }
}
