/** The interpreter of main.cpp in its own imperative form: `get` walks
    the static links in a loop, and `interpret` runs the do-while
    fetch/decode/dispatch loop, changing `pc`, `ref` and the `Stack` object
    in place. Each method is proved to compute what the functions of
    `Semantics` say. */
module Interpreter {
  import opened Errors
  import opened Instructions
  import opened StackModel
  import opened Semantics
  import opened BoundedStack

  /** How a cycle, or a run, ended: the loop goes on (for `Interpret`: the
      fuel ran out), the stack became empty, or an exception was thrown. */
  datatype Signal = Running | Halt | Fail(fault: Fault)

  /** The signal and registers the imperative code reports agree with the
      status the functional semantics gives. */
  ghost predicate Agrees(r: Status, sig: Signal, pc: int, ref: int, st: StackState) {
    match r
    case Continue(m) => sig == Running && m == Machine(pc, ref, st)
    case Halted(t) => sig == Halt && t == st
    case Error(f, t) => sig == Fail(f) && t == st
  }

  function SignalOf(r: Status): Signal {
    match r
    case Continue(_) => Running
    case Halted(_) => Halt
    case Error(f, _) => Fail(f)
  }

  /** `get(stack, ref, idx, level)`: the index of the slot whose reference
      it returns. */
  method Get(stack: Stack, ref: int, idx: int, level: nat) returns (r: Result<int>)
    requires stack.Valid()
    ensures r == Resolve(stack.Model(), ref, idx, level)
    ensures r.Ok? ==> 0 <= r.value < |stack.Contents()|
  {
    var base, n := ref, level;
    while n != 0
      invariant Links(stack.Model(), base, n) == Links(stack.Model(), ref, level)
    {
      var link := stack.At(base);
      if link.Err? {
        return Err(link.fault);
      }
      base, n := link.value, n - 1;
    }
    var slot := stack.At(base + idx);
    if slot.Err? {
      return Err(slot.fault);
    }
    return Ok(base + idx);
  }

  /** `opr retrn` */
  method Return(stack: Stack, ref: int) returns (sig: Signal, pc': int, ref': int)
    requires stack.Valid()
    modifies stack
    ensures stack.Valid()
    ensures Agrees(Semantics.Return(ref, old(stack.Model())), sig, pc', ref', stack.Model())
  {
    pc', ref' := 0, ref;
    var resized := stack.Resize(ref + 1 - stack.Size());
    if resized.Err? {
      return Fail(resized.fault), pc', ref';
    }
    var savedRef := stack.Pop();
    if savedRef.Err? {
      return Fail(savedRef.fault), pc', ref';
    }
    ref' := savedRef.value;
    var returnAddress := stack.Pop();
    if returnAddress.Err? {
      return Fail(returnAddress.fault), pc', ref';
    }
    return Running, returnAddress.value, ref';
  }

  /** The body of the `switch` for an instruction fetched at `next - 1`. */
  method Execute(inst: Instruction, next: int, ref: int, stack: Stack)
    returns (sig: Signal, pc': int, ref': int)
    requires stack.Valid() && inst.level >= 0
    modifies stack, stack.data
    ensures stack.Valid()
    ensures Agrees(Semantics.Execute(inst, next, ref, old(stack.Model())), sig, pc', ref', stack.Model())
  {
    pc', ref' := next, ref;
    match inst.command {
      case Lit =>
        var pushed := stack.Push(inst.value);
        if pushed.Err? {
          return Fail(pushed.fault), pc', ref';
        }
      case Opr =>
        var op := ToOp(inst.value);
        if op.Err? {
          return Fail(op.fault), pc', ref';
        }
        if op.value.Retrn? {
          sig, pc', ref' := Return(stack, ref);
          return;
        }
        var applied;
        if op.value.IsUnary() {
          applied := stack.Apply1(op.value);
        } else {
          applied := stack.Apply2(op.value);
        }
        if applied.Err? {
          return Fail(applied.fault), pc', ref';
        }
      case Lod =>
        var slot := Get(stack, ref, inst.value, inst.level);
        if slot.Err? {
          return Fail(slot.fault), pc', ref';
        }
        var pushed := stack.Push(stack.data[slot.value]);
        if pushed.Err? {
          return Fail(pushed.fault), pc', ref';
        }
      case Sto =>
        var v := stack.Pop();
        if v.Err? {
          return Fail(v.fault), pc', ref';
        }
        var slot := Get(stack, ref, inst.value, inst.level);
        if slot.Err? {
          return Fail(slot.fault), pc', ref';
        }
        var stored := stack.Store(slot.value, v.value);
        if stored.Err? {
          return Fail(stored.fault), pc', ref';
        }
      case Cal =>
        var pushed := stack.Push(next);
        if pushed.Err? {
          return Fail(pushed.fault), pc', ref';
        }
        pushed := stack.Push(ref);
        if pushed.Err? {
          return Fail(pushed.fault), pc', ref';
        }
        ref' := stack.Size() - 1;
        pc' := inst.value;
      case Inc =>
        var resized := stack.Resize(inst.value);
        if resized.Err? {
          return Fail(resized.fault), pc', ref';
        }
      case Jpc =>
        var cond := stack.Pop();
        if cond.Err? {
          return Fail(cond.fault), pc', ref';
        }
        if cond.value != 0 {
          pc' := inst.value;
        }
      case Jmp =>
        pc' := inst.value;
    }
    sig := Running;
  }

  /** One turn of the do-while loop of `interpret`. */
  method Step(code: seq<int>, stack: Stack, pc: int, ref: int) returns (sig: Signal, pc': int, ref': int)
    requires stack.Valid()
    modifies stack, stack.data
    ensures stack.Valid()
    ensures Agrees(Semantics.Step(code, Machine(pc, ref, old(stack.Model()))), sig, pc', ref', stack.Model())
  {
    // only the contract of `Semantics.Execute` is needed here
    hide Semantics.Execute;
    if pc < 0 || pc >= |code| {
      return Fail(OutOfCodeSegment), pc, ref;
    }
    var inst := Decode(code[pc]);
    if inst.Err? {
      return Fail(inst.fault), pc, ref;
    }
    sig, pc', ref' := Execute(inst.value, pc + 1, ref, stack);
    if sig == Running && stack.Empty() {
      sig := Halt;
    }
  }

  /** `interpret(code_begin, code_end, stack)` with `pc` and `ref` starting
      at 0, stopped after `fuel` cycles if it has neither halted nor
      thrown by then. */
  method Interpret(code: seq<int>, stack: Stack, fuel: nat) returns (sig: Signal)
    requires stack.Valid()
    modifies stack, stack.data
    ensures stack.Valid()
    ensures var r := Run(code, Machine(0, 0, old(stack.Model())), fuel);
      sig == SignalOf(r) && stack.Model() == r.State()
  {
    // only the contract of `Semantics.Execute` is needed here
    hide Semantics.Execute;
    ghost var start := Machine(0, 0, stack.Model());
    var pc, ref, n := 0, 0, fuel;
    sig := Running;
    while n > 0
      invariant stack.Valid() && sig == Running
      invariant Run(code, Machine(pc, ref, stack.Model()), n) == Run(code, start, fuel)
    {
      ghost var before := Machine(pc, ref, stack.Model());
      sig, pc, ref := Step(code, stack, pc, ref);
      ghost var after := stack.Model();
      RunAfterStep(code, before, n, sig, pc, ref, after);
      if sig != Running {
        return;
      }
      n := n - 1;
      assert Run(code, Machine(pc, ref, after), n) == Run(code, start, fuel);
    }
  }

  /** A run of `n > 0` cycles is one cycle followed by a run of `n - 1`, or
      ends with that cycle when it halts or throws. */
  lemma RunAfterStep(code: seq<int>, m: Machine, n: nat, sig: Signal, pc: int, ref: int, st: StackState)
    requires m.st.Valid() && n > 0
    requires Agrees(Semantics.Step(code, m), sig, pc, ref, st)
    ensures st.Valid()
    ensures sig == Running ==> Run(code, m, n) == Run(code, Machine(pc, ref, st), n - 1)
    ensures sig != Running ==> SignalOf(Run(code, m, n)) == sig && Run(code, m, n).State() == st
  {
  }
}
