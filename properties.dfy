/** What the machine of main.cpp promises, proved about `Semantics`:
    subroutine call and return, conditional jumps, which instructions keep the
    frame base, the order in which binary operations take their operands, the
    do-while shape of the dispatch loop, and the sample program of `main`. */
module Properties {
  import opened Int32
  import opened Errors
  import opened Instructions
  import opened StackModel
  import opened Semantics

  /** Fetching an encoded instruction executes exactly that instruction and
      then tests the stack. */
  lemma StepDecoded(code: seq<int>, m: Machine, inst: Instruction)
    requires m.st.Valid() && 0 <= m.pc < |code|
    requires WellFormed(inst) && code[m.pc] == Encode(inst)
    ensures Step(code, m) == AfterCycle(Execute(inst, m.pc + 1, m.ref, m.st))
  {
    hide Execute;
    DecodeEncode(inst);
  }

  /** With no code at all the first fetch is already outside the code
      segment, whatever the stack holds: the loop body runs before its
      condition is tested. */
  lemma EmptyCodeFails(m: Machine, fuel: nat)
    requires m.st.Valid() && fuel > 0
    ensures Run([], m, fuel) == Error(OutOfCodeSegment, m.st)
  {
  }

  /** An empty stack on entry does not stop the machine: the first
      instruction runs. */
  lemma FirstInstructionRuns(code: seq<int>, m: Machine, v: int)
    requires m.st.Valid() && m.st.size == 0 && m.st.Capacity() > 0
    requires 0 <= m.pc < |code| && FitsValue(v) && code[m.pc] == Encode(Instruction(Lit, v, 0))
    ensures Run(code, m, 1).Continue?
    ensures Run(code, m, 1).m.pc == m.pc + 1 && Run(code, m, 1).m.st.Contents() == [v]
  {
    StepDecoded(code, m, Instruction(Lit, v, 0));
  }

  /** `cal t`: pushes the return address and the caller's frame base, makes
      the slot holding the latter the new frame base and jumps to `t`;
      without two free slots it overflows. */
  lemma CallPushesFrame(t: int, level: int, next: int, ref: int, s: StackState)
    requires s.Valid() && level >= 0
    ensures var r := Execute(Instruction(Cal, t, level), next, ref, s);
      (r.Continue? <==> s.size + 2 <= s.Capacity()) &&
      (r.Continue? ==>
        r.m.pc == t && r.m.ref == s.size + 1 && r.m.st.Contents() == s.Contents() + [next, ref]) &&
      (!r.Continue? ==> r.Error? && r.fault == StackOverflow)
  {
    var p := Push(s, next);
    if p.Done? {
      var q := Push(p.st, ref);
      if q.Done? {
        assert q.st.Contents() == s.Contents() + [next, ref];
      }
    }
  }

  /** `opr retrn` with frame base `ref`: the stack is cut (or grown) to
      `ref + 1` slots, the saved frame base at `ref` and the return address
      beneath it are popped. Every way it can fail is listed. */
  lemma ReturnOutcomes(next: int, ref: int, s: StackState)
    requires s.Valid()
    ensures var r := Execute(OprInstruction(Retrn), next, ref, s);
      (1 <= ref < s.Capacity() ==>
        r == Continue(Machine(s.buf[ref - 1], s.buf[ref], StackState(s.buf, ref - 1)))) &&
      (ref + 1 > s.Capacity() ==> r == Error(AddTooMany, s)) &&
      (ref < -1 ==> r == Error(RemoveTooMany, s)) &&
      (-1 <= ref <= 0 && ref < s.Capacity() ==> r == Error(StackUnderflow, StackState(s.buf, 0)))
  {
  }

  /** Call and return are balanced: whatever the callee does, as long as
      it leaves the caller's slots and the two frame cells alone, `retrn`
      with the frame base `cal` set comes back to the instruction after the
      call, with the caller's frame base and exactly the caller's stack. */
  lemma {:induction false} ReturnAfterCall(t: int, level: int, p: int, ref: int, s: StackState, u: StackState, next: int)
    requires s.Valid() && u.Valid() && level >= 0 && s.size + 2 <= s.Capacity()
    requires |u.buf| == |s.buf| && s.size + 2 <= u.size
    requires u.buf[..s.size] == s.Contents() && u.buf[s.size] == p && u.buf[s.size + 1] == ref
    ensures Execute(Instruction(Cal, t, level), p, ref, s).Continue?
    ensures Execute(Instruction(Cal, t, level), p, ref, s).m.ref == s.size + 1
    ensures var r := Execute(OprInstruction(Retrn), next, s.size + 1, u);
      r == Continue(Machine(p, ref, StackState(u.buf, s.size))) && r.m.st.Contents() == s.Contents()
  {
    CallPushesFrame(t, level, p, ref, s);
    ReturnOutcomes(next, s.size + 1, u);
  }

  /** Returning straight after a call restores the machine the call
      started from. */
  lemma CallThenReturn(t: int, level: int, p: int, ref: int, s: StackState, next: int)
    requires s.Valid() && level >= 0 && s.size + 2 <= s.Capacity()
    ensures var c := Execute(Instruction(Cal, t, level), p, ref, s);
      c.Continue? &&
      var r := Execute(OprInstruction(Retrn), next, c.m.ref, c.m.st);
      r.Continue? && r.m.pc == p && r.m.ref == ref && r.m.st.Contents() == s.Contents()
  {
    CallPushesFrame(t, level, p, ref, s);
    var c := Execute(Instruction(Cal, t, level), p, ref, s);
    assert c.m.st.Contents() == s.Contents() + [p, ref];
    assert c.m.st.buf[..s.size] == c.m.st.Contents()[..s.size];
    ReturnAfterCall(t, level, p, ref, s, c.m.st, next);
  }

  /** `jpc t` pops a condition and jumps to `t` exactly when it is non-zero
      (the C++ `if (! cond) break;` falls through into `jmp`); `jmp t`
      always jumps. Neither touches the frame base. */
  lemma JumpOutcomes(t: int, level: int, next: int, ref: int, s: StackState)
    requires s.Valid() && level >= 0
    ensures var r := Execute(Instruction(Jpc, t, level), next, ref, s);
      (s.size == 0 ==> r == Error(StackUnderflow, s)) &&
      (s.size > 0 ==>
        r.Continue? && r.m.ref == ref && r.m.st.Contents() == s.Contents()[..s.size - 1] &&
        (s.Contents()[s.size - 1] != 0 ==> r.m.pc == t) &&
        (s.Contents()[s.size - 1] == 0 ==> r.m.pc == next))
    ensures Execute(Instruction(Jmp, t, level), next, ref, s) == Continue(Machine(t, ref, s))
  {
    if s.size > 0 {
      assert s.Contents()[..s.size - 1] == Pop(s).st.Contents();
    }
  }

  /** `lod v` at `level`: pushes a copy of the slot `get` resolves, or
      stops with the stack untouched when that slot does not exist or the
      stack is full. */
  lemma LodPushes(v: int, level: int, next: int, ref: int, s: StackState)
    requires s.Valid() && level >= 0
    ensures var r, slot := Execute(Instruction(Lod, v, level), next, ref, s), Resolve(s, ref, v, level);
      (slot.Err? ==> r == Error(IndexOutOfBounds, s)) &&
      (slot.Ok? && s.size == s.Capacity() ==> r == Error(StackOverflow, s)) &&
      (slot.Ok? && s.size < s.Capacity() ==>
        r.Continue? && r.m.pc == next && r.m.ref == ref &&
        r.m.st.Contents() == s.Contents() + [s.Contents()[slot.value]])
  {
  }

  /** `sto v` at `level`: the value is popped first and the slot is then
      resolved on the popped stack, so a slot that does not exist fails with
      the value already gone; otherwise the value is written into that slot
      and nothing else changes. */
  lemma StoWrites(v: int, level: int, next: int, ref: int, s: StackState)
    requires s.Valid() && level >= 0
    ensures var r := Execute(Instruction(Sto, v, level), next, ref, s);
      (s.size == 0 ==> r == Error(StackUnderflow, s)) &&
      (s.size > 0 ==>
        var t, top := StackState(s.buf, s.size - 1), s.Contents()[s.size - 1];
        var slot := Resolve(t, ref, v, level);
        (slot.Err? ==> r == Error(IndexOutOfBounds, t)) &&
        (slot.Ok? ==>
          r.Continue? && r.m.pc == next && r.m.ref == ref &&
          r.m.st.Contents() == t.Contents()[slot.value := top]))
  {
  }

  /** Only `cal` and `retrn` change the frame base, and only `cal`, `retrn`,
      `jpc` and `jmp` move the program counter anywhere but to the next
      instruction. */
  lemma RegistersKept(inst: Instruction, next: int, ref: int, s: StackState)
    requires s.Valid() && inst.level >= 0
    ensures var r := Execute(inst, next, ref, s);
      r.Continue? && !inst.command.Cal? && !(inst.command.Opr? && inst.value == Retrn.Ordinal()) ==>
        r.m.ref == ref
    ensures var r := Execute(inst, next, ref, s);
      r.Continue? && !(inst.command.Cal? || inst.command.Jpc? || inst.command.Jmp?) &&
      !(inst.command.Opr? && inst.value == Retrn.Ordinal()) ==>
        r.m.pc == next
  {
    if inst.command.Opr? && ToOp(inst.value).Ok? {
      ToOpOrdinal(ToOp(inst.value).value);
    }
  }

  /** A cycle that fetches `lit v` pushes `v` and moves on. */
  lemma LitStep(code: seq<int>, m: Machine, v: int)
    requires m.st.Valid() && 0 <= m.pc < |code| && m.st.size < m.st.Capacity()
    requires FitsValue(v) && code[m.pc] == Encode(Instruction(Lit, v, 0))
    ensures Step(code, m) == Continue(Machine(m.pc + 1, m.ref, Push(m.st, v).st))
  {
    StepDecoded(code, m, Instruction(Lit, v, 0));
  }

  /** A cycle that fetches `opr op` for a binary `op` applies it to the two
      top elements, or stops with its fault. */
  lemma BinaryStep(code: seq<int>, m: Machine, op: Operation)
    requires m.st.Valid() && 0 <= m.pc < |code| && m.st.size >= 2
    requires op.IsBinary() && code[m.pc] == Encode(OprInstruction(op))
    ensures Step(code, m) == Proceed(Apply2(m.st, op), m.pc + 1, m.ref)
  {
    StepDecoded(code, m, OprInstruction(op));
    ToOpOrdinal(op);
  }

  /** Pushing `a`, then `b`, then applying a binary `op` leaves `op(b, a)`
      on top of what was there; a failing `op` leaves `a` on top. */
  lemma ApplyAfterPushes(s: StackState, a: int, b: int, op: Operation)
    requires s.Valid() && s.size + 2 <= s.Capacity() && op.IsBinary()
    ensures var e, result := Apply2(Push(Push(s, a).st, b).st, op), Binary(op, b, a);
      (result.Ok? ==> e.Done? && e.st.Contents() == s.Contents() + [result.value]) &&
      (result.Err? ==> e.Threw? && e.fault == result.fault && e.st.Contents() == s.Contents() + [a])
  {
    var s1 := Push(s, a).st;
    var s2 := Push(s1, b).st;
    assert s2.Contents() == s.Contents() + [a, b];
    assert s2.Contents()[s2.size - 1] == b && s2.Contents()[s2.size - 2] == a;
    assert s2.Contents()[..s2.size - 2] == s.Contents();
    var e := Apply2(s2, op);
    if e.Threw? {
      assert e.st.Contents() == s1.Contents();
    }
  }

  /** The program `lit a; lit b; opr op`. */
  function OperandProgram(a: int, b: int, op: Operation): seq<int>
    requires op.IsBinary() && FitsValue(a) && FitsValue(b)
  {
    [Encode(Instruction(Lit, a, 0)), Encode(Instruction(Lit, b, 0)), Encode(OprInstruction(op))]
  }

  /** Three cycles of `lit a; lit b; opr op` are the two pushes followed by
      the binary apply. */
  lemma OperandProgramRun(a: int, b: int, op: Operation, m: Machine)
    requires op.IsBinary() && FitsValue(a) && FitsValue(b)
    requires m.pc == 0 && m.st.Valid() && m.st.size + 2 <= m.st.Capacity()
    ensures Run(OperandProgram(a, b, op), m, 3) == Proceed(Apply2(Push(Push(m.st, a).st, b).st, op), 3, m.ref)
  {
    hide Execute;
    var code := OperandProgram(a, b, op);
    var s1 := Push(m.st, a).st;
    var s2 := Push(s1, b).st;
    var m1 := Machine(1, m.ref, s1);
    var m2 := Machine(2, m.ref, s2);
    LitStep(code, m, a);
    LitStep(code, m1, b);
    BinaryStep(code, m2, op);
    assert Run(code, m, 3) == Run(code, m1, 2);
    assert Run(code, m1, 2) == Run(code, m2, 1);
  }

  /** `lit a; lit b; opr op` hands the later-pushed `b` to the operation as
      its first operand: the stack ends with `op(b, a)`, so `sub` leaves
      `b - a`. A failing operation leaves `a`, the earlier operand, on top. */
  lemma LaterOperandFirst(a: int, b: int, op: Operation, m: Machine)
    requires op.IsBinary() && FitsValue(a) && FitsValue(b)
    requires m.pc == 0 && m.st.Valid() && m.st.size + 2 <= m.st.Capacity()
    ensures var r, result := Run(OperandProgram(a, b, op), m, 3), Binary(op, b, a);
      (result.Ok? ==>
        r.Continue? && r.m.pc == 3 && r.m.ref == m.ref && r.m.st.Contents() == m.st.Contents() + [result.value]) &&
      (result.Err? ==>
        r.Error? && r.fault == result.fault && r.st.Contents() == m.st.Contents() + [a])
    ensures op.Sub? ==>
      var r := Run(OperandProgram(a, b, op), m, 3);
      r.Continue? && r.m.st.Contents() == m.st.Contents() + [b - a]
  {
    hide Execute;
    OperandProgramRun(a, b, op, m);
    ApplyAfterPushes(m.st, a, b, op);
    if op.Sub? {
      assert Binary(op, b, a) == Ok(b - a);
    }
  }

  /** The program in `main`: `lit 2; lit 0x200; lit 0x400; opr add;
      opr divide`. */
  function SampleCode(): seq<int> {
    [ Encode(Instruction(Lit, 0x002, 0)), Encode(Instruction(Lit, 0x200, 0)),
      Encode(Instruction(Lit, 0x400, 0)), Encode(OprInstruction(Add)),
      Encode(OprInstruction(Divide)) ]
  }

  /** The three literals of the sample program, pushed onto an empty
      stack. */
  lemma SampleLiterals(buf: seq<int>, fuel: nat) returns (m3: Machine)
    requires |buf| == 100 && fuel >= 3
    ensures m3.pc == 3 && m3.st.Valid() && m3.st.Capacity() == 100
    ensures m3.st.Contents() == [0x002, 0x200, 0x400]
    ensures Run(SampleCode(), Machine(0, 0, StackState(buf, 0)), fuel) == Run(SampleCode(), m3, fuel - 3)
  {
    hide Execute;
    var code := SampleCode();
    var m0 := Machine(0, 0, StackState(buf, 0));
    var s1 := Push(m0.st, 0x002).st;
    var s2 := Push(s1, 0x200).st;
    var s3 := Push(s2, 0x400).st;
    var m1, m2 := Machine(1, 0, s1), Machine(2, 0, s2);
    m3 := Machine(3, 0, s3);
    LitStep(code, m0, 0x002);
    LitStep(code, m1, 0x200);
    LitStep(code, m2, 0x400);
    assert Run(code, m0, fuel) == Run(code, m1, fuel - 1);
    assert Run(code, m1, fuel - 1) == Run(code, m2, fuel - 2);
  }

  /** On the 100-slot stack of `main` the sample program adds 0x400 and
      0x200, divides the sum by 2 and, with nothing left to run, the next
      fetch throws "out of code segment" with 0x300 as the only element. */
  lemma SampleProgram(buf: seq<int>, fuel: nat)
    requires |buf| == 100 && fuel >= 6
    ensures var r := Run(SampleCode(), Machine(0, 0, StackState(buf, 0)), fuel);
      r.Error? && r.fault == OutOfCodeSegment && r.st.Contents() == [0x300]
  {
    hide Execute;
    var code := SampleCode();
    var m3 := SampleLiterals(buf, fuel);
    var s4 := Apply2(m3.st, Add).st;
    assert s4.Contents() == [0x002, 0x600];
    var m4 := Machine(4, m3.ref, s4);
    BinaryStep(code, m3, Add);
    assert Run(code, m3, fuel - 3) == Run(code, m4, fuel - 4);

    QuotOfNonNegative(0x600, 0x002);
    var s5 := Apply2(s4, Divide).st;
    assert s5.Contents() == [0x300];
    var m5 := Machine(5, m3.ref, s5);
    BinaryStep(code, m4, Divide);
    assert Run(code, m4, fuel - 4) == Run(code, m5, fuel - 5);
  }

  /** The fetch guard as main.cpp writes it: only `cp >= code_end` is
      rejected, so a program counter below the start of the code passes. */
  predicate FetchGuardAsWritten(code: seq<int>, pc: int) {
    !(pc >= |code|)
  }

  /** `lit 1; jmp -1` moves the program counter to -1 while the stack is
      non-empty. The as-written guard lets that counter through to a read
      before the first instruction; `Semantics.Step` rejects it with "out of
      code segment" instead. */
  lemma JumpBeforeCode(buf: seq<int>)
    requires |buf| > 0
    ensures var code := [Encode(Instruction(Lit, 1, 0)), Encode(Instruction(Jmp, -1, 0))];
      var reached := Machine(-1, 0, StackState(buf[0 := 1], 1));
      Run(code, Machine(0, 0, StackState(buf, 0)), 2) == Continue(reached) &&
      FetchGuardAsWritten(code, reached.pc) && !(0 <= reached.pc < |code|) &&
      Step(code, reached) == Error(OutOfCodeSegment, reached.st)
  {
    hide Execute;
    var code := [Encode(Instruction(Lit, 1, 0)), Encode(Instruction(Jmp, -1, 0))];
    var m0 := Machine(0, 0, StackState(buf, 0));
    var s1 := Push(m0.st, 1).st;
    var m1 := Machine(1, 0, s1);
    LitStep(code, m0, 1);
    StepDecoded(code, m1, Instruction(Jmp, -1, 0));
    JumpOutcomes(-1, 0, 2, 0, s1);
    assert Step(code, m1) == Continue(Machine(-1, 0, s1));
  }

  /** With the corrected guard every program counter outside the code,
      below or beyond it, stops the machine with "out of code segment" and
      the stack untouched. */
  lemma FetchOutsideCodeFails(code: seq<int>, m: Machine, fuel: nat)
    requires m.st.Valid() && fuel > 0 && (m.pc < 0 || m.pc >= |code|)
    ensures Run(code, m, fuel) == Error(OutOfCodeSegment, m.st)
  {
  }
}
